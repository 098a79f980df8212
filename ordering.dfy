/**
 * The order the trend is built in: a copy of the entries sorted by
 * `a.date.localeCompare(b.date)`. `Array.prototype.sort` is stable, so
 * entries with the same date keep the order they were given in. The sort is
 * modelled as an insertion sort that places each later entry after every
 * entry whose date does not sort after its own.
 */
module EntryOrder {
  import opened Text
  import opened Models

  /** Ascending by date text, equal dates allowed. */
  predicate SortedByDate(s: seq<Entry>)
  {
    forall i, j :: 0 <= i < j < |s| ==> LexLe(s[i].date, s[j].date)
  }

  /** Put `x` after every entry of the sorted `s` whose date is not later than its own. */
  function Insert(x: Entry, s: seq<Entry>): seq<Entry>
  {
    if s == [] then [x]
    else if LexLess(x.date, s[0].date) then [x] + s
    else [s[0]] + Insert(x, s[1..])
  }

  /** `[...entries].sort((a, b) => a.date.localeCompare(b.date))`. */
  function SortByDate(s: seq<Entry>): seq<Entry>
  {
    if s == [] then [] else Insert(s[|s| - 1], SortByDate(s[..|s| - 1]))
  }

  /** The entries of `s` dated `d`, in their order in `s`. */
  function WithDate(s: seq<Entry>, d: string): seq<Entry>
  {
    if s == [] then []
    else (if s[0].date == d then [s[0]] else []) + WithDate(s[1..], d)
  }

  lemma {:induction false} LexLessLe(a: string, b: string, c: string)
    requires LexLess(a, b) && LexLe(b, c)
    ensures LexLess(a, c) && LexLe(a, c)
  {
    LexLessTrichotomy(b, c);
    if b != c {
      LexLessTransitive(a, b, c);
    }
    if LexLess(c, a) {
      LexLessTransitive(a, c, a);
      LexLessIrreflexive(a);
    }
  }

  lemma {:induction false} InsertPermutes(x: Entry, s: seq<Entry>)
    ensures multiset(Insert(x, s)) == multiset(s) + multiset{x}
    ensures |Insert(x, s)| == |s| + 1
  {
    if s != [] && !LexLess(x.date, s[0].date) {
      InsertPermutes(x, s[1..]);
      assert s == [s[0]] + s[1..];
    }
  }

  lemma {:induction false} InsertSorted(x: Entry, s: seq<Entry>)
    requires SortedByDate(s)
    ensures SortedByDate(Insert(x, s))
  {
    if s == [] {
    } else if LexLess(x.date, s[0].date) {
      forall j | 0 < j < |s| + 1
        ensures LexLe(x.date, ([x] + s)[j].date)
      {
        LexLessIrreflexive(s[0].date);
        if j > 1 {
          assert LexLe(s[0].date, s[j - 1].date);
        }
        LexLessLe(x.date, s[0].date, s[j - 1].date);
      }
    } else {
      InsertSorted(x, s[1..]);
      InsertPermutes(x, s[1..]);
      var r := Insert(x, s[1..]);
      forall j | 0 <= j < |r|
        ensures LexLe(s[0].date, r[j].date)
      {
        assert r[j] in multiset(s[1..]) + multiset{x};
        if r[j] == x {
          LexLeTotal(s[0].date, x.date);
        } else {
          assert r[j] in s[1..];
        }
      }
    }
  }

  /**
   * The sort keeps every entry exactly once and puts them in ascending date
   * order.
   */
  lemma {:induction false} SortByDatePermutes(s: seq<Entry>)
    ensures multiset(SortByDate(s)) == multiset(s)
    ensures |SortByDate(s)| == |s|
    ensures SortedByDate(SortByDate(s))
  {
    if s != [] {
      var init := s[..|s| - 1];
      SortByDatePermutes(init);
      InsertPermutes(s[|s| - 1], SortByDate(init));
      InsertSorted(s[|s| - 1], SortByDate(init));
      assert s == init + [s[|s| - 1]];
    }
  }

  lemma {:induction false} WithDateAppend(a: seq<Entry>, b: seq<Entry>, d: string)
    ensures WithDate(a + b, d) == WithDate(a, d) + WithDate(b, d)
  {
    if a == [] {
      assert a + b == b;
    } else {
      assert (a + b)[1..] == a[1..] + b;
      WithDateAppend(a[1..], b, d);
    }
  }

  lemma {:induction false} WithDateCons(e: Entry, r: seq<Entry>, d: string)
    ensures WithDate([e] + r, d) == (if e.date == d then [e] else []) + WithDate(r, d)
  {
    assert ([e] + r)[1..] == r;
  }

  /** No entry of `s` is dated `d` when every date in it sorts after `d`. */
  lemma {:induction false} WithDateAllLater(s: seq<Entry>, d: string)
    requires SortedByDate(s) && s != [] && LexLess(d, s[0].date)
    ensures WithDate(s, d) == []
  {
    forall j | 0 <= j < |s|
      ensures s[j].date != d
    {
      if j > 0 {
        LexLessLe(d, s[0].date, s[j].date);
      }
      LexLessIrreflexive(d);
    }
    WithDateNone(s, d);
  }

  lemma {:induction false} WithDateNone(s: seq<Entry>, d: string)
    requires forall j :: 0 <= j < |s| ==> s[j].date != d
    ensures WithDate(s, d) == []
  {
    if s != [] {
      WithDateNone(s[1..], d);
    }
  }

  lemma {:induction false} InsertWithDate(x: Entry, s: seq<Entry>, d: string)
    requires SortedByDate(s)
    ensures WithDate(Insert(x, s), d) == WithDate(s, d) + (if x.date == d then [x] else [])
  {
    if s == [] {
      WithDateCons(x, [], d);
    } else if LexLess(x.date, s[0].date) {
      WithDateCons(x, s, d);
      if x.date == d {
        WithDateAllLater(s, d);
      }
    } else {
      var rest := s[1..];
      assert SortedByDate(rest) by {
        forall i, j | 0 <= i < j < |rest|
          ensures LexLe(rest[i].date, rest[j].date)
        {
          assert rest[i] == s[i + 1] && rest[j] == s[j + 1];
        }
      }
      InsertWithDate(x, rest, d);
      WithDateCons(s[0], Insert(x, rest), d);
      WithDateCons(s[0], rest, d);
      assert [s[0]] + rest == s;
    }
  }

  /**
   * The sort is stable: the entries sharing any one date come out in the
   * order they went in.
   */
  lemma {:induction false} SortByDateStable(s: seq<Entry>, d: string)
    ensures WithDate(SortByDate(s), d) == WithDate(s, d)
  {
    if s != [] {
      var init, x := s[..|s| - 1], s[|s| - 1];
      var sorted := SortByDate(init);
      var last := if x.date == d then [x] else [];
      assert SortByDate(s) == Insert(x, sorted);
      assert WithDate(Insert(x, sorted), d) == WithDate(sorted, d) + last by {
        SortByDatePermutes(init);
        InsertWithDate(x, sorted, d);
      }
      assert WithDate(s, d) == WithDate(init, d) + last by {
        assert s == init + [x];
        WithDateAppend(init, [x], d);
        WithDateCons(x, [], d);
      }
      SortByDateStable(init, d);
    }
  }
}
