/**
 * The application store: the list of entries and the settings, and the
 * actions that replace them. Saving is an upsert keyed by the entry date
 * that leaves the list sorted by date; deleting filters by id; the other
 * actions update the settings.
 *
 * The random part of a new entry's id and the current time are passed in;
 * so is the sample data that seeding installs.
 */
module Store {
  import opened Wrappers
  import opened Text
  import opened Models
  import opened EntryOrder
  import opened Lists

  /** What the check-in form submits. */
  datatype CheckInInput = CheckInInput(date: string, weightKg: real, weighTime: WeighTime, pooTime: PooTime)

  /** `defaultSettings`: no target, kilograms, onboarding not completed. */
  const DefaultSettings: Settings := Settings(None, Kg, false)

  // ---------------------------------------------------------------------
  // Date uniqueness
  // ---------------------------------------------------------------------

  /** No two entries share a date. */
  ghost predicate DatesUnique(s: seq<Entry>)
  {
    forall d :: |WithDate(s, d)| <= 1
  }

  /** Some entry has date `d`: `entries.find((entry) => entry.date === d)` finds one. */
  predicate HasDate(s: seq<Entry>, d: string)
  {
    exists i :: 0 <= i < |s| && s[i].date == d
  }

  /** An entry dated `d` shows among the entries with that date. */
  lemma {:induction false} WithDateHas(s: seq<Entry>, d: string)
    ensures HasDate(s, d) <==> WithDate(s, d) != []
  {
    if s != [] {
      WithDateHas(s[1..], d);
      if HasDate(s[1..], d) {
        var i :| 0 <= i < |s[1..]| && s[1..][i].date == d;
        assert s[i + 1].date == d;
      }
      if HasDate(s, d) && s[0].date != d {
        var i :| 0 <= i < |s| && s[i].date == d;
        assert s[1..][i - 1].date == d;
      }
    }
  }

  /** No two positions hold the same date. */
  predicate DistinctDates(s: seq<Entry>)
  {
    forall i, j :: 0 <= i < j < |s| ==> s[i].date != s[j].date
  }

  lemma {:induction false} DistinctDatesTail(s: seq<Entry>)
    requires s != [] && DistinctDates(s)
    ensures DistinctDates(s[1..])
  {
    var t := s[1..];
    forall i, j | 0 <= i < j < |t|
      ensures t[i].date != t[j].date
    {
      assert s[i + 1] == t[i] && s[j + 1] == t[j];
    }
  }

  /** Unique dates mean that no two positions hold the same date, and back. */
  lemma {:induction false} DatesUniquePairwise(s: seq<Entry>)
    ensures DatesUnique(s) <==> DistinctDates(s)
  {
    if DatesUnique(s) {
      UniqueDistinct(s);
    }
    if DistinctDates(s) {
      DistinctUnique(s);
    }
  }

  lemma {:induction false} UniqueDistinct(s: seq<Entry>)
    requires DatesUnique(s)
    ensures DistinctDates(s)
  {
    if s != [] {
      var x, t := s[0], s[1..];
      assert s == [x] + t;
      forall d
        ensures |WithDate(t, d)| <= 1
      {
        WithDateCons(x, t, d);
      }
      UniqueDistinct(t);
      WithDateHas(t, x.date);
      WithDateCons(x, t, x.date);
      forall i, j | 0 <= i < j < |s|
        ensures s[i].date != s[j].date
      {
        if i == 0 {
          assert t[j - 1] == s[j];
        } else {
          assert t[i - 1] == s[i] && t[j - 1] == s[j];
        }
      }
    }
  }

  lemma {:induction false} DistinctUnique(s: seq<Entry>)
    requires DistinctDates(s)
    ensures DatesUnique(s)
  {
    if s != [] {
      var x, t := s[0], s[1..];
      assert s == [x] + t;
      DistinctDatesTail(s);
      DistinctUnique(t);
      WithDateHas(t, x.date);
      forall d
        ensures |WithDate(s, d)| <= 1
      {
        WithDateCons(x, t, d);
      }
    }
  }

  // ---------------------------------------------------------------------
  // saveEntry
  // ---------------------------------------------------------------------

  /** `{ ...entry, ...input, updatedAt: now }`. */
  function Overwrite(e: Entry, input: CheckInInput, now: string): (r: Entry)
    ensures r.id == e.id && r.createdAt == e.createdAt && r.updatedAt == now
    ensures r.date == input.date && r.weightKg == input.weightKg
    ensures r.weighTime == input.weighTime && r.pooTime == input.pooTime
  {
    e.(date := input.date, weightKg := input.weightKg, weighTime := input.weighTime,
       pooTime := input.pooTime, updatedAt := now)
  }

  /** `entries.map(...)`: every entry dated `input.date` overwritten with the input. */
  function ApplyInput(s: seq<Entry>, input: CheckInInput, now: string): (r: seq<Entry>)
    ensures |r| == |s|
  {
    seq(|s|, i requires 0 <= i < |s| => if s[i].date == input.date then Overwrite(s[i], input, now) else s[i])
  }

  /** The entry `saveEntry` creates: id `${input.date}-${idSuffix}`, created and updated `now`. */
  function NewEntry(input: CheckInInput, idSuffix: string, now: string): (e: Entry)
    ensures e.date == input.date && e.weightKg == input.weightKg
    ensures e.weighTime == input.weighTime && e.pooTime == input.pooTime
    ensures e.createdAt == now && e.updatedAt == now
  {
    Entry(input.date + "-" + idSuffix, input.date, input.weightKg, input.weighTime, input.pooTime, now, now)
  }

  /** The entries after `saveEntry(input)`. */
  function Upsert(s: seq<Entry>, input: CheckInInput, idSuffix: string, now: string): (r: seq<Entry>)
    ensures SortedByDate(r)
    ensures |r| == if HasDate(s, input.date) then |s| else |s| + 1
  {
    if HasDate(s, input.date) then
      var updated := ApplyInput(s, input, now);
      SortByDatePermutes(updated);
      SortByDate(updated)
    else
      var extended := s + [NewEntry(input, idSuffix, now)];
      SortByDatePermutes(extended);
      SortByDate(extended)
  }

  /**
   * Overwriting leaves every entry where it was, with its id, its creation
   * time and its date; those dated `input.date` take the input's weight,
   * times and `now` as their update time, and the others are unchanged.
   */
  lemma {:induction false} ApplyInputEntries(s: seq<Entry>, input: CheckInInput, now: string)
    ensures forall i :: 0 <= i < |s| ==>
      var r := ApplyInput(s, input, now)[i];
      && r.id == s[i].id && r.createdAt == s[i].createdAt && r.date == s[i].date
      && (s[i].date == input.date ==>
            r.weightKg == input.weightKg && r.weighTime == input.weighTime
            && r.pooTime == input.pooTime && r.updatedAt == now)
      && (s[i].date != input.date ==> r == s[i])
  {
  }

  /** Sequences with the same dates position by position have as many entries of each date. */
  lemma {:induction false} SameDatesWithDate(s: seq<Entry>, r: seq<Entry>, d: string)
    requires |r| == |s| && forall i :: 0 <= i < |s| ==> r[i].date == s[i].date
    ensures |WithDate(r, d)| == |WithDate(s, d)|
  {
    if s != [] {
      SameDatesWithDate(s[1..], r[1..], d);
    }
  }

  /**
   * Saving for a date that no entry has adds exactly one entry, which
   * carries the input, and keeps every other entry; the result is sorted
   * by date.
   */
  lemma {:induction false} UpsertNew(s: seq<Entry>, input: CheckInInput, idSuffix: string, now: string)
    requires !HasDate(s, input.date)
    ensures var r := Upsert(s, input, idSuffix, now);
      && |r| == |s| + 1
      && multiset(r) == multiset(s) + multiset{NewEntry(input, idSuffix, now)}
      && SortedByDate(r)
  {
    SortByDatePermutes(s + [NewEntry(input, idSuffix, now)]);
  }

  /**
   * Saving for a date some entry has keeps the number of entries: the
   * result is the overwritten entries, sorted by date.
   */
  lemma {:induction false} UpsertExisting(s: seq<Entry>, input: CheckInInput, idSuffix: string, now: string)
    requires HasDate(s, input.date)
    ensures var r := Upsert(s, input, idSuffix, now);
      && |r| == |s|
      && multiset(r) == multiset(ApplyInput(s, input, now))
      && SortedByDate(r)
  {
    SortByDatePermutes(ApplyInput(s, input, now));
  }

  /**
   * Saving keeps dates unique, and afterwards exactly one entry has the
   * input's date.
   */
  lemma {:induction false} UpsertDatesUnique(s: seq<Entry>, input: CheckInInput, idSuffix: string, now: string)
    requires DatesUnique(s)
    ensures DatesUnique(Upsert(s, input, idSuffix, now))
    ensures |WithDate(Upsert(s, input, idSuffix, now), input.date)| == 1
  {
    var d := input.date;
    if HasDate(s, d) {
      var a := ApplyInput(s, input, now);
      var r := SortByDate(a);
      assert Upsert(s, input, idSuffix, now) == r;
      forall e
        ensures |WithDate(r, e)| == |WithDate(s, e)|
      {
        SortByDateStable(a, e);
        SameDatesWithDate(s, a, e);
      }
      WithDateHas(s, d);
    } else {
      var n := NewEntry(input, idSuffix, now);
      var r := SortByDate(s + [n]);
      assert Upsert(s, input, idSuffix, now) == r;
      WithDateHas(s, d);
      forall e
        ensures |WithDate(r, e)| == |WithDate(s, e)| + (if e == d then 1 else 0)
      {
        SortByDateStable(s + [n], e);
        WithDateAppend(s, [n], e);
        WithDateCons(n, [], e);
      }
    }
  }

  // ---------------------------------------------------------------------
  // deleteEntry
  // ---------------------------------------------------------------------

  /** `(entry) => entry.id !== id`. */
  function OtherId(id: string): Entry -> bool
  {
    (e: Entry) => e.id != id
  }

  /** `entries.filter((entry) => entry.id !== id)`. */
  function WithoutId(s: seq<Entry>, id: string): (r: seq<Entry>)
    ensures |r| <= |s|
    ensures forall e :: e in r ==> e in s && e.id != id
  {
    Filter(s, OtherId(id))
  }

  /**
   * Deleting keeps exactly the entries with another id, in their order:
   * deleting from a concatenation deletes from each part, and an id that
   * no entry has changes nothing.
   */
  lemma {:induction false} WithoutIdEntries(s: seq<Entry>, t: seq<Entry>, id: string, e: Entry)
    ensures e in WithoutId(s, id) <==> e in s && e.id != id
    ensures WithoutId(s + t, id) == WithoutId(s, id) + WithoutId(t, id)
    ensures (forall x :: x in s ==> x.id != id) ==> WithoutId(s, id) == s
  {
    FilterMembers(s, OtherId(id), e);
    FilterAppend(s, t, OtherId(id));
    if forall x :: x in s ==> x.id != id {
      FilterAll(s, OtherId(id));
    }
  }

  /** Filtering never adds entries of a date. */
  lemma {:induction false} FilterWithDate(s: seq<Entry>, keep: Entry -> bool, d: string)
    ensures |WithDate(Filter(s, keep), d)| <= |WithDate(s, d)|
  {
    if s != [] {
      FilterWithDate(s[1..], keep, d);
      FilterCons(s[0], s[1..], keep);
      assert s == [s[0]] + s[1..];
      WithDateAppend(if keep(s[0]) then [s[0]] else [], Filter(s[1..], keep), d);
      WithDateCons(s[0], s[1..], d);
      if keep(s[0]) {
        WithDateCons(s[0], [], d);
      }
    }
  }

  /** Filtering a sorted list leaves it sorted. */
  lemma {:induction false} FilterSorted(s: seq<Entry>, keep: Entry -> bool)
    requires SortedByDate(s)
    ensures SortedByDate(Filter(s, keep))
  {
    if s != [] {
      var t := s[1..];
      assert SortedByDate(t) by {
        forall i, j | 0 <= i < j < |t|
          ensures LexLe(t[i].date, t[j].date)
        {
          assert t[i] == s[i + 1] && t[j] == s[j + 1];
        }
      }
      FilterSorted(t, keep);
      FilterCons(s[0], t, keep);
      assert s == [s[0]] + t;
      if keep(s[0]) {
        var r := Filter(t, keep);
        forall j | 0 <= j < |r|
          ensures LexLe(s[0].date, r[j].date)
        {
          FilterMembers(t, keep, r[j]);
          var k :| 0 <= k < |t| && t[k] == r[j];
          assert s[k + 1] == t[k];
        }
      }
    }
  }

  /** Deleting keeps dates unique and the list sorted. */
  lemma {:induction false} WithoutIdKeeps(s: seq<Entry>, id: string)
    ensures DatesUnique(s) ==> DatesUnique(WithoutId(s, id))
    ensures SortedByDate(s) ==> SortedByDate(WithoutId(s, id))
  {
    forall d
      ensures |WithDate(WithoutId(s, id), d)| <= |WithDate(s, d)|
    {
      FilterWithDate(s, OtherId(id), d);
    }
    if SortedByDate(s) {
      FilterSorted(s, OtherId(id));
    }
  }

  // ---------------------------------------------------------------------
  // The store
  // ---------------------------------------------------------------------

  /** The state the application keeps: entries and settings. */
  class AppStore {
    var entries: seq<Entry>
    var settings: Settings

    /** What the rest of the application relies on: one entry per date, in date order. */
    ghost predicate Valid()
      reads this
    {
      DatesUnique(entries) && SortedByDate(entries)
    }

    /** A fresh store: no entries and the default settings. */
    constructor()
      ensures entries == [] && settings == DefaultSettings
      ensures Valid()
    {
      entries := [];
      settings := DefaultSettings;
    }

    /** `saveEntry(input)`, with the random id part and the current time passed in. */
    method SaveEntry(input: CheckInInput, idSuffix: string, now: string)
      modifies this
      ensures entries == Upsert(old(entries), input, idSuffix, now)
      ensures settings == old(settings)
      ensures SortedByDate(entries) && HasDate(entries, input.date)
      ensures old(Valid()) ==> Valid()
    {
      var existing := HasDate(entries, input.date);
      var before := entries;
      if existing {
        entries := SortByDate(ApplyInput(entries, input, now));
        UpsertExisting(before, input, idSuffix, now);
      } else {
        entries := SortByDate(entries + [NewEntry(input, idSuffix, now)]);
        UpsertNew(before, input, idSuffix, now);
      }
      WithDateHas(entries, input.date);
      if DatesUnique(before) {
        UpsertDatesUnique(before, input, idSuffix, now);
      } else {
        WithDateHasAfterSave(before, input, idSuffix, now);
      }
    }

    /** `deleteEntry(id)`. */
    method DeleteEntry(id: string)
      modifies this
      ensures entries == WithoutId(old(entries), id)
      ensures settings == old(settings)
      ensures old(Valid()) ==> Valid()
    {
      WithoutIdKeeps(entries, id);
      entries := WithoutId(entries, id);
    }

    /** `setTargetWeight(value)`: only the target changes. */
    method SetTargetWeight(value: Option<real>)
      modifies this
      ensures settings == old(settings).(targetWeightKg := value)
      ensures entries == old(entries)
    {
      settings := settings.(targetWeightKg := value);
    }

    /** `completeOnboarding()`: only the onboarding flag changes, to true. */
    method CompleteOnboarding()
      modifies this
      ensures settings == old(settings).(onboardingCompleted := true)
      ensures entries == old(entries)
    {
      settings := settings.(onboardingCompleted := true);
    }

    /** `resetAllData()`: no entries, no target, kilograms, onboarding not completed. */
    method ResetAllData()
      modifies this
      ensures entries == []
      ensures settings.targetWeightKg == None && settings.unit == Kg && !settings.onboardingCompleted
      ensures Valid()
    {
      entries := [];
      settings := DefaultSettings;
    }

    /**
     * `seedIfEmpty()`: in a development build an empty list becomes the
     * sample entries; a list that is not empty never changes.
     */
    method SeedIfEmpty(devMode: bool, sample: seq<Entry>)
      modifies this
      ensures entries == if devMode && old(entries) == [] then sample else old(entries)
      ensures settings == old(settings)
    {
      if devMode && |entries| == 0 {
        entries := sample;
      }
    }
  }

  /** After saving, some entry has the input's date. */
  lemma {:induction false} WithDateHasAfterSave(s: seq<Entry>, input: CheckInInput, idSuffix: string, now: string)
    ensures HasDate(Upsert(s, input, idSuffix, now), input.date)
  {
    var d := input.date;
    var r := Upsert(s, input, idSuffix, now);
    if HasDate(s, d) {
      var a := ApplyInput(s, input, now);
      SortByDateStable(a, d);
      SameDatesWithDate(s, a, d);
      WithDateHas(s, d);
    } else {
      var n := NewEntry(input, idSuffix, now);
      SortByDateStable(s + [n], d);
      WithDateAppend(s, [n], d);
      WithDateCons(n, [], d);
    }
    WithDateHas(r, d);
  }
}
