/** `CacheLRU`: ageing a set after an access, and choosing the oldest line
    of a set as the victim. The set at slot `start` is
    `entries[start .. start + associativity)`. */
module Lru {
  import opened Wrappers
  import opened Entries

  /** `List<CacheEntry>`'s indexer throws `ArgumentOutOfRangeException`
      for a slot outside the list. */
  datatype SlotError = SlotOutOfRange

  /** The slots `[start, start + associativity)` exist. */
  ghost predicate SetInRange(length: int, start: int, associativity: int)
  {
    associativity <= 0 || (0 <= start && start + associativity <= length)
  }

  /** The lines after `Aging`: every line of the set one older, except
      `newest`, which keeps its age; everything else as it was. */
  function Aged(s: seq<CacheEntry>, start: int, associativity: int, newest: int): (r: seq<CacheEntry>)
    ensures |r| == |s|
    ensures forall i :: 0 <= i < |s| ==> r[i] == s[i].(Age := r[i].Age)
    ensures forall i :: 0 <= i < |s| ==> r[i].Age >= s[i].Age
    ensures forall i :: 0 <= i < |s| && (i == newest || i < start || i >= start + associativity) ==>
      r[i] == s[i]
    ensures forall i :: start <= i < start + associativity && 0 <= i < |s| && i != newest ==>
      r[i].Age == s[i].Age + 1
  {
    seq(|s|, i requires 0 <= i < |s| =>
      if i != newest && start <= i < start + associativity then s[i].(Age := s[i].Age + 1) else s[i])
  }

  /** `Aging(newestEntryIndex, index)`: `index` is a set number, so the set
      starts at `index * associativity`. The touched line's age is saved
      and put back, not reset to 0. A slot outside the list throws
      (`SlotOutOfRange`): reading the touched line throws before anything
      changes; the loop throws at the first missing slot, after ageing the
      slots of the set before it, and the touched line is then not restored. */
  method Aging(entries: array<CacheEntry>, associativity: int, newestEntryIndex: int, index: int)
    returns (r: Result<(), SlotError>)
    modifies entries
    ensures r.Failure? <==>
      !(0 <= newestEntryIndex < entries.Length) || !SetInRange(entries.Length, index * associativity, associativity)
    ensures r.Success? ==>
      entries[..] == Aged(old(entries[..]), index * associativity, associativity, newestEntryIndex)
    ensures r.Failure? ==>
      entries[..] == if 0 <= newestEntryIndex < entries.Length && index * associativity >= 0
                     then Aged(old(entries[..]), index * associativity, entries.Length - index * associativity, -1)
                     else old(entries[..])
  {
    var limit := index * associativity;
    if !(0 <= newestEntryIndex < entries.Length) {
      return Failure(SlotOutOfRange);
    }
    var tmpAge := entries[newestEntryIndex].Age;
    var i := limit;
    while i < limit + associativity
      invariant associativity <= 0 ==> i == limit
      invariant associativity > 0 ==> limit <= i <= limit + associativity
      invariant i > limit ==> 0 <= limit && i <= entries.Length
      invariant forall j :: 0 <= j < entries.Length ==>
        entries[j] == if limit <= j < i then old(entries[j]).(Age := old(entries[j]).Age + 1) else old(entries[j])
    {
      if i < 0 || i >= entries.Length {
        assert i == limit || i == entries.Length;
        return Failure(SlotOutOfRange);
      }
      entries[i] := entries[i].(Age := entries[i].Age + 1);
      i := i + 1;
    }
    entries[newestEntryIndex] := entries[newestEntryIndex].(Age := tmpAge);
    r := Success(());
  }

  /** Ageing keeps non-negative ages non-negative. */
  lemma AgingKeepsAgesNonNegative(s: seq<CacheEntry>, start: int, associativity: int, newest: int)
    requires forall i :: 0 <= i < |s| ==> s[i].Age >= 0
    ensures forall i :: 0 <= i < |s| ==> Aged(s, start, associativity, newest)[i].Age >= 0
  {
  }

  /** Some line of the set is older than 0. */
  ghost predicate SomePositiveAge(s: seq<CacheEntry>, start: int, associativity: int)
    requires SetInRange(|s|, start, associativity)
  {
    exists j :: start <= j < start + associativity && s[j].Age > 0
  }

  /** The victim `GetReplacementIndex` picks: the first line holding the
      greatest age, provided that age is above 0; otherwise `start`. */
  ghost predicate IsLruVictim(s: seq<CacheEntry>, start: int, associativity: int, r: int)
    requires SetInRange(|s|, start, associativity)
  {
    if SomePositiveAge(s, start, associativity) then
      start <= r < start + associativity && s[r].Age > 0 &&
      (forall j :: start <= j < r ==> s[j].Age < s[r].Age) &&
      (forall j :: r <= j < start + associativity ==> s[j].Age <= s[r].Age)
    else
      r == start
  }

  /** `GetReplacementIndex(index, traceIndex)`: `index` is the set's first
      slot; `traceIndex` is not used. The scan reads every slot of the set
      in order, so it throws (`SlotOutOfRange`) exactly when the set does
      not lie within the list. */
  method GetReplacementIndex(entries: array<CacheEntry>, associativity: int, index: int, traceIndex: int)
    returns (r: Result<int, SlotError>)
    ensures r.Failure? <==> !SetInRange(entries.Length, index, associativity)
    ensures r.Success? ==> IsLruVictim(entries[..], index, associativity, r.value)
    ensures r.Success? && associativity >= 1 ==> index <= r.value < index + associativity
    ensures r.Success? && associativity >= 1 &&
            (forall j :: index <= j < index + associativity ==> entries[j].Age >= 0) ==>
      forall j :: index <= j < index + associativity ==> entries[j].Age <= entries[r.value].Age
  {
    var replacementIndex := index;
    var i, highestAge := index, 0;
    while i < index + associativity
      invariant associativity <= 0 ==> i == index
      invariant associativity > 0 ==> index <= i <= index + associativity
      invariant i > index ==> 0 <= index && i <= entries.Length
      invariant highestAge >= 0
      invariant forall j :: index <= j < i ==> entries[j].Age <= highestAge
      invariant highestAge == 0 ==> replacementIndex == index
      invariant highestAge > 0 ==>
        index <= replacementIndex < i && entries[replacementIndex].Age == highestAge &&
        forall j :: index <= j < replacementIndex ==> entries[j].Age < highestAge
    {
      if i < 0 || i >= entries.Length {
        return Failure(SlotOutOfRange);
      }
      if entries[i].Age > highestAge {
        highestAge := entries[i].Age;
        replacementIndex := i;
      }
      i := i + 1;
    }
    r := Success(replacementIndex);
  }

  /** With every age in the set at least 0, a line that was just used at
      age 0 is not the victim after ageing, as long as the set has another
      line. */
  lemma FreshlyUsedLineIsNotVictim(s: seq<CacheEntry>, start: int, associativity: int, newest: int, r: int)
    requires associativity >= 2 && SetInRange(|s|, start, associativity)
    requires start <= newest < start + associativity && s[newest].Age == 0
    requires forall j :: start <= j < start + associativity ==> s[j].Age >= 0
    requires IsLruVictim(Aged(s, start, associativity, newest), start, associativity, r)
    ensures r != newest
  {
    var other := if newest == start then start + 1 else start;
    assert Aged(s, start, associativity, newest)[other].Age > 0;
  }

  /** Because the touched line keeps its age instead of going back to 0, a
      line that was the oldest before its own access is still the victim
      right after it. */
  lemma TouchedLineCanStayVictim()
    ensures var s := [NewEntry().(Age := 5), NewEntry()];
      forall r :: IsLruVictim(Aged(s, 0, 2, 0), 0, 2, r) ==> r == 0
  {
    var s := [NewEntry().(Age := 5), NewEntry()];
    var a := Aged(s, 0, 2, 0);
    assert a[0].Age == 5 && a[1].Age == 1;
  }

  /** A set of cold lines gives up its first slot. */
  lemma ColdSetVictim(n: nat, start: int, associativity: int, r: int)
    requires SetInRange(n, start, associativity)
    requires IsLruVictim(ColdLines(n), start, associativity, r)
    ensures r == start
  {
  }
}
