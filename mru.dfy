/** `CacheMRU`: the victim is meant to be the youngest line of the set.
    As written the scan starts from a lowest age of 0 and only moves on a
    strictly smaller age, so it leaves `start` unless some age is negative.
    `GetReplacementIndex` models that; `GetReplacementIndexFromFirstSlot`
    is the scan seeded from the set's first line, which finds the youngest
    line. */
module Mru {
  import opened Wrappers
  import opened Entries
  import opened Lru

  /** Some line of the set has a negative age. */
  ghost predicate SomeNegativeAge(s: seq<CacheEntry>, start: int, associativity: int)
    requires SetInRange(|s|, start, associativity)
  {
    exists j :: start <= j < start + associativity && s[j].Age < 0
  }

  /** `r` is the first line of the set with the least age. */
  ghost predicate IsFirstYoungest(s: seq<CacheEntry>, start: int, associativity: int, r: int)
    requires SetInRange(|s|, start, associativity)
  {
    start <= r < start + associativity &&
    (forall j :: start <= j < start + associativity ==> s[r].Age <= s[j].Age) &&
    (forall j :: start <= j < r ==> s[j].Age > s[r].Age)
  }

  /** What the scan as written picks. */
  ghost predicate IsMruVictim(s: seq<CacheEntry>, start: int, associativity: int, r: int)
    requires SetInRange(|s|, start, associativity)
  {
    if SomeNegativeAge(s, start, associativity) then IsFirstYoungest(s, start, associativity, r)
    else r == start
  }

  /** `GetReplacementIndex(index, traceIndex)` as written; read-only, and
      `traceIndex` is not used. Like the LRU scan it reads every slot of
      the set, so it throws exactly when the set does not lie within the
      list. */
  method GetReplacementIndex(entries: array<CacheEntry>, associativity: int, index: int, traceIndex: int)
    returns (r: Result<int, SlotError>)
    ensures r.Failure? <==> !SetInRange(entries.Length, index, associativity)
    ensures r.Success? ==> IsMruVictim(entries[..], index, associativity, r.value)
    ensures r.Success? && associativity >= 1 ==> index <= r.value < index + associativity
  {
    var replacementIndex := index;
    var i, lowestAge := index, 0;
    while i < index + associativity
      invariant associativity <= 0 ==> i == index
      invariant associativity > 0 ==> index <= i <= index + associativity
      invariant i > index ==> 0 <= index && i <= entries.Length
      invariant lowestAge <= 0
      invariant forall j :: index <= j < i ==> entries[j].Age >= lowestAge
      invariant lowestAge == 0 ==> replacementIndex == index
      invariant lowestAge < 0 ==>
        index <= replacementIndex < i && entries[replacementIndex].Age == lowestAge &&
        forall j :: index <= j < replacementIndex ==> entries[j].Age > lowestAge
    {
      if i < 0 || i >= entries.Length {
        return Failure(SlotOutOfRange);
      }
      if entries[i].Age < lowestAge {
        lowestAge := entries[i].Age;
        replacementIndex := i;
      }
      i := i + 1;
    }
    r := Success(replacementIndex);
  }

  /** The scan seeded from the set's first line: the first youngest line.
      It throws where the scan as written does. */
  method GetReplacementIndexFromFirstSlot(entries: array<CacheEntry>, associativity: int, index: int,
                                          traceIndex: int)
    returns (r: Result<int, SlotError>)
    ensures r.Failure? <==> !SetInRange(entries.Length, index, associativity)
    ensures r.Success? && associativity >= 1 ==> IsFirstYoungest(entries[..], index, associativity, r.value)
    ensures r.Success? && associativity <= 0 ==> r.value == index
  {
    if associativity <= 0 {
      return Success(index);
    }
    if index < 0 || index >= entries.Length {
      return Failure(SlotOutOfRange);
    }
    var replacementIndex := index;
    var i, lowestAge := index + 1, entries[index].Age;
    while i < index + associativity
      invariant index + 1 <= i <= index + associativity && i <= entries.Length
      invariant index <= replacementIndex < i && entries[replacementIndex].Age == lowestAge
      invariant forall j :: index <= j < i ==> entries[j].Age >= lowestAge
      invariant forall j :: index <= j < replacementIndex ==> entries[j].Age > lowestAge
    {
      if i >= entries.Length {
        return Failure(SlotOutOfRange);
      }
      if entries[i].Age < lowestAge {
        lowestAge := entries[i].Age;
        replacementIndex := i;
      }
      i := i + 1;
    }
    r := Success(replacementIndex);
  }

  /** The two scans agree whenever some age is negative. */
  lemma ScansAgreeOnNegativeAges(s: seq<CacheEntry>, start: int, associativity: int, r: int, q: int)
    requires associativity >= 1 && SetInRange(|s|, start, associativity)
    requires SomeNegativeAge(s, start, associativity)
    requires IsMruVictim(s, start, associativity, r) && IsFirstYoungest(s, start, associativity, q)
    ensures r == q
  {
  }

  /** The discrepancy: with ages 3 and 0 (the line at slot 1 is the most
      recently used), the scan as written evicts slot 0, the least recently
      used line, while the seeded scan evicts slot 1. */
  lemma AsWrittenEvictsOldest(r: int, q: int)
    requires var s := [NewEntry().(Age := 3), NewEntry()];
      IsMruVictim(s, 0, 2, r) && IsFirstYoungest(s, 0, 2, q)
    ensures r == 0 && q == 1
  {
    var s := [NewEntry().(Age := 3), NewEntry()];
    assert s[0].Age == 3 && s[1].Age == 0;
    assert !SomeNegativeAge(s, 0, 2);
  }
}
