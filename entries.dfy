/** A cache line (`CacheEntry`) and its flag bits (`FlagBits`, `Validity`). */
module Entries {
  import opened Wrappers

  type byte = bv8

  /** `Validity`: Invalid = 0, Valid = 1. */
  datatype Validity = Invalid | Valid
  {
    function Code(): (n: int)
      ensures 0 <= n <= 1
    {
      match this
      case Invalid => 0
      case Valid => 1
    }
  }

  /** The enum value for an integer, if `Validity` names one. */
  function ValidityFromCode(n: int): (v: Option<Validity>)
    ensures v.Some? <==> 0 <= n <= 1
    ensures v.Some? ==> v.value.Code() == n
  {
    if n == 0 then Some(Invalid) else if n == 1 then Some(Valid) else None
  }

  /** The encoding is one-to-one: decoding a code gives the value back. */
  lemma ValidityCodeRoundTrip(v: Validity)
    ensures ValidityFromCode(v.Code()) == Some(v)
  {
  }

  datatype FlagBits = FlagBits(Valid: Validity, Dirty: bool)

  /** A line. `Tag` and `DataBlock` are null references until a fill. */
  datatype CacheEntry = CacheEntry(
    Tag: Option<string>,
    DataBlock: Option<seq<byte>>,
    Set: int,
    Age: int,
    TagLength: int,
    FlagBits: FlagBits)

  /** `new CacheEntry()`: a cold line. */
  function NewEntry(): (e: CacheEntry)
    ensures e.Tag.None? && e.DataBlock.None? && e.Set == 0
    ensures e.Age == 0 && e.TagLength == 1
    ensures e.FlagBits.Valid.Code() == 0 && !e.FlagBits.Dirty
  {
    CacheEntry(None, None, 0, 0, 1, FlagBits(Invalid, false))
  }

  /** `n` cold lines. */
  function ColdLines(n: nat): (s: seq<CacheEntry>)
    ensures |s| == n && forall i :: 0 <= i < n ==> s[i] == NewEntry()
  {
    seq(n, _ => NewEntry())
  }
}
