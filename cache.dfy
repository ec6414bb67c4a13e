/** `Cache`: the counters and geometry every cache variant shares, the
    cold-cache constructor and the tag-length arithmetic. The variant
    (the subclass the factory picks) is a constant of the object. */
module Caches {
  import opened Wrappers
  import opened Entries
  import opened Configuration

  /** The subclass of `Cache` an object was created as. */
  datatype Variant = LruCache | MruCache | FifoCache | BeladyCache | RandomCache

  /** `new List<CacheEntry>(n)` throws for a negative capacity. */
  datatype CacheError = NegativeCapacity

  class Cache {
    const Variant: Variant
    var RamFileName: string
    /** The entry list: null until `CreateColdCache`. */
    var CacheEntries: Option<seq<CacheEntry>>
    /** The capacity the entry list was created with. */
    var Capacity: int
    var CacheHits: int
    var CacheMisses: int
    var MemoryReads: int
    var MemoryWrites: int
    var NumLines: int
    var Size: int
    var Associativity: int
    var BlockNumber: int
    var SetNumber: int
    var CacheConfig: CacheConfiguration
    /** How often `CreateCache` has run on this object. */
    ghost var CreateCount: nat

    /** The field initialisers: every counter and every geometry field 0,
        no entry list yet. */
    ghost predicate HasInitialFields()
      reads this
    {
      CacheEntries.None? && CacheHits == 0 && CacheMisses == 0 && MemoryReads == 0 &&
      MemoryWrites == 0 && NumLines == 0 && Size == 0 && Associativity == 0 &&
      BlockNumber == 0 && SetNumber == 0
    }

    /** The constructor every variant shares: the field initialisers, then
        the RAM file name and the configuration the caller passes, which
        replaces the default `CacheConfiguration` of the initialiser. */
    constructor (variant: Variant, ramFileName: string, config: CacheConfiguration)
      ensures Variant == variant && RamFileName == ramFileName && CacheConfig == config
      ensures HasInitialFields() && CreateCount == 0
    {
      Variant := variant;
      RamFileName := ramFileName;
      CacheEntries := None;
      Capacity := 0;
      CacheHits, CacheMisses, MemoryReads, MemoryWrites := 0, 0, 0, 0;
      NumLines, Size, Associativity, BlockNumber, SetNumber := 0, 0, 0, 0, 0;
      CacheConfig := config;
      CreateCount := 0;
    }

    /** `CreateColdCache(numberOfLines)`: a new, EMPTY entry list;
        `numberOfLines` is only its capacity. A negative capacity throws and
        leaves the object as it was. */
    method CreateColdCache(numberOfLines: int) returns (r: Result<(), CacheError>)
      modifies this
      ensures r.Failure? <==> numberOfLines < 0
      ensures r.Success? ==> CacheEntries == Some([]) && Capacity == numberOfLines
      ensures r.Failure? ==> CacheEntries == old(CacheEntries) && Capacity == old(Capacity)
      ensures CacheHits == old(CacheHits) && CacheMisses == old(CacheMisses)
      ensures MemoryReads == old(MemoryReads) && MemoryWrites == old(MemoryWrites)
      ensures NumLines == old(NumLines) && Size == old(Size) && Associativity == old(Associativity)
      ensures BlockNumber == old(BlockNumber) && SetNumber == old(SetNumber)
      ensures RamFileName == old(RamFileName) && CacheConfig == old(CacheConfig)
      ensures CreateCount == old(CreateCount)
    {
      if numberOfLines < 0 {
        return Failure(NegativeCapacity);
      }
      CacheEntries := Some([]);
      Capacity := numberOfLines;
      r := Success(());
    }

    /** `GetTagLength(address)`: the bits of the address left for the tag
        once the set and block bits are taken. Nothing checks that they fit,
        so the result is negative exactly when they do not. */
    function GetTagLength(address: seq<bool>): (r: int)
      reads this
      ensures r + SetNumber + BlockNumber == |address|
      ensures r >= 0 <==> SetNumber + BlockNumber <= |address|
    {
      |address| - SetNumber - BlockNumber
    }

    /** `CreateCache()`, whose body is not part of this model: it counts as
        a step that keeps the settings the factory gave the object. */
    method CreateCache()
      modifies this
      ensures CreateCount == old(CreateCount) + 1
      ensures Size == old(Size) && Associativity == old(Associativity)
      ensures RamFileName == old(RamFileName) && CacheConfig == old(CacheConfig)
    {
      CreateCount := CreateCount + 1;
    }
  }
}
