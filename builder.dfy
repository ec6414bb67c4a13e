/** `CacheBuilder`: collects the size and associativity, then builds the
    cache variant the configuration's replacement policy selects. */
module Builder {
  import opened Policies
  import opened Configuration
  import opened Caches

  /** The arm of the `switch` in `Build`: Bélády and LRU have their own
      variants; every other policy, first-in-first-out included, falls to
      the default arm and gets the random cache. */
  function VariantFor(policy: ReplacementPolicy): (v: Variant)
    ensures v == BeladyCache <==> policy == Belady
    ensures v == LruCache <==> policy == LeastRecentlyUsed
    ensures v == RandomCache <==> policy != Belady && policy != LeastRecentlyUsed
  {
    match policy
    case Belady => BeladyCache
    case LeastRecentlyUsed => LruCache
    case _ => RandomCache
  }

  /** No policy builds the MRU or the FIFO cache. */
  lemma NoPolicyBuildsMruOrFifo(policy: ReplacementPolicy)
    ensures VariantFor(policy) != MruCache && VariantFor(policy) != FifoCache
  {
  }

  class CacheBuilder {
    const ramFileName: string
    /** Shared with the caller: a later change to it shows in `Build`. */
    const config: CacheConfiguration
    var size: int
    var associativity: int

    constructor (ramFileName: string, config: CacheConfiguration)
      ensures this.ramFileName == ramFileName && this.config == config
      ensures size == 0 && associativity == 0
    {
      this.ramFileName := ramFileName;
      this.config := config;
      size := 0;
      associativity := 0;
    }

    method Size(size: int)
      modifies this
      ensures this.size == size && associativity == old(associativity)
    {
      this.size := size;
    }

    method Associativity(associativity: int)
      modifies this
      ensures this.associativity == associativity && size == old(size)
    {
      this.associativity := associativity;
    }

    /** A new cache of the variant the policy selects, with the builder's
        size, associativity, RAM file name and configuration object, on
        which `CreateCache` has run once. */
    method Build() returns (cache: Cache)
      ensures fresh(cache)
      ensures cache.Variant == VariantFor(config.ReplacementPolicy)
      ensures cache.Size == size && cache.Associativity == associativity
      ensures cache.RamFileName == ramFileName && cache.CacheConfig == config
      ensures cache.CreateCount == 1
    {
      cache := new Cache(VariantFor(config.ReplacementPolicy), ramFileName, config);
      cache.Size := size;
      cache.Associativity := associativity;
      cache.CreateCache();
    }
  }

  /** What a caller of the builder can rely on: setters it never called
      leave 0, the last call of a setter wins, and the configuration is read
      when `Build` runs, not when the builder was made. */
  method BuildScenario(ramFileName: string, size1: int, size2: int) returns (cache: Cache)
    ensures cache.Size == size2 && cache.Associativity == 0
    ensures cache.Variant == BeladyCache
  {
    var config := new CacheConfiguration();
    var b := new CacheBuilder(ramFileName, config);
    b.Size(size1);
    b.Size(size2);
    config.ReplacementPolicy := Belady;
    cache := b.Build();
  }
}
