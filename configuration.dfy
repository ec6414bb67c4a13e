/** `CacheConfiguration`, a mutable record of four settings, and
    `CacheConfigurationBuilder`, whose setters write through to the one
    configuration object that `Build` hands out. */
module Configuration {
  import opened Policies

  class CacheConfiguration {
    var BlockSize: int
    var WriteHitPolicy: WritePolicy
    var WriteMissPolicy: WritePolicy
    var ReplacementPolicy: ReplacementPolicy

    /** The settings are exactly the four given values. */
    ghost predicate Holds(blockSize: int, writeHit: WritePolicy, writeMiss: WritePolicy,
                          replacement: ReplacementPolicy)
      reads this
    {
      BlockSize == blockSize && WriteHitPolicy == writeHit &&
      WriteMissPolicy == writeMiss && ReplacementPolicy == replacement
    }

    /** The field initialisers: block size 0, write-back on hit,
        write-allocate on miss, least-recently-used replacement. */
    ghost predicate IsDefault()
      reads this
    {
      Holds(0, WriteBack, WriteAllocate, LeastRecentlyUsed)
    }

    constructor ()
      ensures IsDefault()
    {
      BlockSize := 0;
      WriteHitPolicy := WriteBack;
      WriteMissPolicy := WriteAllocate;
      ReplacementPolicy := LeastRecentlyUsed;
    }

    /** The four-argument constructor: the defaults, then `SetCacheConfig`. */
    constructor WithSettings(blockSize: int, writeHit: WritePolicy, writeMiss: WritePolicy,
                             replacement: ReplacementPolicy)
      ensures Holds(blockSize, writeHit, writeMiss, replacement)
    {
      BlockSize := 0;
      WriteHitPolicy := WriteBack;
      WriteMissPolicy := WriteAllocate;
      ReplacementPolicy := LeastRecentlyUsed;
      new;
      SetCacheConfig(blockSize, writeHit, writeMiss, replacement);
    }

    /** Overwrites all four settings, whatever they were, with no check of
        the values; so a second call with the same arguments changes
        nothing. */
    method SetCacheConfig(blockSize: int, writeHit: WritePolicy, writeMiss: WritePolicy,
                          replacement: ReplacementPolicy)
      modifies this
      ensures Holds(blockSize, writeHit, writeMiss, replacement)
    {
      BlockSize := blockSize;
      WriteHitPolicy := writeHit;
      WriteMissPolicy := writeMiss;
      ReplacementPolicy := replacement;
    }
  }

  class CacheConfigurationBuilder {
    /** `_config`: created with the builder and never replaced. */
    const config: CacheConfiguration

    constructor ()
      ensures fresh(config) && config.IsDefault()
    {
      config := new CacheConfiguration();
    }

    method Size(size: int)
      modifies config
      ensures config.Holds(size, old(config.WriteHitPolicy), old(config.WriteMissPolicy),
                           old(config.ReplacementPolicy))
    {
      config.BlockSize := size;
    }

    method WriteHitPolicy(policy: WritePolicy)
      modifies config
      ensures config.Holds(old(config.BlockSize), policy, old(config.WriteMissPolicy),
                           old(config.ReplacementPolicy))
    {
      config.WriteHitPolicy := policy;
    }

    method WriteMissPolicy(policy: WritePolicy)
      modifies config
      ensures config.Holds(old(config.BlockSize), old(config.WriteHitPolicy), policy,
                           old(config.ReplacementPolicy))
    {
      config.WriteMissPolicy := policy;
    }

    method ReplacementPolicy(policy: Policies.ReplacementPolicy)
      modifies config
      ensures config.Holds(old(config.BlockSize), old(config.WriteHitPolicy),
                           old(config.WriteMissPolicy), policy)
    {
      config.ReplacementPolicy := policy;
    }

    /** Hands out the builder's own object, not a copy. */
    method Build() returns (c: CacheConfiguration)
      ensures c == config
    {
      c := config;
    }
  }

  /** What a caller of the builder can rely on: a fresh builder builds the
      defaults, the last write to a field wins, and a setter called after
      `Build` shows through the configuration `Build` returned earlier. */
  method BuilderScenario(size1: int, size2: int, hit: WritePolicy)
    returns (built: CacheConfiguration, b: CacheConfigurationBuilder)
    ensures fresh(b.config) && built == b.config
    ensures built.Holds(size2, hit, WriteAllocate, LeastRecentlyUsed)
  {
    b := new CacheConfigurationBuilder();
    built := b.Build();
    assert built.IsDefault();
    b.Size(size1);
    b.WriteHitPolicy(hit);
    b.Size(size2);
  }
}
