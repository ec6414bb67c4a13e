/** `StatisticsData`: five counters that the cache updates, and the
    derived access total and hit and miss rates. The rates are `double`s
    in the source; here they are exact reals. */
module Statistics {

  class StatisticsData {
    var CacheHits: int
    var CacheMisses: int
    var MemoryReads: int
    var MemoryWrites: int
    var CacheEviction: int

    constructor ()
      ensures CacheHits == 0 && CacheMisses == 0 && MemoryReads == 0
      ensures MemoryWrites == 0 && CacheEviction == 0
    {
      CacheHits, CacheMisses, MemoryReads, MemoryWrites, CacheEviction := 0, 0, 0, 0, 0;
    }

    /** Every access is either a hit or a miss. */
    function TotalAccesses(): (total: int)
      reads this
      ensures total - CacheMisses == CacheHits
      ensures CacheHits >= 0 && CacheMisses >= 0 ==> total >= CacheHits && total >= CacheMisses
    {
      CacheHits + CacheMisses
    }

    /** Hits per access, and 0 before the first access. */
    function HitRate(): (rate: real)
      reads this
      ensures TotalAccesses() == 0 ==> rate == 0.0
      ensures TotalAccesses() != 0 ==> rate * TotalAccesses() as real == CacheHits as real
      ensures CacheHits >= 0 && CacheMisses >= 0 ==> 0.0 <= rate <= 1.0
    {
      var total := TotalAccesses();
      if total == 0 then 0.0 else CacheHits as real / total as real
    }

    /** Misses per access, and 0 before the first access. */
    function MissRate(): (rate: real)
      reads this
      ensures TotalAccesses() == 0 ==> rate == 0.0
      ensures TotalAccesses() != 0 ==> rate * TotalAccesses() as real == CacheMisses as real
      ensures CacheHits >= 0 && CacheMisses >= 0 ==> 0.0 <= rate <= 1.0
    {
      var total := TotalAccesses();
      if total == 0 then 0.0 else CacheMisses as real / total as real
    }
  }

  /** Once there has been an access, the two rates add up to one. */
  lemma RatesAreComplementary(s: StatisticsData)
    requires s.CacheHits >= 0 && s.CacheMisses >= 0 && s.TotalAccesses() > 0
    ensures s.HitRate() + s.MissRate() == 1.0
  {
    var h, m := s.CacheHits as real, s.CacheMisses as real;
    assert s.HitRate() == h / (h + m);
    assert s.MissRate() == m / (h + m);
    assert h / (h + m) + m / (h + m) == (h + m) / (h + m);
  }

  /** The rates depend on hits and misses alone: memory reads, memory
      writes and evictions do not enter them. */
  lemma RatesIgnoreOtherCounters(s: StatisticsData, u: StatisticsData)
    requires s.CacheHits == u.CacheHits && s.CacheMisses == u.CacheMisses
    ensures s.HitRate() == u.HitRate() && s.MissRate() == u.MissRate()
  {
  }
}
