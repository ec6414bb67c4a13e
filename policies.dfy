/** The two enums declared beside `Cache`: `WritePolicy` and
    `ReplacementPolicy`, with the integer codes the source gives them. */
module Policies {
  import opened Wrappers

  /** WriteThrough = 0, WriteBack = 1, WriteAllocate = 2, WriteAround = 3.
      One enum serves both the write-hit and the write-miss policy. */
  datatype WritePolicy = WriteThrough | WriteBack | WriteAllocate | WriteAround
  {
    function Code(): (n: int)
      ensures 0 <= n <= 3
    {
      match this
      case WriteThrough => 0
      case WriteBack => 1
      case WriteAllocate => 2
      case WriteAround => 3
    }
  }

  function WritePolicyFromCode(n: int): (p: Option<WritePolicy>)
    ensures p.Some? <==> 0 <= n <= 3
    ensures p.Some? ==> p.value.Code() == n
  {
    if n == 0 then Some(WriteThrough)
    else if n == 1 then Some(WriteBack)
    else if n == 2 then Some(WriteAllocate)
    else if n == 3 then Some(WriteAround)
    else None
  }

  lemma WritePolicyCodeRoundTrip(p: WritePolicy)
    ensures WritePolicyFromCode(p.Code()) == Some(p)
  {
  }

  /** LeastRecentlyUsed = 0, Belady = 1, FirstInFirstOut = 2. */
  datatype ReplacementPolicy = LeastRecentlyUsed | Belady | FirstInFirstOut
  {
    function Code(): (n: int)
      ensures 0 <= n <= 2
    {
      match this
      case LeastRecentlyUsed => 0
      case Belady => 1
      case FirstInFirstOut => 2
    }
  }

  function ReplacementPolicyFromCode(n: int): (p: Option<ReplacementPolicy>)
    ensures p.Some? <==> 0 <= n <= 2
    ensures p.Some? ==> p.value.Code() == n
  {
    if n == 0 then Some(LeastRecentlyUsed)
    else if n == 1 then Some(Belady)
    else if n == 2 then Some(FirstInFirstOut)
    else None
  }

  lemma ReplacementPolicyCodeRoundTrip(p: ReplacementPolicy)
    ensures ReplacementPolicyFromCode(p.Code()) == Some(p)
  {
  }
}
