/** `CacheFIFO`: the victim is taken from the front of a queue of slot
    numbers and put back at its end. `Dequeue` on an empty queue throws
    `InvalidOperationException`, modelled as `Failure(EmptyQueue)`. */
module Fifo {
  import opened Wrappers

  datatype FifoError = EmptyQueue

  /** One turn of the queue: `Dequeue` then `Enqueue` of the same slot. */
  function Rotate(q: seq<int>): (r: seq<int>)
    ensures |r| == |q|
  {
    if q == [] then [] else q[1..] + [q[0]]
  }

  /** The front moves to the back and the rest moves up by one. */
  lemma RotateMovesFront(q: seq<int>)
    requires q != []
    ensures Rotate(q)[|q| - 1] == q[0] && Rotate(q)[..|q| - 1] == q[1..]
  {
    assert (q[1..] + [q[0]])[..|q| - 1] == q[1..];
  }

  lemma RotateKeepsSlots(q: seq<int>)
    ensures multiset(Rotate(q)) == multiset(q)
  {
    if q != [] {
      assert q == [q[0]] + q[1..];
    }
  }

  /** `n` turns of the queue. */
  function RotateN(q: seq<int>, n: nat): seq<int>
    decreases n
  {
    if n == 0 then q else Rotate(RotateN(q, n - 1))
  }

  /** Turning a queue made of two parts moves the first part's front. */
  lemma RotateConcat(a: seq<int>, b: seq<int>)
    requires a != []
    ensures Rotate(a + b) == a[1..] + (b + [a[0]])
  {
    assert (a + b)[0] == a[0];
    assert (a + b)[1..] == a[1..] + b;
  }

  lemma TakeOneMore(q: seq<int>, k: nat)
    requires 0 < k <= |q|
    ensures q[..k - 1] + [q[k - 1]] == q[..k]
  {
  }

  /** After `k` turns the queue starts at its old `k`-th element. */
  lemma {:induction false} RotateNSplits(q: seq<int>, k: nat)
    requires k <= |q|
    ensures RotateN(q, k) == q[k..] + q[..k]
    decreases k
  {
    if k > 0 {
      calc {
        RotateN(q, k);
        Rotate(RotateN(q, k - 1));
        { RotateNSplits(q, k - 1); }
        Rotate(q[k - 1..] + q[..k - 1]);
        { RotateConcat(q[k - 1..], q[..k - 1]); }
        q[k - 1..][1..] + (q[..k - 1] + [q[k - 1..][0]]);
        { assert q[k - 1..][1..] == q[k..] && q[k - 1..][0] == q[k - 1]; }
        q[k..] + (q[..k - 1] + [q[k - 1]]);
        { TakeOneMore(q, k); }
        q[k..] + q[..k];
      }
    }
  }

  /** As many turns as the queue is long give the queue back. */
  lemma FullCycleRestoresQueue(q: seq<int>)
    ensures RotateN(q, |q|) == q
  {
    RotateNSplits(q, |q|);
  }

  class CacheFifo {
    var indexQueue: seq<int>

    /** The queue starts empty. */
    constructor ()
      ensures indexQueue == []
    {
      indexQueue := [];
    }

    /** `GetReplacementIndex(index, traceIndex)`: neither argument is used,
        so the slot returned need not lie in the requested set. */
    method GetReplacementIndex(index: int, traceIndex: int) returns (r: Result<int, FifoError>)
      modifies this
      ensures old(indexQueue) == [] ==> r == Failure(EmptyQueue) && indexQueue == []
      ensures old(indexQueue) != [] ==>
        r == Success(old(indexQueue)[0]) && indexQueue == Rotate(old(indexQueue))
    {
      if indexQueue == [] {
        return Failure(EmptyQueue);
      }
      var replacementIndex := indexQueue[0];
      indexQueue := indexQueue[1..];
      indexQueue := indexQueue + [replacementIndex];
      r := Success(replacementIndex);
    }

    /** Enqueues a slot when a line is first filled. No such call exists in
        the source: the queue is private to `CacheFIFO`, nothing enqueues a
        slot before the first `Dequeue`, and the only `Enqueue` re-adds the
        slot just taken. */
    method Register(slot: int)
      modifies this
      ensures indexQueue == old(indexQueue) + [slot]
    {
      indexQueue := indexQueue + [slot];
    }

    /** As many victim choices as there are queued slots return the slots
        in queue order and leave the queue as it was. */
    method Cycle() returns (victims: seq<int>)
      modifies this
      ensures victims == old(indexQueue) && indexQueue == old(indexQueue)
    {
      ghost var q := indexQueue;
      var n := |indexQueue|;
      victims := [];
      var k := 0;
      while k < n
        invariant 0 <= k <= n == |q|
        invariant indexQueue == RotateN(q, k)
        invariant victims == q[..k]
      {
        RotateNSplits(q, k);
        var v := GetReplacementIndex(0, 0);
        assert q[k..][0] == q[k];
        assert q[..k + 1] == q[..k] + [q[k]];
        victims := victims + [v.value];
        k := k + 1;
      }
      FullCycleRestoresQueue(q);
    }
  }

  /** The source as written: a new `CacheFIFO` has an empty queue and no
      way to fill it, so its first victim request throws. */
  method NewCacheFifoFails(index: int, traceIndex: int) returns (r: Result<int, FifoError>)
    ensures r == Failure(EmptyQueue)
  {
    var cache := new CacheFifo();
    r := cache.GetReplacementIndex(index, traceIndex);
  }

  /** With slots registered as lines are filled, eviction order is fill
      order. */
  method EvictionOrderIsFillOrder(slots: seq<int>) returns (victims: seq<int>)
    ensures victims == slots
  {
    var cache := new CacheFifo();
    var k := 0;
    while k < |slots|
      invariant 0 <= k <= |slots|
      invariant cache.indexQueue == slots[..k]
    {
      cache.Register(slots[k]);
      k := k + 1;
    }
    victims := cache.Cycle();
  }
}
