/** The `List<T>` operations the replacement policies rely on:
    `IndexOf`, `Contains` (as `in`) and the order-preserving de-duplication
    that `LoadFutureCacheEntries` performs with `Contains`/`Add`. */
module Lists {
  import opened Wrappers

  /** Position of the first occurrence of `x` in `s`, or -1 when there is
      none, as `List<T>.IndexOf` and `String.IndexOf` answer. */
  function IndexOf<T(==)>(s: seq<T>, x: T): (r: int)
    ensures -1 <= r < |s|
    ensures r == -1 <==> x !in s
    ensures r >= 0 ==> s[r] == x && x !in s[..r]
  {
    if s == [] then -1
    else if s[0] == x then 0
    else
      var k := IndexOf(s[1..], x);
      assert s[1..][..if k < 0 then 0 else k] == s[1..1 + if k < 0 then 0 else k];
      if k == -1 then -1 else k + 1
  }

  /** Looking `x` up in `s + [y]`. */
  lemma {:induction false} IndexOfAppend<T>(s: seq<T>, y: T, x: T)
    ensures IndexOf(s + [y], x) == if x in s then IndexOf(s, x) else if x == y then |s| else -1
  {
    if s != [] {
      assert (s + [y])[1..] == s[1..] + [y];
      IndexOfAppend(s[1..], y, x);
    }
  }

  /** No element occurs twice. */
  ghost predicate NoDuplicates<T>(s: seq<T>)
  {
    forall i, j :: 0 <= i < j < |s| ==> s[i] != s[j]
  }

  /** Keeps the first occurrence of every element, in order: the list that
      a loop of `if (!output.Contains(x)) output.Add(x)` builds. */
  function Dedup<T(==)>(xs: seq<T>): (r: seq<T>)
    ensures |r| <= |xs|
  {
    if xs == [] then []
    else
      var d := Dedup(xs[..|xs| - 1]);
      var last := xs[|xs| - 1];
      if last in d then d else d + [last]
  }

  /** The output has no duplicates and holds exactly the input's elements. */
  lemma {:induction false} DedupMeaning<T>(xs: seq<T>)
    ensures NoDuplicates(Dedup(xs))
    ensures forall i :: 0 <= i < |Dedup(xs)| ==> Dedup(xs)[i] in xs
    ensures forall i :: 0 <= i < |xs| ==> xs[i] in Dedup(xs)
  {
    if xs != [] {
      var init := xs[..|xs| - 1];
      DedupMeaning(init);
      assert xs == init + [xs[|xs| - 1]];
    }
  }

  /** One step of the loop: adding `x` to the de-duplicated prefix. */
  lemma DedupSnoc<T>(xs: seq<T>, x: T)
    ensures Dedup(xs + [x]) == if x in Dedup(xs) then Dedup(xs) else Dedup(xs) + [x]
  {
    assert (xs + [x])[..|xs + [x]| - 1] == xs;
  }

  /** The output keeps the order of first occurrence: of two elements of
      `xs`, the one that occurs first in `xs` comes first in `Dedup(xs)`. */
  lemma {:induction false} DedupKeepsFirstOccurrenceOrder<T>(xs: seq<T>, a: T, b: T)
    requires a in xs && b in xs
    ensures IndexOf(Dedup(xs), a) < IndexOf(Dedup(xs), b) <==> IndexOf(xs, a) < IndexOf(xs, b)
  {
    var init := xs[..|xs| - 1];
    var z := xs[|xs| - 1];
    assert xs == init + [z];
    DedupSnoc(init, z);
    var d := Dedup(init);
    DedupMeaning(init);
    IndexOfAppend(init, z, a);
    IndexOfAppend(init, z, b);
    if z !in d {
      IndexOfAppend(d, z, a);
      IndexOfAppend(d, z, b);
    }
    if a in init && b in init {
      DedupKeepsFirstOccurrenceOrder(init, a, b);
    }
  }

  /** `f` applied to every element, or `None` as soon as `f` fails on one:
      a loop over `xs` in which any step may throw. */
  function MapAll<A, B>(xs: seq<A>, f: A -> Option<B>): Option<seq<B>>
  {
    if xs == [] then Some([])
    else
      var prefix := MapAll(xs[..|xs| - 1], f);
      var last := f(xs[|xs| - 1]);
      if prefix.None? || last.None? then None else Some(prefix.value + [last.value])
  }

  /** One more step of such a loop. */
  lemma MapAllSnoc<A, B>(xs: seq<A>, x: A, f: A -> Option<B>)
    ensures MapAll(xs + [x], f) ==
      if MapAll(xs, f).None? || f(x).None? then None else Some(MapAll(xs, f).value + [f(x).value])
  {
    assert (xs + [x])[..|xs + [x]| - 1] == xs;
  }

  /** It fails exactly when `f` fails on some element; otherwise the
      `i`-th result is `f` of the `i`-th element. */
  lemma {:induction false} MapAllMeaning<A, B>(xs: seq<A>, f: A -> Option<B>)
    ensures MapAll(xs, f).None? <==> exists i :: 0 <= i < |xs| && f(xs[i]).None?
    ensures MapAll(xs, f).Some? ==> (|MapAll(xs, f).value| == |xs| &&
      forall i :: 0 <= i < |xs| ==> f(xs[i]) == Some(MapAll(xs, f).value[i]))
  {
    if xs != [] {
      var init := xs[..|xs| - 1];
      MapAllMeaning(init, f);
      assert forall i :: 0 <= i < |init| ==> init[i] == xs[i];
      if MapAll(init, f).None? {
        var w :| 0 <= w < |init| && f(init[w]).None?;
        assert f(xs[w]).None?;
      }
    }
  }
}
