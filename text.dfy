/** The .NET string operations used to pull an address out of a trace
    line: `Split(char)`, `Trim(char)`, `TrimStart(char)`, `TrimEnd(char)`.
    `Join` is the inverse of `Split`. */
module Text {
  import opened Lists

  /** `s.Split(sep)`: every field, empty ones included; a string without
      `sep` is one field. */
  function Split(s: string, sep: char): (r: seq<string>)
    ensures |r| >= 1
    ensures |r| >= 2 <==> sep in s
    decreases |s|
  {
    var i := IndexOf(s, sep);
    if i < 0 then [s] else [s[..i]] + Split(s[i + 1..], sep)
  }

  /** No field holds the separator. */
  lemma {:induction false} SplitFieldsAreClean(s: string, sep: char)
    ensures forall k :: 0 <= k < |Split(s, sep)| ==> sep !in Split(s, sep)[k]
    decreases |s|
  {
    var i := IndexOf(s, sep);
    if i >= 0 {
      SplitFieldsAreClean(s[i + 1..], sep);
    }
  }

  /** `String.Join(sep, parts)`. */
  function Join(parts: seq<string>, sep: char): string
  {
    if |parts| <= 1 then (if parts == [] then "" else parts[0])
    else parts[0] + [sep] + Join(parts[1..], sep)
  }

  /** A string is what lies before, at and after a position. */
  lemma CutAt(s: string, i: int)
    requires 0 <= i < |s|
    ensures s == s[..i] + [s[i]] + s[i + 1..]
  {
  }

  /** Joining a first part onto at least one more. */
  lemma JoinCons(p: string, rest: seq<string>, sep: char)
    requires |rest| >= 1
    ensures Join([p] + rest, sep) == p + [sep] + Join(rest, sep)
  {
    assert ([p] + rest)[0] == p && ([p] + rest)[1..] == rest;
  }

  /** Splitting loses nothing: joining the fields gives the line back. */
  lemma {:induction false} JoinSplit(s: string, sep: char)
    ensures Join(Split(s, sep), sep) == s
    decreases |s|
  {
    var i := IndexOf(s, sep);
    if i >= 0 {
      var rest := Split(s[i + 1..], sep);
      assert Split(s, sep) == [s[..i]] + rest;
      JoinCons(s[..i], rest, sep);
      JoinSplit(s[i + 1..], sep);
      CutAt(s, i);
    } else {
      assert Split(s, sep) == [s];
    }
  }

  /** The second field of `a + [sep] + b + [sep] + c` when neither `a` nor
      `b` holds the separator. */
  lemma SplitSecondField(a: string, b: string, c: string, sep: char)
    requires sep !in a && sep !in b
    ensures |Split(a + [sep] + b + [sep] + c, sep)| >= 2
    ensures Split(a + [sep] + b + [sep] + c, sep)[1] == b
  {
    var s := a + [sep] + b + [sep] + c;
    assert s[|a|] == sep;
    assert s[..|a|] == a;
    var t := s[|a| + 1..];
    assert t == b + [sep] + c;
    assert t[|b|] == sep;
    assert t[..|b|] == b;
    assert IndexOf(s, sep) == |a|;
    assert IndexOf(t, sep) == |b|;
  }

  /** How many `c`s open `s`. */
  function LeadingRun(s: string, c: char): (n: nat)
    ensures n <= |s|
    ensures n < |s| ==> s[n] != c
  {
    if s != [] && s[0] == c then 1 + LeadingRun(s[1..], c) else 0
  }

  /** How many `c`s close `s`. */
  function TrailingRun(s: string, c: char): (n: nat)
    ensures n <= |s|
    ensures n < |s| ==> s[|s| - 1 - n] != c
  {
    if s != [] && s[|s| - 1] == c then 1 + TrailingRun(s[..|s| - 1], c) else 0
  }

  /** `s.TrimStart(c)`. */
  function TrimStart(s: string, c: char): (r: string)
    ensures |r| <= |s|
    ensures r == [] || r[0] != c
  {
    s[LeadingRun(s, c)..]
  }

  /** Only `c`s are dropped from the front. */
  lemma {:induction false} LeadingRunMeaning(s: string, c: char)
    ensures forall i :: 0 <= i < LeadingRun(s, c) ==> s[i] == c
  {
    if s != [] && s[0] == c {
      LeadingRunMeaning(s[1..], c);
    }
  }

  /** `s.TrimEnd(c)`. */
  function TrimEnd(s: string, c: char): (r: string)
    ensures |r| <= |s|
    ensures r == [] || r[|r| - 1] != c
  {
    s[..|s| - TrailingRun(s, c)]
  }

  /** Only `c`s are dropped from the back. */
  lemma {:induction false} TrailingRunMeaning(s: string, c: char)
    ensures forall i :: |s| - TrailingRun(s, c) <= i < |s| ==> s[i] == c
  {
    if s != [] && s[|s| - 1] == c {
      TrailingRunMeaning(s[..|s| - 1], c);
    }
  }

  /** `s.Trim(c)`: both ends. */
  function Trim(s: string, c: char): (r: string)
    ensures |r| <= |s|
    ensures r == [] || (r[0] != c && r[|r| - 1] != c)
  {
    TrimEnd(TrimStart(s, c), c)
  }

  /** A string that neither starts nor ends with `c` is left as it is. */
  lemma TrimUntouched(s: string, c: char)
    requires s == [] || (s[0] != c && s[|s| - 1] != c)
    ensures TrimStart(s, c) == s && TrimEnd(s, c) == s && Trim(s, c) == s
  {
  }

  /** `TrimStart` drops exactly a run of `c` in front of the rest. */
  lemma {:induction false} TrimStartRun(run: string, s: string, c: char)
    requires forall i :: 0 <= i < |run| ==> run[i] == c
    requires s == [] || s[0] != c
    ensures LeadingRun(run + s, c) == |run|
    ensures TrimStart(run + s, c) == s
    decreases |run|
  {
    if run != [] {
      assert (run + s)[1..] == run[1..] + s;
      TrimStartRun(run[1..], s, c);
    }
  }

  /** `TrimEnd` drops exactly a run of `c` behind the rest. */
  lemma {:induction false} TrimEndRun(s: string, run: string, c: char)
    requires forall i :: 0 <= i < |run| ==> run[i] == c
    requires s == [] || s[|s| - 1] != c
    ensures TrailingRun(s + run, c) == |run|
    ensures TrimEnd(s + run, c) == s
    decreases |run|
  {
    if run != [] {
      assert (s + run)[..|s + run| - 1] == s + run[..|run| - 1];
      TrimEndRun(s, run[..|run| - 1], c);
    }
  }
}
