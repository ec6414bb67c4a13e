/** `CacheBelady`: Bélády's offline policy. The trace file is given as its
    sequence of lines, and `ConvertBinaryToHex`, which is not part of this
    model, as the function parameter `toHex`. */
module Belady {
  import opened Wrappers
  import opened Lists
  import opened Text
  import opened Entries
  import opened Lru

  /** A considered trace line whose address field cannot be cut out:
      `Split('\t')[1]` or `Substring(2)` throws. */
  datatype TraceError = MalformedTraceLine

  /** Why a victim request throws: a considered trace line cannot be cut,
      or the scan reaches a slot outside the entry list. */
  datatype BeladyError = Trace(TraceError) | Slot(SlotError)

  /** The second tab-separated field of a trace line, spaces trimmed;
      `None` where `Split('\t')[1]` throws. */
  function AddressField(line: string): (r: Option<string>)
    ensures r.None? <==> '\t' !in line
  {
    var fields := Split(line, '\t');
    if |fields| < 2 then None else Some(Trim(fields[1], ' '))
  }

  /** The field with its first two characters (the `0x`) dropped, then
      leading `'0'`s, trailing `','`s and spaces trimmed; `None` where
      `Substring(2)` throws. Lengths count characters, not UTF-16 code
      units. */
  function CleanAddress(field: string): (r: Option<string>)
    ensures r.None? <==> |field| < 2
    ensures r.Some? ==> r.value == [] || (r.value[0] != ' ' && r.value[|r.value| - 1] != ' ')
  {
    if |field| < 2 then None else Some(Trim(TrimEnd(TrimStart(field[2..], '0'), ','), ' '))
  }

  /** The address of one trace line, as `LoadFutureCacheEntries` cuts it.
      `None` where the .NET calls would throw. */
  function ExtractAddress(line: string): (r: Option<string>)
    ensures '\t' !in line ==> r.None?
    ensures r.Some? ==> r.value == [] || (r.value[0] != ' ' && r.value[|r.value| - 1] != ' ')
  {
    var field := AddressField(line);
    if field.None? then None else CleanAddress(field.value)
  }

  /** Lower-case hexadecimal digits, as `ToString("x")` writes them. */
  ghost predicate IsHexDigits(h: string)
  {
    forall i :: 0 <= i < |h| ==> ('0' <= h[i] <= '9' || 'a' <= h[i] <= 'f')
  }

  /** A load line as the trace generator writes it. */
  function LoadLine(address: string): string
  {
    "L\t0x" + address
  }

  /** A store line as the trace generator writes it. */
  function StoreLine(address: string, size: string, data: string): string
  {
    "S\t0x" + address + ",\t" + size + ",\t0x" + data
  }

  lemma TrimStartAppend(s: string, d: char, c: char)
    requires d != c
    ensures TrimStart(s + [d], c) == TrimStart(s, c) + [d]
    decreases |s|
  {
    if s != [] && s[0] == c {
      assert (s + [d])[1..] == s[1..] + [d];
      TrimStartAppend(s[1..], d, c);
    }
  }

  lemma {:induction false} TrimStartOfHex(h: string, c: char)
    requires IsHexDigits(h)
    ensures IsHexDigits(TrimStart(h, c))
  {
    assert TrimStart(h, c) == h[LeadingRun(h, c)..];
  }

  /** The address field of a generated load line is `0x` and the address. */
  lemma {:induction false} FieldOfLoadLine(address: string)
    requires IsHexDigits(address)
    ensures AddressField(LoadLine(address)) == Some("0x" + address)
  {
    var field := "0x" + address;
    assert LoadLine(address) == "L" + ['\t'] + field;
    assert '\t' !in field by {
      assert forall i :: 0 <= i < |field| ==> field[i] != '\t' by {
        forall i | 0 <= i < |field| ensures field[i] != '\t' {
          if i >= 2 { assert field[i] == address[i - 2]; }
        }
      }
    }
    SplitTwoFields("L", field, '\t');
    TrimUntouched(field, ' ');
  }

  /** The address field of a generated store line is `0x`, the address
      and the comma that ends the field. */
  lemma {:induction false} FieldOfStoreLine(address: string, size: string, data: string)
    requires IsHexDigits(address) && '\t' !in size
    ensures AddressField(StoreLine(address, size, data)) == Some("0x" + address + ",")
  {
    var field := "0x" + address + ",";
    assert StoreLine(address, size, data) == "S" + ['\t'] + field + ['\t'] + (size + ",\t0x" + data);
    assert '\t' !in field by {
      assert forall i :: 0 <= i < |field| ==> field[i] != '\t' by {
        forall i | 0 <= i < |field| ensures field[i] != '\t' {
          if 2 <= i < |field| - 1 { assert field[i] == address[i - 2]; }
        }
      }
    }
    SplitSecondField("S", field, size + ",\t0x" + data, '\t');
    TrimUntouched(field, ' ');
  }

  /** Cleaning `0x`, hexadecimal digits and at most one comma leaves the
      digits without their leading zeros. */
  lemma {:induction false} CleanHexAddress(address: string, comma: string)
    requires IsHexDigits(address) && (comma == "" || comma == ",")
    ensures CleanAddress("0x" + address + comma) == Some(TrimStart(address, '0'))
  {
    var field := "0x" + address + comma;
    assert field[2..] == address + comma;
    var t := TrimStart(address, '0');
    TrimStartOfHex(address, '0');
    assert t == [] || (t[0] != ' ' && t[|t| - 1] != ' ' && t[|t| - 1] != ',');
    assert TrimStart(address + comma, '0') == t + comma by {
      if comma == "," {
        TrimStartAppend(address, ',', '0');
      } else {
        assert address + comma == address && t + comma == t;
      }
    }
    assert TrimEnd(t + comma, ',') == t by {
      TrimEndRun(t, comma, ',');
    }
    assert Trim(t, ' ') == t by {
      TrimUntouched(t, ' ');
    }
  }

  /** The address of a generated load line is its hexadecimal address
      without leading zeros. */
  lemma {:induction false} ExtractFromLoadLine(address: string)
    requires IsHexDigits(address)
    ensures ExtractAddress(LoadLine(address)) == Some(TrimStart(address, '0'))
  {
    FieldOfLoadLine(address);
    CleanHexAddress(address, "");
    assert "0x" + address + "" == "0x" + address;
  }

  /** The address of a generated store line is its hexadecimal address
      without leading zeros; the size and data fields do not matter. */
  lemma {:induction false} ExtractFromStoreLine(address: string, size: string, data: string)
    requires IsHexDigits(address) && '\t' !in size
    ensures ExtractAddress(StoreLine(address, size, data)) == Some(TrimStart(address, '0'))
  {
    FieldOfStoreLine(address, size, data);
    CleanHexAddress(address, ",");
  }

  /** `Split` of `a + [sep] + b` when neither part holds the separator. */
  lemma SplitTwoFields(a: string, b: string, sep: char)
    requires sep !in a && sep !in b
    ensures Split(a + [sep] + b, sep) == [a, b]
  {
    var s := a + [sep] + b;
    assert s[|a|] == sep && s[..|a|] == a;
    assert IndexOf(s, sep) == |a|;
    assert s[|a| + 1..] == b;
  }

  /** The index of the first considered line: lines are numbered from 1
      and line `n` is read when `n >= traceIndex + 1`. */
  function FirstConsidered(traceIndex: int, length: nat): (k: nat)
    ensures k <= length
  {
    if traceIndex <= 0 then 0 else if traceIndex >= length then length else traceIndex
  }

  /** The addresses of the considered trace lines, in trace order. */
  function FutureAddresses(trace: seq<string>, traceIndex: int): Option<seq<string>>
  {
    MapAll(trace[FirstConsidered(traceIndex, |trace|)..], ExtractAddress)
  }

  /** The first `n` lines (numbered from 1) of the trace have been read:
      `done` holds the addresses of those among them that are considered. */
  ghost predicate Consumed(trace: seq<string>, first: nat, n: nat, extract: string -> Option<string>,
                           done: seq<string>)
    requires first <= |trace| && n <= |trace|
  {
    MapAll(trace[first..if n < first then first else n], extract) == Some(done)
  }

  /** Skipping a line before the first considered one reads nothing. */
  lemma SkipLine(trace: seq<string>, first: nat, n: nat, extract: string -> Option<string>)
    requires n <= first <= |trace|
    ensures Consumed(trace, first, n, extract, [])
  {
    assert trace[first..first] == [];
  }

  /** Reading one more considered line. */
  lemma ReadOneMore(trace: seq<string>, first: nat, k: nat, extract: string -> Option<string>,
                    done: seq<string>, address: string)
    requires first <= k < |trace|
    requires Consumed(trace, first, k, extract, done)
    requires extract(trace[k]) == Some(address)
    ensures Consumed(trace, first, k + 1, extract, done + [address])
  {
    assert trace[first..k + 1] == trace[first..k] + [trace[k]];
    MapAllSnoc(trace[first..k], trace[k], extract);
  }

  /** Once every line is read, `done` holds the whole future list. */
  lemma AllRead(trace: seq<string>, first: nat, extract: string -> Option<string>, done: seq<string>)
    requires first <= |trace| && Consumed(trace, first, |trace|, extract, done)
    ensures MapAll(trace[first..], extract) == Some(done)
  {
    assert trace[first..|trace|] == trace[first..];
  }

  /** A line that cannot be read makes the whole future list unreadable. */
  lemma BadLineSpoilsFuture(trace: seq<string>, first: int, k: int, extract: string -> Option<string>)
    requires 0 <= first <= k < |trace| && extract(trace[k]).None?
    ensures MapAll(trace[first..], extract).None?
  {
    assert trace[first..][k - first] == trace[k];
    MapAllMeaning(trace[first..], extract);
  }

  /** The reading loop of `LoadFutureCacheEntries`, for any way `extract`
      of cutting the address out of a line: every address from line
      `traceIndex + 1` on, each once, in order of first occurrence; a
      failure as soon as a considered line cannot be cut. */
  method ReadFutureAddresses(trace: seq<string>, traceIndex: int, extract: string -> Option<string>)
    returns (r: Result<seq<string>, TraceError>)
    ensures MapAll(trace[FirstConsidered(traceIndex, |trace|)..], extract).None? ==>
      r == Failure(MalformedTraceLine)
    ensures MapAll(trace[FirstConsidered(traceIndex, |trace|)..], extract).Some? ==>
      r == Success(Dedup(MapAll(trace[FirstConsidered(traceIndex, |trace|)..], extract).value))
  {
    var first := FirstConsidered(traceIndex, |trace|);
    var output: seq<string> := [];
    ghost var done: seq<string> := [];
    var currentLine := 0;
    SkipLine(trace, first, 0, extract);
    while currentLine < |trace|
      invariant 0 <= currentLine <= |trace|
      invariant Consumed(trace, first, currentLine, extract, done)
      invariant output == Dedup(done)
    {
      var line := trace[currentLine];
      currentLine := currentLine + 1;
      if currentLine < traceIndex + 1 {
        SkipLine(trace, first, currentLine, extract);
        continue;
      }
      var address := extract(line);
      if address.None? {
        BadLineSpoilsFuture(trace, first, currentLine - 1, extract);
        return Failure(MalformedTraceLine);
      }
      ghost var next := done + [address.value];
      assert Consumed(trace, first, currentLine, extract, next) by {
        ReadOneMore(trace, first, currentLine - 1, extract, done, address.value);
      }
      assert Dedup(next) == if address.value in output then output else output + [address.value] by {
        DedupSnoc(done, address.value);
      }
      if address.value !in output {
        output := output + [address.value];
      }
      done := next;
    }
    AllRead(trace, first, extract, done);
    r := Success(output);
  }

  /** `LoadFutureCacheEntries(traceIndex)` over the lines of the trace file. */
  method LoadFutureCacheEntries(trace: seq<string>, traceIndex: int)
    returns (r: Result<seq<string>, TraceError>)
    ensures FutureAddresses(trace, traceIndex).None? ==> r == Failure(MalformedTraceLine)
    ensures FutureAddresses(trace, traceIndex).Some? ==>
      r == Success(Dedup(FutureAddresses(trace, traceIndex).value))
  {
    r := ReadFutureAddresses(trace, traceIndex, ExtractAddress);
  }

  /** Where the line's address next occurs in the future list (-1: never). */
  function Pos(list: seq<string>, e: CacheEntry, toHex: string -> string): int
    requires e.Tag.Some?
  {
    IndexOf(list, toHex(e.Tag.value))
  }

  /** The line holds an address that does not occur again. */
  predicate NotReused(list: seq<string>, e: CacheEntry, toHex: string -> string)
  {
    e.Tag.Some? && toHex(e.Tag.value) !in list
  }

  /** The victim `BeladyGetIndex` picks from the set at `start`: the first
      line, in slot order, whose address is not reused; else the line whose
      address is reused last, the later slot on a tie; 0 when every tag in
      the set is null. */
  ghost predicate IsBeladyVictim(s: seq<CacheEntry>, start: int, associativity: int,
                                 list: seq<string>, toHex: string -> string, r: int)
    requires SetInRange(|s|, start, associativity)
  {
    if exists j :: start <= j < start + associativity && NotReused(list, s[j], toHex) then
      start <= r < start + associativity && NotReused(list, s[r], toHex) &&
      forall j :: start <= j < r ==> !NotReused(list, s[j], toHex)
    else if exists j :: start <= j < start + associativity && s[j].Tag.Some? then
      start <= r < start + associativity && s[r].Tag.Some? &&
      (forall j :: start <= j < start + associativity && s[j].Tag.Some? ==>
         Pos(list, s[j], toHex) <= Pos(list, s[r], toHex)) &&
      (forall j :: r < j < start + associativity && s[j].Tag.Some? ==>
         Pos(list, s[j], toHex) < Pos(list, s[r], toHex))
    else
      r == 0
  }

  /** The scan of `BeladyGetIndex` after the lines before `i`: none of them
      is free of reuse; `seen` tells whether one of them has a tag, and then
      `index` is the farthest-reused of them (the later on a tie) and
      `farthest` its position, else both are 0. */
  ghost predicate Scanned(s: seq<CacheEntry>, start: int, list: seq<string>, toHex: string -> string,
                          i: int, seen: bool, index: int, farthest: int)
    requires 0 <= start <= i <= |s|
  {
    (forall j :: start <= j < i ==> !NotReused(list, s[j], toHex)) &&
    farthest >= 0 &&
    (!seen ==> index == 0 && farthest == 0 && forall j :: start <= j < i ==> s[j].Tag.None?) &&
    (seen ==>
       start <= index < i && s[index].Tag.Some? && Pos(list, s[index], toHex) == farthest &&
       (forall j :: start <= j < i && s[j].Tag.Some? ==> Pos(list, s[j], toHex) <= farthest) &&
       (forall j :: index < j < i && s[j].Tag.Some? ==> Pos(list, s[j], toHex) < farthest))
  }

  /** Passing a line with a null tag. */
  lemma ScanNull(s: seq<CacheEntry>, start: int, list: seq<string>, toHex: string -> string,
                 i: int, seen: bool, index: int, farthest: int)
    requires 0 <= start <= i < |s| && s[i].Tag.None?
    requires Scanned(s, start, list, toHex, i, seen, index, farthest)
    ensures Scanned(s, start, list, toHex, i + 1, seen, index, farthest)
  {
  }

  /** Passing a tagged line reused at least as far as the candidate: it
      becomes the candidate. */
  lemma ScanFarther(s: seq<CacheEntry>, start: int, list: seq<string>, toHex: string -> string,
                    i: int, seen: bool, index: int, farthest: int)
    requires 0 <= start <= i < |s| && s[i].Tag.Some?
    requires Scanned(s, start, list, toHex, i, seen, index, farthest)
    requires Pos(list, s[i], toHex) >= farthest
    ensures Scanned(s, start, list, toHex, i + 1, true, i, Pos(list, s[i], toHex))
  {
  }

  /** Passing a tagged line reused nearer than the candidate. */
  lemma ScanNearer(s: seq<CacheEntry>, start: int, list: seq<string>, toHex: string -> string,
                   i: int, seen: bool, index: int, farthest: int)
    requires 0 <= start <= i < |s| && s[i].Tag.Some?
    requires Scanned(s, start, list, toHex, i, seen, index, farthest)
    requires 0 <= Pos(list, s[i], toHex) < farthest
    ensures Scanned(s, start, list, toHex, i + 1, seen, index, farthest)
  {
  }

  /** The early return: the first line whose address is not reused. */
  lemma FirstNotReusedIsVictim(s: seq<CacheEntry>, start: int, associativity: int,
                               list: seq<string>, toHex: string -> string, i: int)
    requires SetInRange(|s|, start, associativity) && start <= i < start + associativity
    requires forall j :: start <= j < i ==> !NotReused(list, s[j], toHex)
    requires NotReused(list, s[i], toHex)
    ensures IsBeladyVictim(s, start, associativity, list, toHex, i)
  {
  }

  /** The end of the scan: the candidate is the victim. */
  lemma ScanEndVictim(s: seq<CacheEntry>, start: int, associativity: int,
                      list: seq<string>, toHex: string -> string, seen: bool, index: int, farthest: int)
    requires associativity >= 1 && SetInRange(|s|, start, associativity)
    requires Scanned(s, start, list, toHex, start + associativity, seen, index, farthest)
    ensures IsBeladyVictim(s, start, associativity, list, toHex, index)
  {
  }

  /** The part of the set at `start` that lies before the end of the list. */
  function Reach(length: int, start: int, associativity: int): (w: int)
    ensures w <= associativity
    ensures 0 <= start <= length ==> SetInRange(length, start, w)
    ensures SetInRange(length, start, associativity) ==> w == associativity
  {
    if associativity <= 0 || start + associativity <= length then associativity else length - start
  }

  /** The scan of `BeladyGetIndex` throws: it reads a slot outside the list
      before it can return. That happens when the set does not lie within
      the list and the scan does not stop early at a line whose address
      is not reused, because the set starts before the list or no such
      line lies between its start and the end of the list. */
  ghost predicate ScanLeavesList(s: seq<CacheEntry>, start: int, associativity: int,
                                 list: seq<string>, toHex: string -> string)
  {
    !SetInRange(|s|, start, associativity) &&
    (start < 0 || forall j :: start <= j < |s| ==> !NotReused(list, s[j], toHex))
  }

  /** `BeladyGetIndex(addressList, startingIndex)`. The victim is the one
      of the part of the set the scan reaches: the whole set when it lies
      within the list, otherwise only an early return before the end of
      the list succeeds. */
  method BeladyGetIndex(entries: array<CacheEntry>, associativity: int, addressList: seq<string>,
                        startingIndex: int, toHex: string -> string)
    returns (r: Result<int, SlotError>)
    ensures r.Failure? <==> ScanLeavesList(entries[..], startingIndex, associativity, addressList, toHex)
    ensures r.Success? ==> 0 <= startingIndex <= entries.Length || associativity <= 0
    ensures r.Success? ==>
      IsBeladyVictim(entries[..], startingIndex, Reach(entries.Length, startingIndex, associativity),
                     addressList, toHex, r.value)
  {
    var farthestElement := 0;
    var index := 0;
    if associativity <= 0 {
      return Success(index);
    }
    if startingIndex < 0 || startingIndex > entries.Length {
      return Failure(SlotOutOfRange);
    }
    ghost var seen := false;
    var i := startingIndex;
    while i < startingIndex + associativity
      invariant startingIndex <= i <= startingIndex + associativity && i <= entries.Length
      invariant Scanned(entries[..], startingIndex, addressList, toHex, i, seen, index, farthestElement)
    {
      if i >= entries.Length {
        return Failure(SlotOutOfRange);
      }
      if entries[i].Tag.None? {
        ScanNull(entries[..], startingIndex, addressList, toHex, i, seen, index, farthestElement);
        i := i + 1;
        continue;
      }
      var tmpIndex := IndexOf(addressList, toHex(entries[i].Tag.value));
      if tmpIndex >= farthestElement {
        ScanFarther(entries[..], startingIndex, addressList, toHex, i, seen, index, farthestElement);
        farthestElement := tmpIndex;
        index := i;
        seen := true;
      } else if tmpIndex == -1 {
        FirstNotReusedIsVictim(entries[..], startingIndex, Reach(entries.Length, startingIndex, associativity),
                               addressList, toHex, i);
        return Success(i);
      } else {
        ScanNearer(entries[..], startingIndex, addressList, toHex, i, seen, index, farthestElement);
      }
      i := i + 1;
    }
    ScanEndVictim(entries[..], startingIndex, associativity, addressList, toHex, seen, index, farthestElement);
    r := Success(index);
  }

  /** `GetReplacementIndex(index, traceIndex)`: the future list from the
      trace, then the victim of the set at `index`. */
  method GetReplacementIndex(entries: array<CacheEntry>, associativity: int, trace: seq<string>,
                             index: int, traceIndex: int, toHex: string -> string)
    returns (r: Result<int, BeladyError>)
    ensures r == Failure(Trace(MalformedTraceLine)) <==> FutureAddresses(trace, traceIndex).None?
    ensures r == Failure(Slot(SlotOutOfRange)) <==>
      FutureAddresses(trace, traceIndex).Some? &&
      ScanLeavesList(entries[..], index, associativity, Dedup(FutureAddresses(trace, traceIndex).value), toHex)
    ensures r.Success? ==>
      FutureAddresses(trace, traceIndex).Some? && (0 <= index <= entries.Length || associativity <= 0) &&
      IsBeladyVictim(entries[..], index, Reach(entries.Length, index, associativity),
                     Dedup(FutureAddresses(trace, traceIndex).value), toHex, r.value)
  {
    var future := LoadFutureCacheEntries(trace, traceIndex);
    if future.Failure? {
      return Failure(Trace(future.error));
    }
    var victim := BeladyGetIndex(entries, associativity, future.value, index, toHex);
    if victim.Failure? {
      return Failure(Slot(SlotOutOfRange));
    }
    r := Success(victim.value);
  }

  /** The victim is optimal over the raw future trace: when every line of
      the set is reused, none is reused later than the victim. */
  lemma VictimIsReusedLast(s: seq<CacheEntry>, start: int, associativity: int, addresses: seq<string>,
                           toHex: string -> string, r: int, j: int)
    requires SetInRange(|s|, start, associativity)
    requires forall k :: start <= k < start + associativity ==> !NotReused(Dedup(addresses), s[k], toHex)
    requires IsBeladyVictim(s, start, associativity, Dedup(addresses), toHex, r)
    requires start <= j < start + associativity && s[j].Tag.Some?
    ensures s[r].Tag.Some?
    ensures IndexOf(addresses, toHex(s[j].Tag.value)) <= IndexOf(addresses, toHex(s[r].Tag.value))
  {
    var a, b := toHex(s[j].Tag.value), toHex(s[r].Tag.value);
    DedupMeaning(addresses);
    assert a in addresses && b in addresses;
    DedupKeepsFirstOccurrenceOrder(addresses, b, a);
  }

  /** A set of cold lines (null tags) yields slot 0, wherever the set is. */
  lemma ColdSetVictim(n: nat, start: int, associativity: int, list: seq<string>,
                      toHex: string -> string, r: int)
    requires SetInRange(n, start, associativity)
    requires IsBeladyVictim(ColdLines(n), start, associativity, list, toHex, r)
    ensures r == 0
  {
  }
}
