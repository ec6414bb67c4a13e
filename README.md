# Cache simulator: replacement policies and bookkeeping

This project models the replacement-policy and bookkeeping layer of a
set-associative cache simulator (the `CacheSimulation` library), and proves
properties of that model.

- **Replacement policies.** The LRU, MRU and Bélády policies are methods over the array of cache lines; the FIFO policy is a class over its own queue of slot numbers:
  - least recently used (`Aging` and the victim scan);
  - most recently used;
  - first in, first out (a rotating queue of slot numbers);
  - Bélády's offline policy. It reads the future addresses from the trace lines, removes duplicates, and picks the line reused farthest in the future.
- **Records.** The entry record (`CacheEntry`, `FlagBits`, `Validity`) and the two policy enums are datatypes.
- **Mutable objects.** Each of these is a class whose methods update its fields:
  - the configuration record and its builder;
  - the statistics counters;
  - the shared `Cache` fields;
  - the factory `CacheBuilder`.

In the source, the set a policy works on is `CacheEntries[start .. start + Associativity)`. In the model it is the same slice of an `array<CacheEntry>`:

- `Aging` takes a set number and multiplies it by the associativity.
- Every `GetReplacementIndex` takes the set's first slot.
- A slot outside the entry list makes the indexer throw `ArgumentOutOfRangeException`. The methods return `Failure(SlotOutOfRange)` at the point where the source's loop would throw; `Aging` then leaves the slots it has already aged as they are.

Modules, one per file:

- `Wrappers`: `Option` and `Result`.
- `Lists`:
  - `IndexOf` (`List.IndexOf`);
  - `Dedup` (the `Contains`/`Add` loop);
  - `MapAll` (a loop in which any step may throw).
- `Text`: the .NET string calls `Split`, `TrimStart`, `TrimEnd` and `Trim`.
- `Entries`, `Policies`, `Configuration`, `Statistics`.
- `Lru`, `Mru`, `Fifo`, `Belady`.
- `Caches`: the `Cache` class.
- `Builder`: `CacheBuilder`.

## Model

| member | source | states |
|---|---|---|
| Entries.ValidityFromCode | CacheSimulation/FlagBits.cs:3-7 | an integer names a `Validity` exactly when it is 0 or 1, and the value found has that code |
| Entries.ValidityCodeRoundTrip | CacheSimulation/FlagBits.cs:5-6 | Invalid = 0 and Valid = 1 decode back to themselves |
| Entries.NewEntry | CacheSimulation/CacheEntry.cs:5-13 | a new entry has null tag and data, set 0, age 0, tag length 1, and is invalid (code 0) and clean |
| Entries.ColdLines | CacheSimulation/CacheEntry.cs:3-14 | `n` freshly constructed entries |
| Policies.WritePolicyFromCode | CacheSimulation/Cache.cs:6-12 | an integer names a `WritePolicy` exactly when it is 0 to 3, and the value found has that code |
| Policies.WritePolicyCodeRoundTrip | CacheSimulation/Cache.cs:8-11 | WriteThrough = 0, WriteBack = 1, WriteAllocate = 2 and WriteAround = 3 decode back to themselves |
| Policies.ReplacementPolicyFromCode | CacheSimulation/Cache.cs:14-19 | an integer names a `ReplacementPolicy` exactly when it is 0 to 2, and the value found has that code |
| Policies.ReplacementPolicyCodeRoundTrip | CacheSimulation/Cache.cs:16-18 | LeastRecentlyUsed = 0, Belady = 1 and FirstInFirstOut = 2 decode back to themselves |
| Configuration.CacheConfiguration.constructor | CacheSimulation/CacheConfiguration.cs:5-12 | the default is block size 0, write-back on a hit, write-allocate on a miss, LRU replacement |
| Configuration.CacheConfiguration.WithSettings | CacheSimulation/CacheConfiguration.cs:14-17 | the four-argument constructor is the defaults followed by `SetCacheConfig`, and holds exactly the four values |
| Configuration.CacheConfiguration.SetCacheConfig | CacheSimulation/CacheConfiguration.cs:19-25 | the four settings become the four arguments, unchecked, whatever they were before; so a second identical call changes nothing |
| Configuration.CacheConfigurationBuilder.constructor | CacheSimulation/CacheConfigurationBuilder.cs:5 | the builder owns a fresh, default configuration |
| Configuration.CacheConfigurationBuilder.Size | CacheSimulation/CacheConfigurationBuilder.cs:7-10 | sets the block size and leaves the other three settings |
| Configuration.CacheConfigurationBuilder.WriteHitPolicy | CacheSimulation/CacheConfigurationBuilder.cs:12-15 | sets the write-hit policy and leaves the other three settings |
| Configuration.CacheConfigurationBuilder.WriteMissPolicy | CacheSimulation/CacheConfigurationBuilder.cs:17-20 | sets the write-miss policy and leaves the other three settings |
| Configuration.CacheConfigurationBuilder.ReplacementPolicy | CacheSimulation/CacheConfigurationBuilder.cs:22-25 | sets the replacement policy and leaves the other three settings |
| Configuration.CacheConfigurationBuilder.Build | CacheSimulation/CacheConfigurationBuilder.cs:27-30 | returns the builder's own configuration object, not a copy |
| Configuration.BuilderScenario | CacheSimulation/CacheConfigurationBuilder.cs:5-30 | a fresh builder builds the defaults, the last write to a field wins, and a setter called after `Build` shows through the object `Build` returned earlier |
| Statistics.StatisticsData.constructor | CacheSimulation/StatisticsData.cs:5-9 | all five counters start at 0 |
| Statistics.StatisticsData.TotalAccesses | CacheSimulation/StatisticsData.cs:11-14 | the total is hits plus misses, and is at least each of them when both are non-negative |
| Statistics.StatisticsData.HitRate | CacheSimulation/StatisticsData.cs:16-20 | 0 before any access; otherwise rate × total = hits; within [0, 1] for non-negative counters |
| Statistics.StatisticsData.MissRate | CacheSimulation/StatisticsData.cs:22-26 | 0 before any access; otherwise rate × total = misses; within [0, 1] for non-negative counters |
| Statistics.RatesAreComplementary | CacheSimulation/StatisticsData.cs:16-26 | once there has been an access, hit rate + miss rate = 1 |
| Statistics.RatesIgnoreOtherCounters | CacheSimulation/StatisticsData.cs:11-26 | memory reads, memory writes and evictions do not affect either rate |
| Caches.Cache.constructor | CacheSimulation/Cache.cs:23-34 | counters and geometry fields start at 0 and there is no entry list yet; the variant's constructor then stores the RAM file name and the configuration it is given (as in CacheSimulation/CacheLRU.cs:5-9) |
| Caches.Cache.CreateColdCache | CacheSimulation/Cache.cs:36-39 | the entry list becomes a new EMPTY list whose capacity is the argument. A negative argument fails and leaves the list as it was. No other field changes |
| Caches.Cache.GetTagLength | CacheSimulation/Cache.cs:41-44 | tag + set + block bits = address length; the tag length is non-negative exactly when set and block bits fit in the address |
| Caches.Cache.CreateCache | CacheSimulation/CacheBuilder.cs:47 | counts one call and keeps size, associativity, RAM file name and configuration |
| Lru.Aged | CacheSimulation/CacheLRU.cs:16-27 | the lines after ageing: each line of the set except the touched one is one older; the touched line, the lines outside the set and every field other than the age are unchanged; no age decreases |
| Lru.Aging | CacheSimulation/CacheLRU.cs:16-27 | fails exactly when the touched slot or some slot of the set lies outside the list; on success the array is `Aged` of the array before, with the set starting at set number × associativity; on failure the array is unchanged, or has the slots from the set's start to the end of the list aged, when the touched slot exists and the set starts within the list |
| Lru.AgingKeepsAgesNonNegative | CacheSimulation/CacheLRU.cs:21-26 | non-negative ages stay non-negative |
| Lru.GetReplacementIndex | CacheSimulation/CacheLRU.cs:29-43 | fails exactly when the set does not lie within the list; otherwise the victim is the first line holding the greatest age above 0, or the first slot if no age is above 0; it lies in the set; with non-negative ages no line of the set is older; the array is not written |
| Lru.FreshlyUsedLineIsNotVictim | CacheSimulation/CacheLRU.cs:16-43 | after ageing, a line just used at age 0 is not the victim when the set has another line |
| Lru.TouchedLineCanStayVictim | CacheSimulation/CacheLRU.cs:18-26 | because the touched line keeps its age, with ages 5 and 0 the line at age 5 is still the victim right after its own access |
| Lru.ColdSetVictim | CacheSimulation/CacheLRU.cs:31-42 | a set of new lines gives up its first slot |
| Mru.GetReplacementIndex | CacheSimulation/CacheMRU.cs:11-25 | fails exactly when the set does not lie within the list; otherwise, as written: the first slot of the set unless some age is negative, and then the first line with the least age; always in the set; read-only |
| Mru.GetReplacementIndexFromFirstSlot | CacheSimulation/CacheMRU.cs:11-25 | fails exactly where the scan as written does; otherwise the scan seeded with the first line's age returns the first line with the least age in the set |
| Mru.ScansAgreeOnNegativeAges | CacheSimulation/CacheMRU.cs:15-21 | with a negative age in the set, the two scans pick the same line |
| Mru.AsWrittenEvictsOldest | CacheSimulation/CacheMRU.cs:15-17 | with ages 3 and 0, the scan as written evicts slot 0 (the least recently used line), while the seeded scan evicts slot 1 |
| Fifo.Rotate | CacheSimulation/CacheFIFO.cs:17-18 | one dequeue-then-enqueue keeps the queue's length |
| Fifo.RotateMovesFront | CacheSimulation/CacheFIFO.cs:17-18 | after a turn, the old front is last and the old tail comes first |
| Fifo.RotateKeepsSlots | CacheSimulation/CacheFIFO.cs:17-18 | a turn keeps the multiset of slots |
| Fifo.RotateNSplits | CacheSimulation/CacheFIFO.cs:17-18 | after `k` turns the queue is its old suffix from `k`, followed by the old prefix |
| Fifo.FullCycleRestoresQueue | CacheSimulation/CacheFIFO.cs:17-18 | as many turns as the queue is long give the queue back |
| Fifo.CacheFifo.constructor | CacheSimulation/CacheFIFO.cs:7 | the queue starts empty |
| Fifo.CacheFifo.GetReplacementIndex | CacheSimulation/CacheFIFO.cs:15-21 | an empty queue fails, as `Dequeue` throws; otherwise it returns the front slot and turns the queue once. Neither argument is used |
| Fifo.CacheFifo.Cycle | CacheSimulation/CacheFIFO.cs:15-21 | as many victim requests as there are queued slots return the slots in queue order and leave the queue as it was |
| Fifo.CacheFifo.Register | CacheSimulation/CacheFIFO.cs:7 | appends a slot to the back of the queue (see Findings) |
| Fifo.NewCacheFifoFails | CacheSimulation/CacheFIFO.cs:7-21 | as written, the first victim request of a new FIFO cache fails |
| Fifo.EvictionOrderIsFillOrder | CacheSimulation/CacheFIFO.cs:15-21 | with slots registered as lines are filled, victims come in fill order |
| Lists.IndexOf | CacheSimulation/CacheBelady.cs:67 | `List.IndexOf`: -1 exactly when absent; otherwise the position of the first occurrence |
| Lists.IndexOfAppend | CacheSimulation/CacheBelady.cs:42-45 | where an element is found after appending one element |
| Lists.Dedup | CacheSimulation/CacheBelady.cs:42-45 | the `Contains`/`Add` loop's output is no longer than its input |
| Lists.DedupMeaning | CacheSimulation/CacheBelady.cs:42-45 | the output has no duplicates, and holds every element of the input and nothing else |
| Lists.DedupSnoc | CacheSimulation/CacheBelady.cs:42-45 | one more step: an element is added exactly when it was not yet in the output |
| Lists.DedupKeepsFirstOccurrenceOrder | CacheSimulation/CacheBelady.cs:42-45 | two elements come in the output in the order of their first occurrences in the input |
| Lists.MapAllSnoc | CacheSimulation/CacheBelady.cs:30-46 | one more line of a loop in which any line may throw |
| Lists.MapAllMeaning | CacheSimulation/CacheBelady.cs:30-46 | the loop fails exactly when some line fails; otherwise the `i`-th result comes from the `i`-th line |
| Text.Split | CacheSimulation/CacheBelady.cs:41 | `Split(sep)` gives at least one field, and at least two exactly when `sep` occurs |
| Text.SplitFieldsAreClean | CacheSimulation/CacheBelady.cs:41 | no field holds the separator |
| Text.JoinSplit | CacheSimulation/CacheBelady.cs:41 | joining the fields with the separator gives the line back |
| Text.SplitSecondField | CacheSimulation/CacheBelady.cs:41 | the second field of `a sep b sep c` is `b` when `a` and `b` hold no `sep` |
| Text.LeadingRun | CacheSimulation/CacheBelady.cs:41 | the count of leading `c`s: within the string, and the next character is not `c` |
| Text.TrailingRun | CacheSimulation/CacheBelady.cs:41 | the count of trailing `c`s: within the string, and the character before is not `c` |
| Text.LeadingRunMeaning | CacheSimulation/CacheBelady.cs:41 | every character counted by `LeadingRun` is `c` |
| Text.TrailingRunMeaning | CacheSimulation/CacheBelady.cs:41 | every character counted by `TrailingRun` is `c` |
| Text.TrimStart | CacheSimulation/CacheBelady.cs:41 | `TrimStart(c)`: no longer than the string, and does not start with `c` |
| Text.TrimEnd | CacheSimulation/CacheBelady.cs:41 | `TrimEnd(c)`: no longer than the string, and does not end with `c` |
| Text.Trim | CacheSimulation/CacheBelady.cs:41 | `Trim(c)`: no longer than the string, and neither starts nor ends with `c` |
| Text.TrimUntouched | CacheSimulation/CacheBelady.cs:41 | a string neither starting nor ending with `c` is left alone by all three trims |
| Text.TrimStartRun | CacheSimulation/CacheBelady.cs:41 | `TrimStart` removes exactly a leading run of `c` |
| Text.TrimEndRun | CacheSimulation/CacheBelady.cs:41 | `TrimEnd` removes exactly a trailing run of `c` |
| Belady.AddressField | CacheSimulation/CacheBelady.cs:41 | the second tab-separated field, spaces trimmed; fails exactly when the line has no tab (`[1]` throws) |
| Belady.CleanAddress | CacheSimulation/CacheBelady.cs:41 | fails exactly when the field is shorter than 2 characters (`Substring(2)` throws); lengths count Unicode characters, not UTF-16 code units (see "## Left out"); otherwise the result neither starts nor ends with a space |
| Belady.ExtractAddress | CacheSimulation/CacheBelady.cs:41 | a line's address: fails when the line has no tab; the result neither starts nor ends with a space |
| Belady.TrimStartAppend | CacheSimulation/CacheBelady.cs:41 | trimming leading `c`s commutes with appending a character other than `c` |
| Belady.TrimStartOfHex | CacheSimulation/CacheBelady.cs:41 | trimming leading zeros keeps hexadecimal digits hexadecimal |
| Belady.FieldOfLoadLine | CacheSimulation/CacheBelady.cs:41 | the address field of `L<tab>0x<address>` is `0x<address>` |
| Belady.FieldOfStoreLine | CacheSimulation/CacheBelady.cs:41 | the address field of `S<tab>0x<address>,<tab>…` is `0x<address>,` |
| Belady.CleanHexAddress | CacheSimulation/CacheBelady.cs:41 | cleaning `0x`, hexadecimal digits and an optional comma leaves the digits without their leading zeros |
| Belady.ExtractFromLoadLine | CacheSimulation/CacheBelady.cs:41 | the address of a load line is its hexadecimal address without leading zeros |
| Belady.ExtractFromStoreLine | CacheSimulation/CacheBelady.cs:41 | the address of a store line is its hexadecimal address without leading zeros, whatever its size and data |
| Belady.SplitTwoFields | CacheSimulation/CacheBelady.cs:41 | `a sep b` splits into exactly `a` and `b` when neither holds `sep` |
| Belady.FirstConsidered | CacheSimulation/CacheBelady.cs:32-38 | lines are numbered from 1 and line `n` is considered when `n >= traceIndex + 1`; the first considered position lies within the trace |
| Belady.SkipLine | CacheSimulation/CacheBelady.cs:34-38 | a skipped line adds nothing |
| Belady.ReadOneMore | CacheSimulation/CacheBelady.cs:39-45 | a considered line adds its address |
| Belady.BadLineSpoilsFuture | CacheSimulation/CacheBelady.cs:41 | one considered line that cannot be cut makes the whole load fail |
| Belady.AllRead | CacheSimulation/CacheBelady.cs:30-46 | when every line has been read, the addresses read are the whole future list |
| Belady.ReadFutureAddresses | CacheSimulation/CacheBelady.cs:28-48 | the reading loop, for any address cutter: a failure if some considered line cannot be cut; otherwise `Dedup` of the considered lines' addresses in trace order |
| Belady.LoadFutureCacheEntries | CacheSimulation/CacheBelady.cs:20-49 | every address from line `traceIndex + 1` on, each once, in order of first occurrence; a failure where a considered line would throw |
| Belady.ScanNull | CacheSimulation/CacheBelady.cs:62-65 | passing a line with a null tag changes neither the candidate nor the farthest position |
| Belady.ScanFarther | CacheSimulation/CacheBelady.cs:67-73 | a tagged line reused at least as far as the candidate becomes the candidate (`>=`: the later slot wins a tie) |
| Belady.ScanNearer | CacheSimulation/CacheBelady.cs:67-77 | a tagged line that is reused, but nearer than the candidate, leaves the candidate |
| Belady.FirstNotReusedIsVictim | CacheSimulation/CacheBelady.cs:74-77 | the early return gives the first line in slot order whose address is not reused |
| Belady.ScanEndVictim | CacheSimulation/CacheBelady.cs:58-80 | at the end of the scan, the candidate (or 0) is the victim |
| Belady.Reach | CacheSimulation/CacheBelady.cs:60 | the part of the set the scan reads before the list ends: the whole set when it lies within the list, and never more than the set |
| Belady.BeladyGetIndex | CacheSimulation/CacheBelady.cs:56-81 | fails exactly when the scan reaches a slot outside the list before it can return: the set starts before the list, or it runs past the end of the list with no line before the end whose tag is not reused. Otherwise, over the part of the set it reaches: the first line (in slot order) whose hex tag is not reused; else the line reused farthest in the future, the later slot on a tie; 0 when every tag in the set is null. Null-tag lines are never picked by a comparison |
| Belady.GetReplacementIndex | CacheSimulation/CacheBelady.cs:83-86 | fails with the trace error exactly when loading the future addresses fails, and with the slot error exactly when the addresses load but `BeladyGetIndex` leaves the list; otherwise the victim `BeladyGetIndex` gives over them |
| Belady.VictimIsReusedLast | CacheSimulation/CacheBelady.cs:42-73 | when every line of the set is reused, no line's next use in the raw future trace comes after the victim's |
| Belady.ColdSetVictim | CacheSimulation/CacheBelady.cs:58-80 | a set of new lines (null tags) yields 0, not the set's first slot |
| Builder.VariantFor | CacheSimulation/CacheBuilder.cs:28-45 | Belady gives the Bélády cache, LeastRecentlyUsed the LRU cache, and every other policy the random cache |
| Builder.NoPolicyBuildsMruOrFifo | CacheSimulation/CacheBuilder.cs:28-45 | no policy builds the MRU or the FIFO cache |
| Builder.CacheBuilder.constructor | CacheSimulation/CacheBuilder.cs:5-14 | stores the RAM file name and configuration; size and associativity start at 0 |
| Builder.CacheBuilder.Size | CacheSimulation/CacheBuilder.cs:16-19 | sets the size and leaves the associativity |
| Builder.CacheBuilder.Associativity | CacheSimulation/CacheBuilder.cs:21-24 | sets the associativity and leaves the size |
| Builder.CacheBuilder.Build | CacheSimulation/CacheBuilder.cs:26-49 | a new cache of the variant the configuration's current policy selects, with the builder's size, associativity, RAM file name and configuration object, on which `CreateCache` ran exactly once |
| Builder.BuildScenario | CacheSimulation/CacheBuilder.cs:7-47 | a setter never called leaves 0; the last call of a setter wins; the policy is read when `Build` runs |

## Left out

- **Reading the trace file.** In `LoadFutureCacheEntries` the stream is not modelled: the trace file is given as its sequence of lines. Any I/O error is not modelled.
- **`ConvertBinaryToHex` and the `TraceFileName` field.** They are not part of this model. `ConvertBinaryToHex` is the function parameter `toHex`. A tag is a string whose content is not interpreted.
- **`CreateCache`.** It is not part of this model. It is a step that counts its calls and keeps the settings the factory gave. What it does to the entry list and the geometry fields is not stated.
- **`CacheRandom`.** Its victim choice comes from a clock-seeded cryptographic generator in a foreign library. It appears only as the `RandomCache` variant built by the factory.
- **The other `Cache` variants' constructors.** They differ only in which variant is built, so they are the one `Caches.Cache` constructor with a `Variant` argument.
- **Entry objects.** `CacheEntry` and `FlagBits` are reference types in the source. Here they are values, so two slots sharing one entry object cannot be expressed.
- **List capacity growth.** A `List<T>` capacity is only the `Capacity` field. Growing the list is not part of the core.
- Statistics.StatisticsData.TotalAccesses: does not model 32-bit wrap-around of `int` sums; hits + misses is exact.
- Statistics.StatisticsData.HitRate: computed over exact reals rather than IEEE `double`, so rounding is not modelled.
- Statistics.StatisticsData.MissRate: computed over exact reals rather than IEEE `double`, so rounding is not modelled.
- Lru.Aging: the age increment and the set start `index * Associativity` are exact integers. The source's 32-bit increment, product and `limit + Associativity` sum can wrap around; that is not modelled.
- Lru.GetReplacementIndex: the loop bound `index + Associativity` is exact. A 32-bit wrap-around of that sum is not modelled.
- Mru.GetReplacementIndex: the loop bound `index + Associativity` is exact. A 32-bit wrap-around of that sum is not modelled.
- Belady.BeladyGetIndex: the loop bound `startingIndex + Associativity` is exact. A 32-bit wrap-around of that sum is not modelled.
- Belady.FirstConsidered: `traceIndex + 1` is exact. In the source, `traceIndex = int.MaxValue` wraps the sum to `int.MinValue`, so every line is read, while the model reads none. The line counter is not bounded to 32 bits either.
- Belady.ReadFutureAddresses: it considers the lines `FirstConsidered` gives, so the same `traceIndex + 1` wrap-around at `int.MaxValue` is not modelled.
- Belady.CleanAddress: a `string` is a sequence of Unicode characters, so the length test and the cut of `Substring(2)` count characters, where .NET counts UTF-16 code units. A field that starts with a character outside the Basic Multilingual Plane (two code units) is therefore cut differently: the field `"\U{1F600}"` gives `""` in the source and a failure here, and `"\U{1F600}1"` gives `"1"` in the source and `""` here. `Belady.ExtractAddress`, `Belady.LoadFutureCacheEntries` and `Belady.GetReplacementIndex` inherit this difference.
- Caches.Cache.GetTagLength: `BitArray` is a `seq<bool>`, and the subtraction does not model 32-bit wrap-around.
- **Enums.** `ReplacementPolicy` has only the three members in `CacheSimulation/Cache.cs:14-19`. Other parts of the repository use names it does not declare, and those are not part of this model.

Four behaviours of the code are kept as written:

- LRU's touched line keeps the age it had before ageing.
- `CreateColdCache(n)` makes an empty list whose capacity is `n`.
- No setter of the configuration checks its value.
- The factory builds the random cache for `FirstInFirstOut`.

## Findings

| source | as written | input that shows it | evidently intended | confidence | as-written member | corrected member |
|---|---|---|---|---|---|---|
| CacheSimulation/CacheMRU.cs:15-17 | `lowestAge` starts at 0 and only a strictly smaller age moves it, so with non-negative ages the victim is always the set's first slot | a set with ages 3 and 0: slot 0, the least recently used line, is evicted | evict the most recently used (youngest) line: seed the scan with the first line's age | high (not executed) | Mru.GetReplacementIndex, Mru.AsWrittenEvictsOldest | Mru.GetReplacementIndexFromFirstSlot |
| CacheSimulation/CacheFIFO.cs:7,17 | `indexQueue` is private, starts empty, and nothing enqueues a slot before the first `Dequeue`; the only `Enqueue` (line 18) re-adds the slot just taken, so `Dequeue` throws on the first victim request | a new FIFO cache, any `index` and `traceIndex` | enqueue each slot when its line is filled, so victims come in fill order | medium (not executed) | Fifo.NewCacheFifoFails | Fifo.CacheFifo.Register, Fifo.EvictionOrderIsFillOrder |
