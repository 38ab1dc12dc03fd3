# pg_plansight: verified model

A Dafny model of the parts of pg_plansight that decide what its numbers are:
how log bytes become plans, how plans become groups, how two tailers do both
slice by slice, how the fast scanners answer, how a text plan becomes a tree,
and how executions are rolled up into statistics. Each part is modelled branch
by branch, and the promises that span several of them are proved for all
inputs, all runs and all schedules.

## How the pieces fit

| module | stands for |
|---|---|
| `Common`, `Lines`, `Utf8`, `Utf8Pieces` | shared vocabulary, splitting at newlines, lossy UTF-8 decoding (section 3 of RFC 3629) |
| `Unicode`, `Regex`, `Timestamp` | the log-line expression as a backtracking engine runs it, and the hand-written scanner that replaces it |
| `Lanes`, `Kernels` | vector lanes, masks and bit tricks; the three vector kernels |
| `CostTuple`, `CostExact`, `CostPrint` | the exact-or-decline cost parser, against the cost expression and against printed costs |
| `EntryState`, `LogParser`, `LogReader` | the entry state machine, the read loop with its caps, the split law |
| `Entries`, `EntryLaws`, `JsonShape` | how an entry's lines read, and that a parse delivers what its entries say; texts with balanced brackets |
| `SplitExact` | when the split law fails |
| `EntryBytes`, `EntryCap`, `Rejected` | what the entry counter counts, when the entry cap acts, an input on which it acts on an entry that fits, an input on which an entry holds more than is counted for it |
| `Lossy` | parsing a chunk after decoding it lossily, instead of parsing its bytes |
| `Fingerprints`, `Groups`, `Grouping`, `Batch`, `ReadGroups` | the LRU cache, the meaning of grouping, the streaming grouper, the batch path, the read loop into a grouper |
| `Boundaries`, `Collector`, `Emission`, `Liveness`, `TailHistory` | where a file may be cut, the exporter's checkpointed tail, its all-or-nothing emission, how far it gets, what its counters and its saved row say of the events before |
| `BgWorker` | the worker's transactional tail |
| `PlanTree`, `PlanText`, `PlanErrors` | the indentation parser, its inverse, and what it refuses |
| `Hook` | pairing executor starts and ends by address |
| `DurationStats`, `Rollup`, `Latency`, `StatRow`, `RowLaws`, `Statements`, `Retention`, `WorkerTable` | statistics of a group, its row and what that says, the upserted table, its recent minutes, and the table across all ticks |

The main results, in the order they build on each other:

1. The scanner is the expression (`Timestamp.ScannerRefinesRegex`,
   `Timestamp.SplitLogLineIsRegex`), whatever `\d` and white space mean outside
   ASCII; the vector kernels are the scalar scans (`Kernels`).
2. A parse delivers the plans of its entries in order, and each entry the plan
   that its lines read as: the whole query, all plan lines, or the JSON document
   up to its last bracket (`EntryLaws.PlansAreEntries`,
   `EntryLaws.TextEntryLaw`, `EntryLaws.JsonEntryLaw`); every input is made of
   such entries (`EntryLaws.EveryInputReads`).
3. Cutting a log where an entry starts is invisible as long as the entry cap is
   not met across the cut (`LogParser.SplitLaw`), and visible otherwise
   (`SplitExact.SplitLawExactly`); so is lossy decoding
   (`Lossy.LossyIsInvisible`). Hence both tailers deliver what one pass would
   (`Collector.TailingIsOnePass`, `BgWorker.IngestIsOnePass`), emit every byte
   once (`Collector.TailingIsTiled`), read to the end only what has stopped
   changing (`Collector.TailIsHeldBack`), and get there (`Liveness.TailingDrains`).
4. Grouping turns concatenation into merging (`Groups.GroupsAppend`); the
   in-place grouper, its caches and the batch path all compute it
   (`Batch.StreamedAndBatched`, `Groups.ReductionIsOnePass`), from bytes on
   (`ReadGroups.ParseAndTake`). Two plans share a group exactly if database and
   fingerprint agree (`Groups.GroupsAreClasses`).
5. A row says of its plans what is so (`RowLaws`), and rows add up
   (`Statements.RowAppend`), so the table after any schedule of
   ticks is that of a single parse (`WorkerTable.TableIsOnePass`), down to the
   minutes that retention keeps (`WorkerTable.RetainedTableIsOnePass`).
6. Printing a plan tree or a cost and parsing it gives it back
   (`PlanText.PrintedTreeParsesBack`, `CostPrint.PrintedCostParsesBack`).

## Conventions

- Octets are naturals below 256, text is a sequence of Unicode scalar values.
  A `Tables` value says which characters outside ASCII are digits or white
  space; every result holds for every such table.
- `Env` holds what the model does not look into: the header, database and
  duration expressions, and the two plan builders. Results hold for every
  `Env`, except where a lemma names what the builders do with certain lines:
  `EntryBytes.OpenEntryDoubled` assumes that a query recovered from a rejected
  document is no longer than the document, and the concrete inputs of
  `EntryCap.CapCountsAcrossEntries` and `Rejected.HoldsMoreThanCounted` are
  read the way those lines are.
- Durations are compared by `f64::total_cmp` in the grouping code, so there
  they are integers standing for places in that order; `StatRow.Scale` turns
  them into milliseconds for the statistics, which are over exact reals.
- Hashing and SQL normalization are functions of the text. Where an answer
  goes through a hash, the hash is assumed faithful on the texts in play.
- Things that can fail (opening, parsing, the state batch, the checkpoint
  write, a transaction) are fields of the event that a run is made of.

## Where code and comments disagree

- The entry cap is documented as a limit on one entry
  (`crates/core/src/log_parser.rs:68-69`), but its counter starts over only
  when no entry is open. An entry that directly follows another one inherits
  the counter: `EntryCap.CapCountsAcrossEntries` gives two equal entries, each
  exactly as large as the cap, the second of which is discarded.
  `EntryBytes.DiscardsExactly` says when the cap acts: exactly if an unbroken
  chain of entries is longer than it. So a cut can be visible:
  `SplitExact.SplitLawExactly` says, for a suffix of any number of entries that
  loses none on its own, that it is exactly if the cap is met across the cut.
- The counter is documented as a bound on an entry's query text and plan lines
  (`crates/core/src/log_parser.rs:68-69`). It is not. A JSON document that
  closes and turns out not to be a plan leaves both its text and the query it
  spells out behind (`crates/core/src/parsing/plan_builders.rs:190-195`,
  `262-275`): `Rejected.HoldsMoreThanCounted` is a header and a line of 20 bytes
  after which the entry holds 21 characters. The excess is exactly the query
  text so recovered (`EntryBytes.RejectedExactly`, `EntryBytes.OpenEntryBounded`),
  and at most doubles the bound (`EntryBytes.OpenEntryDoubled`).
- The sample map is said to evict its oldest entry
  (`crates/pg_extension/src/hook.rs:440-441`). It evicts the front, and
  `swap_remove` may move a newer entry there. `Hook.OrderedIffRemovedAtEnd`
  says when the map stays in the order of the starts: exactly if every removal
  hits one of its last two slots; then `Hook.OldestIsEvicted`. From then on a
  full map evicts in the order of the starts exactly if it stands in that order
  (`Hook.EvictsOldestFirstIff`). A run that does otherwise is
  `Hook.EvictionSkipsTheOldest`.
- Giving up on a range after three failed parses moves the checkpoint past
  bytes that were never emitted; `TailHistory.SkipsThirdFailure` says exactly
  when. It is announced as final (`crates/exporter/src/collector.rs:500-508`), but
  the row it saves keeps the identity of the file before: if the range was a
  replaced file's, the next poll starts over (`TailHistory.SkipIsForgotten`).

## Model

| member | source | states |
|---|---|---|
| Lines.SplitIsSplit | crates/core/src/log_parser.rs:363-410 | splitting a buffer into lines loses no byte, and every line but the last ends at its only newline |
| Lines.SplitUnique | crates/core/src/log_parser.rs:363-410 | there is only one such split |
| Utf8.DecodeLinewise | crates/pg_extension/src/bgworker.rs:221-228 | decoding a whole chunk lossily and then splitting it gives the lossily decoded lines: no newline is swallowed or made by a broken multi-octet character |
| Utf8.DecodeCut | crates/core/src/log_parser.rs:398-406 | lossy decoding commutes with cutting in front of an ASCII octet, for every octet sequence |
| Utf8.DecodeEncode | crates/core/src/parser_utils.rs:163-165 | well-formed text survives encoding and lossy decoding |
| Utf8Pieces.PiecesAreMaximal | crates/core/src/log_parser.rs:398-406 | the decoder takes the character that stands at the front; if there is none, one U+FFFD stands for the longest piece that begins one, or for a single octet |
| Timestamp.TimestampCoreScalar | crates/core/src/simd_scan.rs:175-199 | the byte-at-a-time core check decides the 19-byte shape, deferring on any non-ASCII byte |
| Timestamp.TimestampTail | crates/core/src/simd_scan.rs:242-321 | the loops and early exits for fraction and zone end where the greedy optional groups end, or defer |
| Timestamp.ScannerRefinesRegex | crates/core/src/simd_scan.rs:201-321 | on every text and every meaning of `\d`: a match has exactly the length of capture group 1, and no match means the expression does not match |
| Timestamp.UnsureNeedsNonAscii | crates/core/src/simd_scan.rs:75-86 | when the scanner defers, one of the bytes it asked for a digit is not ASCII, and that is one of the first 33 |
| Timestamp.CoreDecides | crates/core/src/parser_utils.rs:30-53 | the expression matches exactly if the 19-character core does: the tails are optional |
| Timestamp.SplitLogLineIsRegex | crates/core/src/parser_utils.rs:139-196 | the fast splitter and the expression split every line alike, first-byte shortcut and fallback included |
| Lanes.ClearLowest | crates/core/src/simd_scan.rs:436-443 | `x & (x - 1)` clears the lowest pending lane of a mask and no other |
| Lanes.LowestLane | crates/core/src/simd_scan.rs:436-443 | trailing zeros of a packed mask are the index of its lowest lane |
| Lanes.FirstFalseEitherWay | crates/core/src/simd_scan.rs:335-356 | complement-and-count and select-and-minimum both find the first false lane |
| Kernels.VectorCoreIsScalar | crates/core/src/simd_scan.rs:96-172 | the two overlapping windows with wrapping subtraction give the scalar verdict on lines of every length |
| Kernels.LeadingWhitespaceScalar | crates/core/src/simd_scan.rs:402-416 | the byte loop finds the end of the white-space run, or defers |
| Kernels.LeadingWhitespaceKernel | crates/core/src/simd_scan.rs:357-384 | the block kernel with its pulled-back last block terminates with the scalar verdict |
| Kernels.IndentLevelIsLeadingChars | crates/core/src/parser_utils.rs:417-426 | the indent level is the number of leading white-space characters, whatever is white space outside ASCII |
| Kernels.FindLiteralScalar | crates/core/src/simd_scan.rs:466-484 | finds the least occurrence, and none for an empty needle |
| Kernels.ScanLanes | crates/core/src/simd_scan.rs:427-446 | the candidate lanes of a block, taken in ascending order, yield the least occurrence in it |
| Kernels.FindLiteralKernel | crates/core/src/simd_scan.rs:421-448 | blocks and scalar tail together find the least occurrence |
| Kernels.FindLiteral | crates/core/src/simd_scan.rs:457-462 | as the scalar search, for every haystack and needle |
| CostTuple.ScanLabelledInt | crates/core/src/simd_scan.rs:562-583 | returns the one number that white space, label and digits can spell at the position, and the position behind it; nothing if none could be read |
| CostTuple.ScanCosts | crates/core/src/simd_scan.rs:520-553 | finds the only ends the two costs can have, or shows there are none |
| CostTuple.ParseCostTuple | crates/core/src/simd_scan.rs:516-560 | answers exactly if the first marker is followed by an ASCII match with a single separator and readable numbers, and then with those numbers |
| CostTuple.OnlyMatch | crates/core/src/plan_parser.rs:1322-1327 | where the parser answers, the expression can match in one way only |
| CostTuple.AnswerUnique | crates/core/src/simd_scan.rs:500-515 | there is one right answer behind a marker |
| CostTuple.DigitsAreWorth | crates/core/src/simd_scan.rs:562-583 | a number is what its digits are worth |
| CostTuple.NumbersFit | crates/core/src/simd_scan.rs:541-560 | rows below 2^64 and widths below 2^32 are read as they are, larger ones are declined |
| CostExact.ExactOrDecline | crates/core/src/simd_scan.rs:500-560 | a returned tuple is what the one leftmost match of the expression on the decoded line converts to, for every meaning of `\d` and `\s` |
| CostPrint.PrintedDecimal | crates/core/src/plan_parser.rs:1794-1810 | a cost printed to two decimals reads back |
| CostPrint.PrintedCostParsesBack | crates/core/src/simd_scan.rs:516-560 | any printed cost tuple, behind any text without a marker and in front of any other, is the one answer |
| LogParser.LogLineStartSplits | crates/core/src/parser_utils.rs:32-53 | a raw line the boundary scan takes for a start is split by the parser once decoded and trimmed |
| LogParser.EntryBytesBounded | crates/core/src/log_parser.rs:415-430 | the entry counter never exceeds the bytes read |
| LogParser.StaleDatabaseUnobserved | crates/core/src/log_parser.rs:447-507 | with no entry open, neither a later plan nor a later discard depends on the remembered database or byte counter |
| LogParser.RunAppend | crates/core/src/log_parser.rs:343-514 | running over two blocks of lines is running over one after the other |
| LogParser.SmallInputIsIntact | crates/core/src/log_parser.rs:415-430 | the entry cap throws nothing away from an input no larger than itself |
| LogParser.IntactSlices | crates/core/src/log_parser.rs:415-430 | if it throws nothing of the whole away, it throws nothing of either slice away, nor anything across the cut |
| JsonShape.ClosesAtLastBracket | crates/core/src/parsing/plan_builders.rs:141-166 | the bracket count finds an object or array closed at its last bracket and at no place before, whatever strings and escapes it holds |
| Entries.TrimMeaning | crates/core/src/parsing/log_entry_parser.rs:86 | trimming takes white space off both ends, and all of it |
| Entries.ReadingIsDelivered | crates/core/src/parsing/log_entry_parser.rs:81-180 | however an entry's lines are rightly read as query lines, JSON literals in the query, plan lines or a document, the state machine delivers the plan of that reading |
| Entries.EveryEntryReads | crates/core/src/parsing/log_entry_parser.rs:81-180 | every sequence of lines has such a reading |
| EntryLaws.PlansAreEntries | crates/core/src/log_parser.rs:343-514 | if the entry cap throws nothing away, a parse delivers entry by entry what each plan header's own lines read as, with that header's time, duration and database; other timestamped lines deliver nothing and end an entry |
| EntryLaws.EveryInputReads | crates/core/src/log_parser.rs:441-507 | every input is undated lines followed by entries |
| EntryLaws.TextEntryLaw | crates/core/src/parsing/log_entry_parser.rs:87-115 | an entry with a query of any number of lines, a node line, and anything undated delivers one plan: of all query lines joined by newlines, and all plan lines |
| EntryLaws.JsonEntryLaw | crates/core/src/parsing/plan_builders.rs:225-256 | an entry with a JSON document, cut into lines anywhere, delivers the document's plan at its last bracket and ignores what follows |
| EntryLaws.OpenJsonEntryLaw | crates/core/src/parsing/log_entry_parser.rs:41-51 | an entry whose JSON document breaks off, at the next timestamped line or at the end, is tried as it is |
| LogParser.SplitLaw | crates/core/src/log_parser.rs:343-514 | for every input and every cut at a line that starts an entry, if the cap is not met behind the cut, the plans of the whole are those of the prefix followed by those of the suffix, whatever the cap does in the prefix |
| SplitExact.SplitLawExactly | crates/core/src/log_parser.rs:415-482 | for a suffix of any number of entries that on its own loses none, where every entry has a plan to deliver, the law holds exactly if the cap is not met across the cut |
| SplitExact.SplitLawDespiteLosses | crates/core/src/log_parser.rs:415-482 | the law also holds for a suffix that loses entries on its own, if the carried counter makes it lose the same ones |
| SplitExact.DeliveredIsDelivering | crates/core/src/log_parser.rs:457-514 | continuation lines that deliver a plan throw nothing away and leave nothing undeliverable open |
| EntryBytes.OpenEntryBounded | crates/core/src/log_parser.rs:415-430 | at every line of every input the query and plan lines of the open entry are at most the counter long, one character per line that lost its newline, and the query text recovered from rejected JSON documents; the counter is at most the cap |
| EntryBytes.RejectedExactly | crates/core/src/parsing/plan_builders.rs:181-275 | a line that closes a rejected document leaves more than query and lines behind exactly if it leaves a longer query behind, and that much more |
| EntryBytes.OpenEntryDoubled | crates/core/src/parsing/plan_builders.rs:181-275 | the open entry never holds more than twice the counter and one character per line that lost its newline, if a recovered query is no longer than its document |
| Rejected.HoldsMoreThanCounted | crates/core/src/parsing/plan_builders.rs:181-275 | a plan header and the document `{"Query Text": "x"}`: 20 bytes counted, the cap just met, 21 characters held |
| EntryBytes.CapActsAtPeak | crates/core/src/log_parser.rs:415-430 | the entry cap discards exactly if the counter's peak in an uncapped parse passes it; otherwise it changes nothing |
| EntryBytes.CounterIsChain | crates/core/src/log_parser.rs:415-430 | while an entry is open, the counter is the bytes of the unbroken chain of entries that led to it, the chain's first line excepted |
| EntryBytes.DiscardsExactly | crates/core/src/log_parser.rs:415-482 | the cap throws something away exactly if an unbroken chain of entries, its first line excepted, is longer than the cap |
| EntryCap.CapCountsAcrossEntries | crates/core/src/log_parser.rs:415-482 | two auto_explain entries in a row, each exactly as large as the cap: however their lines are read as plan header, query and node, the second is discarded in one parse and delivered on its own |
| Lossy.LossyIsInvisible | crates/pg_extension/src/bgworker.rs:221-228 | where neither cap acts, a parse of lossily decoded text delivers what a parse of its bytes does |
| Lossy.RecodeStarts | crates/pg_extension/src/bgworker.rs:221-228 | what starts an entry still does once decoded |
| Lossy.LossySplitLaw | crates/pg_extension/src/bgworker.rs:148-174 | decoding and parsing two slices apart delivers what decoding and parsing them as one does |
| LogParser.CutLineKeeps | crates/core/src/log_parser.rs:363-376 | a line longer than the line cap keeps as many of its first bytes, any other is kept whole |
| LogReader.BufReader.SkipLine | crates/core/src/log_parser.rs:377-396 | discards exactly the rest of the line, however refills cut it |
| LogReader.NextLine | crates/core/src/log_parser.rs:363-413 | delivers the next line cut to the cap, and consumes exactly the line |
| LogReader.EntryMachine.Feed | crates/core/src/log_parser.rs:418-507 | updates state, database and counter as one step of the specification does, delivering the same plan |
| LogReader.ParseIntoSink | crates/core/src/log_parser.rs:317-528 | for every input, cap and chunking the sink ends with what it would have taken of all plans, although reading stops once it is full; truncation is reported exactly if input was left; bytes processed are bytes consumed |
| ReadGroups.ParseIntoGrouper | crates/core/src/log_parser.rs:565-579 | the same with a grouper for a sink |
| ReadGroups.ParseAndTake | crates/exporter/src/collector.rs:692-745 | bytes parsed into a grouper and taken are the groups of the first plans of the parse that pass its filter, up to its cap; whether the parse ends or fails half-way, the grouper is left clean |
| Fingerprints.FingerprintCache.Get | crates/core/src/grouping.rs:103-118 | a hit answers and becomes the most recent, a miss changes nothing |
| Fingerprints.FingerprintCache.Insert | crates/core/src/grouping.rs:120-139 | the entry is there, the others stay but for the least recently used one, and the two maps stay inverse |
| Fingerprints.FingerprintCache.Evict | crates/core/src/grouping.rs:120-139 | removes exactly the last of the recency order |
| Fingerprints.BoundedIsRecentEnd | crates/core/src/grouping.rs:82-154 | after any run of accesses a bounded cache holds the most recent end of what an unbounded one holds |
| Fingerprints.HoldsMostRecent | crates/core/src/grouping.rs:82-154 | a hash is cached exactly if it was accessed and fewer than the capacity of other hashes were accessed since |
| Fingerprints.Inclusion | crates/core/src/grouping.rs:82-139 | after any run of accesses a smaller cache's contents are in a larger one's |
| Fingerprints.AheadIsSince | crates/core/src/grouping.rs:82-101 | the hashes ahead of one in recency are those accessed since it |
| Fingerprints.FingerprintFor | crates/core/src/grouping.rs:175-190 | every resolution is an access, and the answer is that of normalization |
| Groups.GroupKeyInjective | crates/core/src/grouping.rs:167-173 | two databases never share a group, nor do two fingerprints, with or without a database |
| Groups.GroupsAreClasses | crates/core/src/grouping.rs:443-481 | two plans share a group exactly if both have the same database, or both none, and normalization, or the hash in its place, answers alike; each group is what its plans in order amount to, and there are no others |
| Groups.SummaryMeaning | crates/core/src/grouping.rs:193-243 | a group's representative is the last of its slowest executions, its executions are in order, its time range is tight |
| Groups.LastSlowestUnique | crates/core/src/grouping.rs:221-243 | there is one last slowest execution |
| Groups.CombinedAssociative | crates/core/src/grouping.rs:245-266 | merging accumulators is associative, ties included |
| Groups.MergedAssociative | crates/core/src/grouping.rs:506-522 | merging groups is associative |
| Groups.GroupsAppend | crates/core/src/log_parser.rs:715-768 | the groups of two sequences of plans in a row are the merged groups |
| Groups.ReductionIsOnePass | crates/core/src/log_parser.rs:707-768 | however adjacent per-file results are parenthesised, empty ones included, the outcome is one left-to-right pass |
| Groups.TakesFirstPassing | crates/core/src/grouping.rs:455-481 | a sink takes the first plans its filter passes, up to its cap, and reports a drop exactly if more passed |
| Groups.TakesFirstInRange | crates/core/src/models.rs:354-368 | with a date filter a sink takes the first plans from `since` to `until`, both included, up to its cap |
| Grouping.GroupAccumulator.Push | crates/core/src/grouping.rs:221-243 | the accumulator's group is combined with the plan's |
| Grouping.GroupAccumulator.Merge | crates/core/src/grouping.rs:245-266 | the accumulator's group is combined with the other's |
| Grouping.QueryGrouper.Fingerprint | crates/core/src/grouping.rs:443-455 | neither memo nor cache shows in the answer |
| Grouping.QueryGrouper.Fold | crates/core/src/grouping.rs:455-481 | the grouper is offered the plan: filtered, refused at the cap, or grouped |
| Grouping.QueryGrouper.Merge | crates/core/src/grouping.rs:506-522 | the groups afterwards are those of both plan sequences in a row, and a truncation on either side stays known |
| Grouping.QueryGrouper.TakeGroups | crates/core/src/grouping.rs:524-533 | hands out the groups and starts over, with the cache kept |
| Batch.ProcessQueryGroup | crates/core/src/log_parser.rs:841-886 | the fused pass over indices is the group's summary |
| Batch.GetProcessedQueries | crates/core/src/log_parser.rs:788-837 | index lists, batch-local memo and cache yield exactly the groups |
| Batch.StreamedAndBatched | crates/core/src/log_parser.rs:782-837 | for every plan sequence, filter and cap, and any sound caches and memo to start from, streaming and batching the first passing plans give the same groups |
| Boundaries.LastEntryBoundary | crates/exporter/src/collector.rs:108-130 | finds the start of the last complete timestamped line |
| Boundaries.LastCompleteBoundary | crates/pg_extension/src/bgworker.rs:230-249 | finds the last entry header, given two |
| Boundaries.LastStartMeaning | crates/exporter/src/collector.rs:112-126 | the line found is accepted and none after it is |
| Boundaries.BoundaryIsGoodCut | crates/exporter/src/collector.rs:108-130 | such a line found in any window is a safe cut of every file that extends the window |
| Boundaries.HeaderNeedsBoth | crates/pg_extension/src/bgworker.rs:251-262 | an entry header is a timestamped line with both words |
| Boundaries.HeaderPrefix | crates/pg_extension/src/bgworker.rs:251-262 | an entry header stays one however its line goes on |
| Collector.LogCollector.ProcessLogFile | crates/exporter/src/collector.rs:358-569 | one poll cycle moves checkpoint, counters and emissions as the specified step does, and what is scraped stays what was emitted |
| Collector.LogCollector.ProcessRemainingContent | crates/exporter/src/collector.rs:571-661 | the shutdown flush moves them as the specified step does |
| Collector.LogCollector.ParseRange | crates/exporter/src/collector.rs:670-769 | where a parse stops when the open tail is held back |
| Collector.StepKeepsSound | crates/exporter/src/collector.rs:358-569 | every step keeps the emissions tiling the checkpoint |
| Collector.TailIsHeldBack | crates/exporter/src/collector.rs:451-464 | over any events whatever, a poll reads to the end of a file only if the two observations before it since the last restart found the same time and size; any other slice ends where a complete timestamped line begins |
| Emission.Metrics.EmitQueryMetrics | crates/exporter/src/collector.rs:771-834 | the queries of a slice are counted all or none, and none if the state batch fails; without queries nothing can fail |
| Collector.LogCollector.EmitAndSave | crates/exporter/src/collector.rs:540-569 | the counters grow by the queries of the slice exactly if the emission is logged; the checkpoint moves behind them, if its write succeeds |
| Collector.CycleCountsAllOrNone | crates/exporter/src/collector.rs:531-569 | a cycle counts all queries of its slice or none, the checkpoint does not move without them, and behind a failed batch neither happens |
| Collector.FailedBatchIsInvisible | crates/exporter/src/collector.rs:531-569 | a slice whose emission fails moves neither checkpoint nor emissions |
| Collector.EmptySliceNeedsNoBatch | crates/exporter/src/collector.rs:787-789 | a slice none of whose queries pass the filters goes the same way whatever the state batch would have answered |
| Collector.SavedRangesTile | crates/exporter/src/collector.rs:531-569 | tiling ranges cover each committed byte once and no other |
| Collector.TailingIsTiled | crates/exporter/src/collector.rs:358-661 | over any run of appends, stalls, restarts, failed batches and failed checkpoints, each committed byte was emitted, exactly once if no checkpoint failed |
| Collector.TailingIsOnePass | crates/exporter/src/collector.rs:358-769 | if flushes end at entry ends and the entry cap throws nothing away in front of the checkpoint, the plans of the emissions whose checkpoint held are those of one parse of everything in front of it; all emissions, if no checkpoint failed |
| Liveness.CycleAdvancesOrDoubles | crates/exporter/src/collector.rs:451-484 | a healthy cycle moves the checkpoint or doubles the budget once more |
| Liveness.TailingAdvances | crates/exporter/src/collector.rs:1094-1108 | if a complete timestamped line ends within 2^20 times the budget, at most 21 healthy cycles move the checkpoint, even while the file grows |
| Liveness.TailingReaches | crates/exporter/src/collector.rs:451-484 | if that is so wherever the checkpoint may stop, at most 21 healthy cycles for each timestamped line bring it to the last one |
| Liveness.TailingDrains | crates/exporter/src/collector.rs:429-484 | once the file stops growing, 24 more bring the checkpoint to its end |
| Liveness.OutOfReachStays | crates/exporter/src/collector.rs:1094-1108 | while no timestamped line ends within 2^20 times the budget, no number of healthy cycles moves the checkpoint |
| Collector.SkipsExactly | crates/exporter/src/collector.rs:485-528 | the checkpoint passes bytes not emitted exactly at a third failed parse in a row whose skip is saved |
| TailHistory.SkipsThirdFailure | crates/exporter/src/collector.rs:485-528 | in terms of events: a range is skipped exactly if its parse fails, the two attempts before it failed with none between that did not, and the skip is saved; the checkpoint is then at the file's end |
| TailHistory.SliceWithinBudget | crates/exporter/src/collector.rs:1094-1108 | a slice is no longer than the budget doubled for each stalled cycle, and ends the stalling |
| TailHistory.SaveRecords | crates/exporter/src/collector.rs:556-567 | a saved emission leaves the file's identity, size and time, and where the slice ended |
| TailHistory.OtherFileStartsOver | crates/exporter/src/collector.rs:404-431 | a file with another identity than at the last save, or shorter, is emitted from its beginning |
| TailHistory.SameFileGoesOn | crates/exporter/src/collector.rs:404-431 | any other is emitted from the checkpoint on |
| TailHistory.SkipIsForgotten | crates/exporter/src/collector.rs:500-517 | a skip of a replaced file's range does not survive the next poll |
| BgWorker.Worker.ReadChunk | crates/pg_extension/src/bgworker.rs:206-228 | finds the complete entries of a window in the raw bytes, starting over on a shrunk file, and returns them decoded |
| BgWorker.Worker.Flush | crates/pg_extension/src/bgworker.rs:148-176 | what is aggregated is the decoded chunk; rows and offset move together or not at all |
| BgWorker.HeaderInFile | crates/pg_extension/src/bgworker.rs:230-262 | a header at the end of a read window is a header in the file |
| BgWorker.TicksKeepConsistent | crates/pg_extension/src/bgworker.rs:148-228 | over any schedule and read window the committed chunks spell the file up to the offset, which is 0 or an entry header |
| BgWorker.IngestIsOnePass | crates/pg_extension/src/bgworker.rs:148-262 | the plans of the committed chunks, each decoded on its own, are those of one parse of everything in front of the offset: of its decoded text if the entry cap throws nothing of that away, of its bytes if neither cap acts on either |
| BgWorker.AdvancesExactly | crates/pg_extension/src/bgworker.rs:230-249 | a committed tick advances exactly if its window holds two entry headers |
| BgWorker.AdvancesToLast | crates/pg_extension/src/bgworker.rs:230-249 | and then to the last header of the window |
| BgWorker.ShrunkFileStartsOver | crates/pg_extension/src/bgworker.rs:205-217 | a committed tick on a file shorter than the offset, and every tick after it, ingests what a new worker would |
| BgWorker.ReplacedFileIsOnePass | crates/pg_extension/src/bgworker.rs:148-262 | so the plans of one parse of the new file are added |
| PlanTree.ParseNodeTree | crates/core/src/plan_parser.rs:1705-1761 | the index loop parses as the recursive grammar does, errors included |
| PlanTree.SubtreeInterval | crates/core/src/plan_parser.rs:1731-1740 | a subtree is exactly the lines up to the first one not deeper than its root |
| PlanTree.NodeMeasures | crates/core/src/plan_parser.rs:1712-1748 | the tree's preorder is exactly the node lines consumed, and its depth never exceeds 256 |
| PlanTree.PreorderCounts | crates/core/src/plan_parser.rs:1146-1152 | the node count is the length of the preorder |
| PlanTree.TreeByStack | crates/core/src/plan_parser.rs:1731-1755 | every line, one by one, belongs to the innermost node still open: as child or as property |
| PlanErrors.RefusedExactly | crates/core/src/plan_parser.rs:1712-1748 | a plan is refused exactly if it has no line, does not begin with a node, or has in its first tree a node that is the 257th inside the other or whose cost cannot be read; the first such node is the error |
| PlanText.IndentedReads | crates/core/src/plan_parser.rs:1670-1688 | a line's leading spaces are counted and trimmed off |
| PlanText.LeadingSpacesAre | crates/core/src/plan_parser.rs:1670-1688 | only spaces indent, and all in front do |
| PlanText.TerminatorsReadAlike | crates/core/src/plan_parser.rs:1645-1667 | lines may end in CR LF |
| PlanText.BlankLinesDoNotMatter | crates/core/src/plan_parser.rs:1645-1667 | a line of white space may stand anywhere |
| PlanText.PrintedLinesReadBack | crates/core/src/plan_parser.rs:1645-1667 | a printed tree's text reads back as its lines |
| PlanText.PrintedTreeParsesBack | crates/core/src/plan_parser.rs:1398-1406 | any tree printed in the 0, 2, 8, 14, ... layout parses back to itself, properties and order included, exactly if it is at most 256 deep |
| Hook.SampleMap.ExecutorStart | crates/pg_extension/src/hook.rs:433-453 | a stale entry is swap-removed, ours is pushed, the front is evicted at the cap |
| Hook.SampleMap.ExecutorEnd | crates/pg_extension/src/hook.rs:457-463 | the entry at the address is taken out, if any |
| Hook.SampleMap.XactCallback | crates/pg_extension/src/hook.rs:141-146 | nothing survives a transaction |
| Hook.PendingIsLatestStart | crates/pg_extension/src/hook.rs:427-453 | a query is pending exactly if the last event at its address is an owned start |
| Hook.RunIsSound | crates/pg_extension/src/hook.rs:131-146 | for any interleaving: one entry per address, at most 1024, each the pending query's |
| Hook.EndTakesItsOwnStart | crates/pg_extension/src/hook.rs:457-463 | an end is given the settings of the latest start at its own address, or nothing |
| Hook.NothingLostIffFew | crates/pg_extension/src/hook.rs:439-442 | every end finds its start, throughout a run, exactly if never more than 1024 queries are pending |
| Hook.OrderedIffRemovedAtEnd | crates/pg_extension/src/hook.rs:425-463 | the map is in the order of the starts throughout a run exactly if every end, and every start over a stale entry, hits one of its last two slots |
| Hook.OldestIsEvicted | crates/pg_extension/src/hook.rs:439-442 | in such a run a start on a full map evicts the entry that started first |
| Hook.EvictedFromFront | crates/pg_extension/src/hook.rs:439-453 | from a full map, each of at most 1024 new queries evicts one entry and no other: the old map's, from its front on |
| Hook.EvictsOldestFirstIff | crates/pg_extension/src/hook.rs:436-442 | a full map evicts in the order of the starts, whichever new queries start, exactly if it stands in that order |
| Hook.EvictionSkipsTheOldest | crates/pg_extension/src/hook.rs:436-442 | a run of 1024 starts, an end and two starts loses a query that started last before the end, while the one that started first of those pending is kept |
| DurationStats.CalculateGroupDurationStats | crates/core/src/parser_utils.rs:548-598 | two passes and one in-place sort give what the separate sum, mean, deviation, extremes and percentiles give |
| DurationStats.StatsOfPermutation | crates/core/src/parser_utils.rs:485-598 | the order of the durations does not matter |
| DurationStats.SortedEnds | crates/core/src/parser_utils.rs:508-517 | the ends of the sorted durations are their extremes |
| DurationStats.PercentileLaws | crates/core/src/parser_utils.rs:601-616 | interpolated percentiles are monotone and between the extremes, for every sample |
| DurationStats.PercentileAtRank | crates/core/src/parser_utils.rs:601-616 | a percentile that falls on a rank is the element of that rank, so 0 is the minimum and 100 the maximum |
| DurationStats.PercentilesOrdered | crates/core/src/parser_utils.rs:519-546 | minimum, p25, p50, p90, p95, p99, maximum are in order |
| DurationStats.PercentileInterpolates | crates/core/src/parser_utils.rs:601-616 | between neighbouring ranks a percentile is linear in its number, for every sample; only one value is |
| DurationStats.MomentsMeaning | crates/core/src/parser_utils.rs:548-598 | the statistics hold the sum, the mean, the square root of the sample variance, and extremes that bound the durations and are among them |
| DurationStats.PercentilesMeaning | crates/core/src/parser_utils.rs:519-546 | their percentiles stand at 25, 50, 90, 95 and 99 hundredths of the durations in order |
| DurationStats.VarianceFromSums | crates/pg_extension/sql/schema.sql:99-105 | the variance computed from the stored sums is the mean squared deviation, never negative |
| Rollup.PartsAddUp | crates/pg_extension/src/aggregate.rs:239-254 | sums over the parts of any split by key add up to the whole |
| Rollup.PartsAppend | crates/pg_extension/src/lib.rs:404-427 | the parts of two batches are the parts of both, joined where they share a key |
| Latency.BucketLe | crates/core/src/latency.rs:15-21 | a duration lies in a bucket up to `b` exactly if it does not exceed bound `b` |
| Latency.CumulativeIsLe | crates/pg_extension/sql/schema.sql:197-208 | cumulative bucket counts are counts of durations within the bound |
| Latency.HistogramAppend | crates/pg_extension/sql/schema.sql:157-166 | bucket arrays of two batches add pointwise |
| StatRow.GenerateHourlyHistogram | crates/core/src/parser_utils.rs:618-645 | the map filled in one loop holds, per hour, count, sum and extremes of that hour's executions |
| StatRow.HourlyMeans | crates/core/src/parser_utils.rs:647-653 | the second loop gives each hour the mean of that hour's durations |
| StatRow.KeysTruncate | crates/pg_extension/src/aggregate.rs:240-249 | minute and hour keys are where the execution's minute and hour begin, also before the epoch |
| StatRow.BreachesOrWithin | crates/pg_extension/src/aggregate.rs:95-104 | a duration breaches a positive threshold exactly if it is not within it as a bound |
| StatRow.BucketsAndMinutes | crates/pg_extension/src/aggregate.rs:238-254 | the loop's buckets and minute windows are those of the executions, per minute |
| StatRow.BuildStatRow | crates/pg_extension/src/aggregate.rs:185-283 | the row built is the specified one |
| RowLaws.RowAddsUp | crates/pg_extension/src/aggregate.rs:185-283 | a row's calls and time are those of its plans, and of its hours and its minutes together |
| RowLaws.RowSpread | crates/pg_extension/src/aggregate.rs:262-275 | the variance computed from a row's own sums is the mean squared deviation of its plans' durations |
| RowLaws.RowExtremes | crates/pg_extension/src/aggregate.rs:262-275 | its extremes bound the durations and are among them |
| RowLaws.RowRange | crates/pg_extension/src/aggregate.rs:262-283 | it names the last of the slowest plans, and its times are those of the first and the last plan |
| RowLaws.RowBreaches | crates/pg_extension/src/aggregate.rs:95-104 | its breaches are the durations above a positive threshold, none otherwise |
| RowLaws.RowWithin | crates/pg_extension/src/aggregate.rs:95-104 | with those within a positive threshold they are all calls |
| RowLaws.RowHours | crates/core/src/parser_utils.rs:618-645 | it has an hour exactly if a plan lies in it, with the count, time and extremes of the plans that do |
| RowLaws.RowMinutes | crates/pg_extension/src/aggregate.rs:238-254 | it has a minute exactly if a plan lies in it, with the calls, time and latency buckets of those that do |
| Statements.MaxIsRepresentative | crates/pg_extension/src/lib.rs:387-392 | a row's maximum is its representative's duration, so comparing maxima compares representatives |
| Statements.RowAppend | crates/pg_extension/src/lib.rs:366-402 | upserting a batch's row gives the row of both batches' executions: representative, sums, extremes, buckets, hours, minutes |
| Statements.BatchesAreOnePass | crates/pg_extension/src/lib.rs:366-427 | however executions are cut into batches, the table is that of one pass over all of them |
| Retention.RetainedIsOnePass | crates/pg_extension/src/lib.rs:474-580 | with minutes older than the write cut not written and those older than an earlier purge cut deleted, every row has, from the last write cut on, exactly the minutes one pass over all plans would give it, and everything else as one pass would |
| Retention.PurgedIsGone | crates/pg_extension/src/lib.rs:574-579 | no minute older than the last purge cut is left in any row |
| Statements.WindowsConserve | crates/pg_extension/src/aggregate.rs:238-254 | minute windows add up to the row: calls, time and every latency bucket |
| Statements.HoursConserve | crates/core/src/parser_utils.rs:618-654 | hourly buckets add up to calls and time |
| Statements.BucketsConserve | crates/pg_extension/src/aggregate.rs:238-242 | latency buckets count every call once, and cumulatively the calls within each bound |
| WorkerTable.TableIsOnePass | crates/pg_extension/src/bgworker.rs:148-228 | over any schedule of ticks on a growing file, aborted ones included, the statistics table is that of a single parse up to the committed offset, of decoded text or of bytes as above |
| WorkerTable.RetainedTableIsOnePass | crates/pg_extension/src/bgworker.rs:148-228 | the same with retention: of the minutes, those from the last write cut on |

## Left out

- SplitExact.SplitLawExactly: suffixes that lose an entry on their own. There the law may hold although different entries are lost, whose plans happen to coincide; `SplitExact.SplitLawDespiteLosses` says when the same ones are.
- LogParser.SplitLaw: a line cap of fewer than 19 bytes, which would cut timestamps.
- Lossy.LossyIsInvisible: texts on which a cap acts; the caps count bytes, and decoding changes how many there are.
- Collector.TailingIsOnePass: needs flushes of a file found unchanged, and of a shutdown, to end at entry ends and no third failed parse in a row; the first is a matter of what the server wrote, the second is `TailHistory.SkipsThirdFailure`. It counts all plans of a slice: with a plan cap per file the rest of a slice is skipped by design (`crates/exporter/src/collector.rs:714-725`).
- Collector.TailingIsTiled: one file of one identity; rotation and truncation start over and are part of the step, not of the run.
- Collector.LogCollector.EmitAndSave: which queries of a slice pass the filters is part of the cycle, and a query counts as one, whatever series it moves.
- Collector.LogCollector.ProcessLogFile: compressed files, which are ingested in one shot and checkpointed at their full size.
- Collector.LogCollector.ParseRange: where a parse stops, not the groups it takes; those are `ReadGroups.ParseAndTake`.
- Liveness.TailingDrains: cycles that fail, which are tried again, and files above the size limit, which are skipped.
- BgWorker.IngestIsOnePass: the file only grows; for a file that was replaced by a shorter one see `BgWorker.ReplacedFileIsOnePass`. One replaced by a longer file cannot be told from one that grew.
- LogReader.ParseIntoSink: I/O errors in the middle of the input.
- EntryBytes.OpenEntryBounded: counts characters of text, not bytes of its encoding.
- DurationStats.CalculateGroupDurationStats: exact reals instead of IEEE doubles, so no claim about rounding; the square root is a parameter; the library's sort stands for its promise.
- StatRow.BuildStatRow: complexity, metadata and plan analysis of the representative, which depend on it alone, and the query identifier of hook captures.
- Statements.BatchesAreOnePass: a threshold that changes between batches; and the key of a plan without a database, which the log path stores under the name `unknown` (`crates/pg_extension/src/aggregate.rs:143-144`), where it would meet a database really called that. What retention does to minutes is `Retention.RetainedIsOnePass`.
- PlanText.PrintedTreeParsesBack: a node keeps its line and its property lines as text; classifying node types and reading property keys are branch tables. `parse_plan_from_lines`, which takes lines already indented, shares `PlanTree` and is not modelled apart.
- CostTuple.ParseCostTuple: decimals are exact; doubles round and overflow to infinity.
- Hook.RunIsSound: the capture itself, sampling, the re-entrancy flag and nesting depth.
- Fingerprints.FingerprintFor: hash collisions; the code accepts the first text's answer for all of them.
- The text and JSON plan builders, SQL normalization, calendar parsing of timestamps, time zones: functions the model takes as given.
- Decompression and gzip magic numbers.
- SQLite, SPI and the write-ahead log behind a state write; the write is one step that may fail.
- Integer widths, where the code saturates or cannot reach them: only the read budget's saturation at 64 bits is modelled.
- The high-cardinality warnings, progress callbacks, logging, metrics export, terminal and HTTP front ends.
