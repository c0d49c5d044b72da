# A verified model of an AFF4 forensic-image reader

This project models, in Dafny, the parts of the reader whose correctness cannot be seen from one function: the
places where a fast, concurrent, cached or streaming form has to agree with a simple definition, and the places where
names are translated and have to stay distinct. Each algorithm that changes state step by step is a method or a
class proved against a specification; what the program promises is then proved of the specification, for every input,
every slicing and every interleaving. Where a promise turned out not to hold, the condition under which it holds is
proved exactly, with a case that shows the failure.

`dafny verify dfyconfig.toml` checks everything.

## What is modelled

**Streams and maps.** `Streams` reads a compressed stream whole and by region, and proves when the two agree. `Sources`
puts the two caches and the hand-over of the volume between readers in front of it. `Coverage` parses a map into entries
that tile the image, `Maps` reads an image entry by entry, `RandomAccess` fills a buffer from any offset.

**The parallel image read.** `Sequential` decides whether image order is each stream's own order. `Images` reads each stored
stream once, whole, in arbitrary slices, and cuts it back into the map's entries; `FastRead` proves that read to refine the
entry-by-entry one. `Pipeline` models the threads that read one stream as a state machine, one
step for each look a thread takes at what is shared, the governor that admits readers included; `ThreadPlans` derives its
bounds from a thread plan as the program does. `PipelineProgress`, `PipelineOutcome` and `PipelineShutdown` prove that it never
deadlocks before joining its threads, when a read succeeds, and that its work is bounded; `PipelineHang` when joining the
threads can wait forever; `PipelineReport`, `PipelineTurns` and `PipelineOvertaking` exactly when every run reports the same
failure. `PipelineRuns` puts concrete runs together. `StreamReading` closes the gap: a stream read either way satisfies what
the image read relies on.

**The multi-hasher.** `Hashing` starts the algorithms as the program does and models feeding and finishing them as a state
machine over bounded channels.

**Multi-part sets.** `NaturalOrder` is the order of part names, `PartNames` recognises and numbers them and finds the name a set
shares, `PartNumbering` and `PartSets` find a set in a folder, check it for gaps and judge its naming.

**Dates.** `CivilDates` proves the closed-form day count to be the proleptic Gregorian calendar, and the writer's closed form
to be its inverse; `Timestamps` reads and writes RFC 3339 (section 5.6) text over them.

**Summaries.** `Merging` merges the objects of several volumes through an index, `SegmentTally` tallies a volume's members,
`BriefSummary` counts objects and keeps what a brief report can show.

**Names out of the container.** `Utf8`, `Escaping` and `Arns` map resource names to ZIP member names; `Exporting` places a recorded
path beneath the target and `Destinations` gives every exported file a destination of its own.

`Basics`, `Deliveries`, `Sorting`, `Appearances` and `Runs` hold what several modules share. A `Delivery` is the value of a read,
the bytes in order and the error that ended them; a `Sink` may refuse a piece, and every read is specified for sinks that do.

## What was found

Where the code and its documentation differ, the model follows the code.

- A pipelined read can wait forever for its own threads after a failure: `PipelineHang.CanHang`, with a stream, a plan and a ramp of
  the governor the program can have. Over all streams of a given bevy size a plan always joins its threads if and only if it may
  admit at most two readers more than it starts, or that many decompressed bevies fit a third of the byte budget
  (`JoinsExactlyWhen`): with two starting readers and seven or more workers, bevies of up to 44,739,242 bytes (`UsualPlanJoins`).
- A pipelined read does not always report the earliest failing bevy, nor the same one from run to run, as src/parallel.rs:513-518 and
  950-951 say it does. Every run reports the first bevy that fails in stream order if and only if that bevy cannot be read at
  all, or no later bevy within reach of the readers can fail while it is in hand; what is within reach is a formula in the plan,
  its lookahead and its readers (`PipelineOvertaking.ReportsFirstTroubleExactlyWhen`). Under every plan some storage of three bevies is
  reported differently from run to run (`EveryPlanCanBeOvertaken`, `ReportDependsOnTiming`).
- A pipelined read fails on a chunk listed past the stream's end that does not decode; the serial read never looks at it:
  `PipelineOutcome.SurplusChunkFails`.
- A whole read accepts a bevy whose index is short by a chunk when a later bevy has one to spare, and puts every later byte at the
  wrong offset; a read by region refuses it: `Streams.ShortIndexAccepted`. A read by region succeeds if and only if the whole read
  does and every index is full (`WholeAgreesWithRegions`), and the promise of src/image.rs:293-299 holds under the same condition
  (`FastRead.FastRefinesSimple`, `ReadOneStreamImage`); the image of that stream is read fast and refused entry by entry
  (`ShortIndexReadFast`).
- `MultiHasher::finish` returns digests in the order of the request if and only if no algorithm was given a thread, not always as
  src/hash.rs:392-393 says: `Hashing.OrderKeptExactlyWhenInline`.
- `discover` refuses a set named by the documented scheme whose base name is itself a number, such as `2024.aff4` and `2024.aff4.1`, as
  having a gap (`PartSets.NumberedBaseRefused`). It accepts such a set if and only if the base is numbered zero
  (`GeneratedSetAcceptedExactlyWhen`), that is, if its stem's last digit run is none, belongs to a word, exceeds 32 bits or
  spells zero (`PartNames.NumberedZeroExactlyWhen`).
- `trailing_number` reads the last digit run of a stem wherever it stands, not only at the stem's end as src/multi_part.rs:166-171
  says: `case_7_final` is part 7 (`PartNames.NumberInTheMiddle`). It does what is documented if and only if the stem ends
  in a digit or its last run is none, belongs to a word or exceeds 32 bits (`TrailingNumberDocumentedExactlyWhen`).
- Two different names tie under `natural_cmp` if and only if a digit run of theirs saturates: `NaturalOrder.TiesOnlyWithItselfExactlyWhen`.
- `parse_rfc3339` is documented to give nothing rather than a guess for a text that is no timestamp (src/main.rs:1487-1489). It does so
  if and only if a field of the text is no number, or five bytes or more follow its first sign and bytes 0-1 or 3-4 of them are
  no number; it guesses at every other text that is no timestamp of RFC 3339 (`Timestamps.ReadsAsDocumentedExactlyWhen`).
  Days a month does not have are read into the next one (`ThirtiethOfFebruary`; exactly when a date survives is
  `CivilDates.ReadAsWrittenExactlyWhenValid`). With fewer than five bytes after its sign an offset is dropped and the local
  time taken for UTC, so `+0530` and `+5:30` are; otherwise its minutes are bytes 3-4, so `+053000` is applied as five
  hours (`OffsetDecides`, `OffsetMisread`). An offset without the colon is applied as written if and only if it is `0000` and ends the
  text, or its minutes are one digit twice and that digit follows them once more (`CompactAppliedExactlyWhen`).
- The brief summary drops case fields carried by image-typed objects, although case carriers are documented as kept
  (src/container.rs:2304-2305): `BriefSummary.CaseFieldLost`. A carrier is kept if and only if it is not image-typed, declares a type
  not yet shown, or has a hash while fewer than 64 hashed objects are kept (`CarrierKeptExactlyWhen`); the case line holds the
  same values if and only if, for each field, the first carrier kept records what the first carrier does
  (`CaseLineKeptExactlyWhen`).
- A component such as `CON.txt` keeps its reserved stem, as `CON.txt_`, and in a path that is not UTF-8 no component is checked
  for reserved stems: `Exporting.ReservedStemLeftExactlyWhen`, `ReservedKeptAsBytes`, `ReservedPathKept`, `ReservedRenamed`.
- The 10,000th file that asks for one destination is given it although the first has it, and nothing is reported; up to 9,999 files
  never share one: `Destinations.TenThousandthCollides`, `RunIsInjective`. After a rename the reported `written` is the
  file name alone, and so the path beneath the target that src/export.rs:100-101 describes if and only if the file lies
  directly there: `WrittenIsPathExactlyWhen`.
- A name inside a volume takes the ZIP member of a name outside it if and only if its path spells that name out, under the
  escaped mapping with the volume escaped and free of spaces (`Arns.MixedMembersAgree`, `LocalMeetsForeign`); two names of one
  volume that spell a space differently take the same member (`SpellingsCollide`). An authority may be empty, if and only if a
  range suffix follows the scheme directly: `Arns.AuthorityEmptyExactlyWhen`, `EmptyAuthorityBeforeRange`.

## Model

| member | source | states |
|---|---|---|
| `Streams.RegionFromIsPlain` | src/stream.rs:591-652 | from any position a region is delivered whole exactly when each of its bytes can be produced, and then it is the stream's plaintext; a read that fails has delivered a beginning of it |
| `Streams.RegionIsPlain` | src/stream.rs:591-652 | a region read succeeds exactly when it lies inside the stream and all its bytes can be produced |
| `Streams.ReadAllObserved` | src/stream.rs:302-400 | the loops over bevies and chunks deliver the serial read, short chunks and a short stream refused, whatever the sink refuses |
| `Streams.ReadChunks` | src/stream.rs:340-384 | one bevy's chunks are delivered in order, cut at the declared size, a short chunk with stream bytes after it refused |
| `Streams.WholeAgreesWithRegions` | src/stream.rs:302-400 | reading the whole extent by region succeeds exactly when the serial read does and every bevy index lists the chunks the size calls for; both then give the plaintext |
| `Streams.SerialReadIsPrefix` | src/stream.rs:302-400 | over full indexes even a serial read that fails has delivered only a beginning of the stream |
| `Streams.ShortIndexAccepted` | src/stream.rs:63-85 | a concrete stream read whole with bytes at the wrong offsets and refused by region |
| `Sources.ChunkReader.ReadRegion` | src/stream.rs:591-652 | a reader with its caches in any valid state delivers exactly what an uncached read delivers, and stays valid |
| `Sources.ChunkReader.ChunkBytes` | src/stream.rs:655-690 | a chunk from the cache is the chunk storage gives, and the cache's running total stays the bytes it holds |
| `Sources.ChunkReader.LoadBevy` | src/stream.rs:854-905 | a hit only moves the bevy to the end of the order of use; a newcomer goes there once the oldest have made room within the budget and no more than they must; a failure changes nothing, and all residents stay this stream's |
| `Sources.OldestMadeRoom` | src/stream.rs:884-897 | making room evicts only from the oldest on, and nothing that could have stayed |
| `Sources.ChunkReader.Restore` | src/stream.rs:554-586 | a residency of another stream is ignored, one of this stream leaves a valid reader |
| `Sources.DropOldest` | src/stream.rs:655-690 | evicting the oldest chunk lowers the running total by what that chunk holds |
| `Sources.AddNewest` | src/stream.rs:655-690 | caching a chunk raises the running total by what it holds |
| `Sources.SetStreams.ReadRegion` | src/image.rs:879-930 | over any sequence of reads, errors included, a carried residency is the stream's own and each result equals the uncached read |
| `Sources.VolumeStreams.OpenStream` | src/image.rs:776-815 | the volume is in exactly one place; opening fails only for a stream the metadata does not describe, and then changes nothing |
| `Sources.VolumeStreams.ReadRegion` | src/image.rs:818-837 | each read equals the uncached one, so the branches for a lost volume and a missing reader are never taken |
| `Maps.PhaseWithinBlock` | src/map.rs:1334-1375 | inside one block the filler's phase advances by one a byte, saturated target offsets included |
| `Maps.EmitRepeated` | src/map.rs:1308-1325 | a repeated run through a fixed buffer is that many copies of the byte |
| `Maps.EmitUnknown` | src/map.rs:1334-1375 | an unknown run delivered in pieces is byte for byte the filler that restarts in every block of the target |
| `Maps.EmitDescribed` | src/map.rs:1217-1260 | a described entry delivers its bytes and counts them under its kind; any other target is refused without output |
| `Maps.AccountToIsTally` | src/map.rs:989-1022 | over a tiled map no counter saturates: the counters are the per-kind sums and together the bytes covered |
| `Maps.ReadFromIsImage` | src/map.rs:1041-1140 | an entry-by-entry read that succeeds delivers the image |
| `Maps.ReadFromIsWhole` | src/map.rs:1041-1140 | the read succeeds exactly when every entry is delivered whole |
| `Maps.ReadAll` | src/map.rs:1041-1140 | the loop delivers the entries in order, counts every byte once, and its final size check never fails |
| `RandomAccess.EntryAt` | src/map.rs:787-800 | the binary search finds the entry covering an address, none exactly at or past the end |
| `RandomAccess.PartDelivered` | src/map.rs:1390-1500 | part of an entry, delivered whole, is that part of the entry's bytes |
| `RandomAccess.PartReadable` | src/map.rs:1390-1500 | every part of a readable entry is readable |
| `RandomAccess.PartByBytes` | src/map.rs:1390-1500 | part of an entry can be read exactly when each of its bytes can be produced |
| `RandomAccess.ReadAt` | src/map.rs:1390-1500 | the buffer holds the image's own bytes; a read stops early only at the end or where an unknown region it reports begins, and fails exactly in an unknown region it starts in or when a byte it gets to cannot be produced |
| `Coverage.ParseWith` | src/map.rs:498-590 | parsing succeeds exactly when the entries are well formed, overlap nowhere and are complete or may be filled, in whatever order stored; the result tiles the declared size and is the stored entries with gap entries added |
| `Coverage.ResolveCoverage` | src/map.rs:1514-1640 | the walk lays the sorted entries end to end, filling each hole once; the coverage it sums up is the declared size exactly when the entries fit, and the sum never overflows |
| `Coverage.ChainComplete` | src/map.rs:1514-1640 | entries laid end to end cover every address below their end |
| `Coverage.SubsetDisjoint` | src/map.rs:1514-1640 | no part of such a chain covers an address twice |
| `Coverage.HoleIsUncovered` | src/map.rs:1514-1640 | an address skipped by the walk over sorted entries is covered by none of them |
| `Coverage.OverlapIsTwice` | src/map.rs:1514-1640 | an entry starting before the previous one ends covers something twice |
| `Sequential.LayoutOf` | src/map.rs:893-915 | striped exactly when a stored target comes back after another took over, single exactly when there is one at most |
| `Sequential.IsSequential` | src/image.rs:456-499 | true exactly when the layout is not striped, every target resolves, each stream's entries form one group tiling it from 0 upward, and each named stream is covered to its declared size |
| `Images.NextEntryContinues` | src/image.rs:332-408 | the next stored entry of a stream starts where the last one ended |
| `Images.StreamEnds` | src/image.rs:332-408 | when another stream follows, this one is used up and never comes back |
| `Images.ParallelRead.EmitDescribedEntries` | src/image.rs:942-959 | described entries up to the next stored one are delivered and counted |
| `Images.ParallelRead.Feed` | src/image.rs:332-400 | a slice of any length is cut into the map's entries, the position and the bytes left staying exact; bytes past the last entry are refused, and only the image's beginning is ever out |
| `Images.ReadOneStream` | src/image.rs:332-400 | a stream ends well exactly when it was delivered whole; short and long ones fail, and the position moves on |
| `Images.ReadFromSetParallel` | src/image.rs:310-409 | whatever the streams deliver only a beginning of the image is out; under a steady sink the read succeeds exactly when every named stream was delivered whole, and then the image is out and every byte counted once; a map that fails the guard is read entry by entry |
| `FastRead.SimpleReadNeedsEveryByte` | src/image.rs:280-299 | under the guard the entry-by-entry read succeeds exactly when every byte of every named stream can be produced |
| `FastRead.OneStreamAgrees` | src/image.rs:293-299 | a stream whose reader ended well has all its bytes exactly when its indexes are full, and was then delivered as its plaintext |
| `FastRead.FastRefinesSimple` | src/image.rs:293-299 | where every reader ended well the simple read succeeds exactly when every index is full, and then both give the image |
| `FastRead.ReadBothWays` | src/image.rs:280-409 | over full indexes the fast read succeeds exactly when every reader ended well, and then gives the simple read's bytes and counts; whenever the simple read succeeds the fast bytes are a beginning of its |
| `FastRead.SimpleReadOfStream` | src/image.rs:280-299 | an image that is one whole stream is read entry by entry exactly when the stream's serial read succeeds over full indexes |
| `FastRead.ReadOneStreamImage` | src/image.rs:280-409 | of such an image, its stream read whole in any slices, the fast read succeeds with the serial read's bytes, the simple read exactly when every index is full |
| `FastRead.ShortIndexReadFast` | src/image.rs:293-299 | a concrete image read fast with bytes at the wrong offsets and refused entry by entry |
| `StreamReading.ReadStreamFits` | src/parallel.rs:1117-1133 | under any plan, pipelined or not, in every interleaving and slicing, a stream's reader gives the image read what it relies on |
| `StreamReading.PipelinedReadFits` | src/parallel.rs:952-1110 | a pipelined read hands over a beginning of the serial read, and ends well only after all of it |
| `ThreadPlans.SplitFits` | src/parallel.rs:163-285 | every plan the program makes spends exactly its budget, and keeps within it with every reader admitted in place of a worker; it is parallel exactly with two threads to spend |
| `ThreadPlans.PlannedIsArranged` | src/parallel.rs:967-999 | the queue and the lookahead derived from any plan are as wide as the pipeline's theorems ask |
| `ThreadPlans.QueueSeats` | src/parallel.rs:983-986 | the queue seats a number of readers exactly when it is at most two more than the plan starts, or that many bevies fit a third of the budget |
| `Pipeline.DeliversInStreamOrder` | src/parallel.rs:844-924 | in every run the sink holds a beginning of what the serial read delivers |
| `Pipeline.SuccessIsSerial` | src/parallel.rs:952-1110 | a run that reports success delivered exactly what a successful serial read delivers |
| `PipelineProgress.SleeperIsServed` | src/parallel.rs:844-924 | while the consumer sleeps on a bevy some thread can work, after five looks at most |
| `PipelineProgress.NeverStuckBeforeJoining` | src/parallel.rs:615-924 | no reachable state before the queue is drained is stuck |
| `PipelineOutcome.SuccessNeedsEveryBevy` | src/parallel.rs:747-924 | a run that succeeds has read and decoded every bevy |
| `PipelineOutcome.SucceedsExactlyWhen` | src/parallel.rs:952-1110 | a finished run succeeds exactly when every bevy reads and decodes and the serial read succeeds, with its bytes, whatever the interleaving |
| `PipelineOutcome.SurplusChunkFails` | src/parallel.rs:747-833 | a stream the serial read accepts and every pipelined run refuses |
| `PipelineShutdown.StepUsesUp` | src/parallel.rs:615-924 | every step that does work lowers a measure, and no look at shared state raises it |
| `PipelineShutdown.RunsAreFinite` | src/parallel.rs:952-1070 | so no run does more work than the measure at its start |
| `PipelineShutdown.NeverHangs` | src/parallel.rs:1034-1078 | with the queue as deep as there are readers no reachable state is hung, and short of the end some thread can always work |
| `PipelineHang.DoomedIsHung` | src/parallel.rs:1055-1078 | with the workers gone, the queue drained and more bevies coming than it seats, no continuation joins the threads |
| `PipelineRuns.Cruise` | src/parallel.rs:420-492 | over a sound beginning of a stream there is a run that delivers it bevy by bevy while the governor admits a reader at every report from the eighth on |
| `PipelineHang.CanHang` | src/parallel.rs:952-1078 | a plan that may admit more readers than its queue seats has a stream, planned as the program plans it, and a run from which the call never returns |
| `PipelineHang.JoinsExactlyWhen` | src/parallel.rs:201-223 | over all streams of a chunk and bevy size, and all runs, a plan joins its threads exactly when it may admit at most two readers more than it starts or that many bevies fit a third of the budget |
| `PipelineHang.UsualPlanJoins` | src/parallel.rs:967-990 | two starting readers and seven or more workers always join exactly over bevies of at most 44,739,242 bytes, over 64 MiB bevies exactly with four workers or fewer, and pinned plans always |
| `PipelineReport.ReportNamesAFault` | src/parallel.rs:525-549 | the bevy reported is in every run one that is really at fault |
| `PipelineReport.TroubleExactlyWhen` | src/parallel.rs:844-924 | there is a first trouble exactly when some bevy is bad or the serial read of the bevies fails |
| `PipelineReport.WithoutTrouble` | src/parallel.rs:1080-1110 | without one every finished run ends alike: well, or short of the declared size |
| `PipelineReport.ClaimedIsNear` | src/parallel.rs:629-661 | while the consumer needs a bevy, no reader claims one past its lookahead and one more for each further reader the governor can have admitted by then |
| `PipelineTurns.ReportsFirstTrouble` | src/parallel.rs:513-549 | a first trouble that no later bevy can overtake is what every finished run reports |
| `PipelineOvertaking.SomeRunReportsAnother` | src/parallel.rs:513-549 | if one can, some finished run reports a later bevy |
| `PipelineOvertaking.ReportsFirstTroubleExactlyWhen` | src/parallel.rs:513-549 | every finished run reports the first trouble exactly when no later bevy overtakes it: a condition on which bevies cannot be read or decoded, the threads and the lookahead |
| `PipelineOvertaking.ReportDependsOnTiming` | src/parallel.rs:513-549 | where one overtakes it there are two finished runs over the same storage, one reporting the first trouble and one a later bevy |
| `PipelineOvertaking.EveryPlanCanBeOvertaken` | src/parallel.rs:952-1110 | under every plan, over bevies of any size, a stream of three bevies, planned as the program plans it, is not always reported alike |
| `Hashing.WithThreadCap` | src/hash.rs:316-349 | the threaded and inline algorithms, in that order, are the distinct computable ones by first appearance, the declined ones the rest, and the threads number the smaller of the cap and one fewer than the algorithms |
| `Hashing.EveryAlgorithmPlaced` | src/hash.rs:316-349 | every requested algorithm is in exactly one of the three lists, once |
| `Hashing.InvStep` | src/hash.rs:261-289 | every step of the caller or a worker keeps: absorbed then pending is exactly what was sent |
| `Hashing.AbsorbedThenPending` | src/hash.rs:261-289 | in every reachable state a worker's state, with its pending slices absorbed, is that of the bytes sent, and at most 64 slices are queued |
| `Hashing.FoldIsOneShot` | src/hash.rs:146-166 | absorbing slices one by one is absorbing them joined, given that law for two slices and that absorbing nothing changes nothing |
| `Hashing.EveryInterleavingAgrees` | src/hash.rs:352-400 | every finished run returns for each algorithm the one-shot digest of all slices joined, and counts each byte once |
| `Hashing.OneDigestPerAlgorithm` | src/hash.rs:316-400 | exactly one digest for each distinct computable algorithm requested, whatever the cap, slicing and interleaving |
| `Hashing.NeverStuck` | src/hash.rs:255-289 | no reachable state before the end is stuck |
| `Hashing.StepUsesUp` | src/hash.rs:261-289 | every step lowers a measure |
| `Hashing.RunsAreFinite` | src/hash.rs:261-289 | so every run ends, closing and draining included |
| `Hashing.OrderKeptExactlyWhenInline` | src/hash.rs:395-400 | the digests come in request order exactly when no algorithm got a thread |
| `NaturalOrder.TakeDigits` | src/multi_part.rs:51-65 | the saturating loop gives the run's number, cut off at the largest 128-bit one, and its width |
| `NaturalOrder.NaturalCmp` | src/multi_part.rs:16-45 | the comparison loop is the lexicographic order on tokens, maximal digit runs by value then width |
| `NaturalOrder.LessMeansFirstDifference` | src/multi_part.rs:16-45 | less means: the first place the token lists differ favours the first name |
| `NaturalOrder.ListCmpAntisymmetric` | src/multi_part.rs:16-45 | comparing the other way round gives the opposite, and only equal token lists tie |
| `NaturalOrder.NaturalIsTotalPreorder` | src/multi_part.rs:16-45 | any two names compare and the comparison is transitive, mixed digits and letters included |
| `NaturalOrder.TiesOnlyWithItselfExactlyWhen` | src/multi_part.rs:16-65 | only the name itself ties with a name exactly when none of its digit runs saturates |
| `NaturalOrder.ShortRunsArePrecise` | src/multi_part.rs:47-65 | digit runs of at most 38 digits never saturate |
| `NaturalOrder.TokensJoin` | src/multi_part.rs:16-45 | names joined without splitting a digit run are joined token by token |
| `PartNames.TrailingNumber` | src/multi_part.rs:181-197 | the backwards scan reads exactly the last digit run, and only after a separator or at the start |
| `PartNames.NumberRefusedExactlyWhen` | src/multi_part.rs:181-197 | no number is read exactly when there is no digit, the last run follows a character that is no separator, or it exceeds 32 bits |
| `PartNames.TrailingNumberDocumentedExactlyWhen` | src/multi_part.rs:166-197 | the number is the one documented, of the digits that end the stem, exactly when the stem ends in a digit or its last run is refused |
| `PartNames.NumberInTheMiddle` | src/multi_part.rs:166-197 | a concrete stem numbered by a run in its middle |
| `PartNames.NumberedZeroExactlyWhen` | src/multi_part.rs:142-169 | a container name is part zero exactly when its stem's last run is refused or spells zero |
| `PartNames.GeneratedNameIsRead` | src/multi_part.rs:93-164 | for every container name and every ordinal of 32 bits the generated name is recognised, numbered, reduced to its base and counted in its set |
| `PartNames.NumberMissingExactlyWhen` | src/multi_part.rs:142-169 | an AFF4 part has no number exactly when it is an ordinal name beyond 32 bits |
| `PartNames.SharesItsOwnSet` | src/multi_part.rs:467-531 | every name belongs to the set named by its own base |
| `PartNames.ConventionsAgree` | src/multi_part.rs:452-494 | the bare, ordinal and trailing-digit forms of a name reduce to one base |
| `PartNames.EachReductionStripsOneNumber` | src/multi_part.rs:467-494 | a stem with two numbers reduces twice, to two different bases |
| `PartNumbering.CheckNumbers` | src/multi_part.rs:341-361 | the loop over neighbouring numbers refuses at the first gap |
| `PartNumbering.AcceptsExactlyWhen` | src/multi_part.rs:341-361 | the check passes exactly when some part is unnumbered or the numbers count up by one on 32 bits |
| `PartNumbering.ConsecutiveCountsUp` | src/multi_part.rs:341-361 | below the 32-bit limit, counting up means no number is missing |
| `PartSets.Discover` | src/multi_part.rs:284-372 | the loops over the listing and the sorted parts compute the set specified |
| `PartSets.AcceptedExactlyWhen` | src/multi_part.rs:284-372 | a folder is accepted exactly when it holds one kind and its numbers run on; the parts are that kind's files in natural order, and first and last are the ends' numbers |
| `PartSets.AcceptedNeverHasAGap` | src/multi_part.rs:341-372 | an accepted set whose numbers are all read and below the limit counts from first to last without a gap |
| `PartSets.Aff4SetIsNumbered` | src/multi_part.rs:341-361 | every AFF4 set whose ordinals fit 32 bits is numbered throughout |
| `PartSets.ListingOrderDoesNotMatter` | src/multi_part.rs:284-372 | any order of the listing gives the same answer when no digit run saturates |
| `PartSets.GeneratedInOrder` | src/multi_part.rs:422-436 | the generated names come in the order of their numbers |
| `PartSets.GeneratedSetAcceptedExactlyWhen` | src/multi_part.rs:284-372 | a generated set among other files, in any order, is accepted as parts 0 to n exactly when its base is numbered zero, and refused as a gap otherwise |
| `PartSets.NumberedBaseRefused` | src/multi_part.rs:284-372 | the set of `2024.aff4` and `2024.aff4.1` is refused as having a gap |
| `PartSets.NamingDeparture` | src/multi_part.rs:411-445 | the filter, sort and comparison loops compute the judgement specified |
| `PartSets.ConformsExactlyWhen` | src/multi_part.rs:411-445 | no departure is recorded exactly when there are fewer than two members or they are the generated names, in any order |
| `PartSets.GeneratedSetConforms` | src/multi_part.rs:411-445 | a generated set conforms, asked of any of its parts, listed in any order among other files |
| `CivilDates.EpochIsDayZero` | src/main.rs:1499-1507 | 1 January 1970 is day zero |
| `CivilDates.NextDayCountsOne` | src/main.rs:1499-1507 | the day after any valid date counts one more: month ends, leap days, negative years and era boundaries |
| `CivilDates.DaysIncrease` | src/main.rs:1499-1507 | later dates count higher |
| `CivilDates.CivilIsInverse` | src/write/logical.rs:662-673 | the writer's date of any day is a valid date that the reader counts back to that day |
| `CivilDates.ReadAsWrittenExactlyWhenValid` | src/main.rs:1495-1507 | for all integers, reading a date and writing it back gives it exactly when the calendar has it |
| `Timestamps.ReadsUtc` | src/main.rs:1490-1519 | with nothing signed after the seconds the instant is the calendar's, to the second |
| `Timestamps.OffsetMovesExactly` | src/main.rs:1509-1520 | a signed offset moves the instant by exactly its hours and minutes, after any fraction |
| `Timestamps.OffsetDecides` | src/main.rs:1509-1520 | of any text with a sign after its fields, fewer than five bytes after the first sign are passed over, otherwise it is refused exactly when bytes 0-1 or 3-4 are no number, and moved by them as hours and minutes if not |
| `Timestamps.ShortOffsetIgnored` | src/main.rs:1509-1520 | an offset of fewer than five bytes is passed over, after any fraction |
| `Timestamps.CompactAppliedExactlyWhen` | src/main.rs:1509-1520 | a two-digit hour and minute without a separator is applied as written exactly when it is zero and ends the text or its minutes are a digit twice which then follows, and refused exactly when anything but a digit follows |
| `Timestamps.OffsetMisread` | src/main.rs:1509-1520 | `+0530` and `+5:30` are taken for UTC and `+053000` for five hours, after any fraction |
| `Timestamps.ReadsAsDocumentedExactlyWhen` | src/main.rs:1485-1534 | for every text, an instant for a timestamp and nothing for any other is given exactly when it is a timestamp, a field is no number or its offset is refused |
| `Timestamps.FieldsAtMeaning` | src/write/logical.rs:656-676 | the fields written for an instant are a calendar date and a time of day that name it |
| `Timestamps.RoundTripsExactlyWhen` | src/write/logical.rs:656-676 | what the writer writes the reader reads back exactly until the year 10000, and refuses from then on |
| `Timestamps.ThirtiethOfFebruary` | src/main.rs:1490-1507 | in every year 30 February is read as the first or second of March |
| `Merging.ObjectsAcrossVolumes` | src/container.rs:258-298 | a single volume's summary is passed on unmerged; over several the indexed merge equals the merge by linear search, its index the inverse of its list at every step |
| `Merging.UnmergedExactlyWhen` | src/container.rs:259-261 | leaving a volume's objects unmerged is merging them exactly when it declares each ARN once |
| `Merging.MergeListsEachOnce` | src/container.rs:280-293 | each ARN is listed once, in order of first appearance |
| `Merging.MergeHoldsFullest` | src/container.rs:280-293 | each entry is the earliest declaration with the most hashes |
| `SegmentTally.SegmentKinds` | src/container.rs:1586-1649 | the counting loop and the rows built from it are the tally specified |
| `SegmentTally.Count` | src/container.rs:1601-1627 | after the loop each slot holds its kind's count and greatest name, and the map's tails are listed |
| `SegmentTally.ExampleMeaning` | src/container.rs:1630-1645 | a kind is shown by the tail of its greatest name, the map by its distinct tails in order |
| `SegmentTally.MemberOrderDoesNotMatter` | src/container.rs:1581-1649 | any permutation of the members gives identical rows |
| `SegmentTally.CountsSumToMembers` | src/container.rs:1601-1612 | the counts sum to the number of members |
| `SegmentTally.RowsDescend` | src/container.rs:1646-1649 | rows descend by count, ties in the fixed order of kinds |
| `SegmentTally.RowsOfKindsPresent` | src/container.rs:1633-1645 | the rows are exactly those of the kinds present |
| `BriefSummary.ObjectCounts.Observe` | src/model.rs:164-185 | after one more object every role counter is the number of such objects seen |
| `BriefSummary.ObjectCounts.ObserveStorage` | src/model.rs:187-206 | after one more object every storage counter is the number of such files seen |
| `BriefSummary.StorageTotalsFiles` | src/model.rs:150-158 | the storage counters total the files |
| `BriefSummary.BriefRenders` | src/container.rs:2306-2341 | keeps an object exactly by novelty, cap or case field, and shows its types only then |
| `BriefSummary.SummarizeBrief` | src/container.rs:1076-1095 | the brief pass keeps what is specified, with the full pass's counts, and storage totals the files |
| `BriefSummary.Summarize` | src/container.rs:921-942 | the full pass keeps every object and counts the same |
| `BriefSummary.TypesComplete` | src/container.rs:2283-2341 | a type declared by an image-typed object is declared by some kept one |
| `BriefSummary.RetentionBounded` | src/container.rs:2269-2341 | the kept objects number at most the distinct image types, 64, and the case carriers together |
| `BriefSummary.CandidatesSuffice` | src/container.rs:2266-2341 | hashed images are dropped only once 64 hashed objects are kept |
| `BriefSummary.CarrierKeptExactlyWhen` | src/container.rs:2306-2341 | a case carrier is kept exactly when it is not image-typed, declares a type no image-typed object before it does, or has a hash while the cap is not filled |
| `BriefSummary.FieldKeptExactlyWhen` | src/report.rs:571-580 | the brief report reads the same value of a field exactly when the first carrier kept records what the first carrier does |
| `BriefSummary.CaseLineKeptExactlyWhen` | src/report.rs:571-594 | the brief case line holds the full one's values exactly when that is so of all three fields |
| `BriefSummary.CaseLineKept` | src/container.rs:2306-2341 | in particular a field is kept when no image-typed object carries it |
| `BriefSummary.CaseFieldLost` | src/container.rs:2306-2341 | a case field on a second image of a type already shown is lost |
| `Utf8.DecodeEncode` | src/export.rs:206-212 | every string is read back from its UTF-8 bytes |
| `Utf8.EncodeDecode` | src/export.rs:206-212 | bytes that read as a string are that string's bytes |
| `Escaping.Unescape` | src/arn.rs:463-480 | the byte loop decodes escapes of either case, including the hex the library accepts with a plus sign, and stops where the text cannot be sliced |
| `Escaping.UnescapeEscaped` | src/arn.rs:386-409 | unescaping an escaped string gives it back, for every string |
| `Escaping.EscapeInjective` | src/arn.rs:386-409 | two strings never share an escaped form |
| `Escaping.EscapedHasNoSlash` | src/arn.rs:386-409 | an escaped string is one component |
| `Escaping.SpacesAgree` | src/arn.rs:419-430 | two paths decode alike exactly when they encode alike: only the spelling of spaces is forgotten |
| `Escaping.SpaceFreeRecovered` | src/arn.rs:419-430 | a path without a literal space is recovered from its decoded form |
| `Arns.ParsedTakenApart` | src/arn.rs:179-245 | a parsed name keeps its text and is volume, path and range suffix joined |
| `Arns.AuthorityEmptyExactlyWhen` | src/arn.rs:121-173 | a parsed name has an empty authority exactly when a range suffix starts right after the scheme, and then has no path |
| `Arns.EmptyAuthorityBeforeRange` | src/arn.rs:121-173 | every such name with a readable range is accepted |
| `Arns.LocalMembersAgree` | src/arn.rs:305-322 | inside one volume two names share a member exactly when their paths agree up to how spaces are spelt, under both mappings |
| `Arns.ForeignMembersAgree` | src/arn.rs:324-335 | outside it, exactly when volumes agree and paths agree so |
| `Arns.MemberNamesInjective` | src/arn.rs:305-335 | space-free names, all inside with paths or all outside, never share a member |
| `Arns.LocalNameRecovered` | src/arn.rs:412-430 | a name inside the volume is recovered from its member |
| `Arns.SpellingsCollide` | src/arn.rs:419-421 | a literal and an encoded space take one member |
| `Arns.MixedMembersAgree` | src/arn.rs:305-335 | a name inside the volume and one outside share a member exactly when the path of the one spells out the other: literally, or with its volume, free of spaces, escaped and the spaces of the path however spelt |
| `Arns.LocalMeetsForeign` | src/arn.rs:305-335 | such a pair exists for every name outside any volume, under the literal mapping |
| `Exporting.KeptIsSafe` | src/export.rs:126-191 | a kept component is non-empty, not `.` or `..`, without separators or illegal characters, and does not end in a dot or space |
| `Exporting.ReasonExactlyWhenChanged` | src/export.rs:126-191 | a reason is given exactly when the component kept is not the recorded one |
| `Exporting.ReservedStemLeftExactlyWhen` | src/export.rs:172-191 | a kept component still has a reserved stem exactly when a dot follows it |
| `Exporting.IdempotentExactlyWhen` | src/export.rs:126-191 | placing a kept component again changes nothing exactly when its stem is not reserved |
| `Exporting.SplitJoined` | src/export.rs:337-339 | splitting on either separator undoes joining |
| `Exporting.Rebase` | src/export.rs:333-378 | the loop over the components collects those kept and the reasons |
| `Exporting.RebaseConfined` | src/export.rs:333-378 | for every recorded path at least one component is written and every one is safe |
| `Exporting.RebaseHonest` | src/export.rs:333-378 | an alteration is reported exactly when what is written is not what was recorded, empty and `.` components aside |
| `Exporting.RebaseBytes` | src/export.rs:206-247 | valid UTF-8 is placed as text, anything else component by component as bytes |
| `Exporting.RebaseBytesConfined` | src/export.rs:206-247 | for all recorded bytes at least one component is written and every one is safe as bytes |
| `Exporting.SafeComponentBytes` | src/export.rs:277-322 | the buffer filled byte by byte and trimmed from its end is the component specified |
| `Exporting.BytesConfined` | src/export.rs:277-322 | every component kept as bytes is safe |
| `Exporting.BytesHonest` | src/export.rs:277-322 | a reason is given exactly when the bytes kept are not those recorded |
| `Exporting.ReservedKeptAsBytes` | src/export.rs:277-322 | a safe ASCII component is always kept as bytes, as text exactly when its stem is not reserved |
| `Exporting.RebaseBytesHonest` | src/export.rs:206-247 | for all recorded bytes an alteration is reported exactly when what is written is not what was recorded, empty and `.` components aside |
| `Exporting.ReservedPathKept` | src/export.rs:206-247 | beside a byte that is no UTF-8 every safe ASCII component is written as it is, reserved or not, and nothing is reported |
| `Exporting.ReservedRenamed` | src/export.rs:126-191 | every reserved name is such a component, and renamed in a path that is UTF-8 |
| `Destinations.Deconflict` | src/main.rs:991-1044 | the loop takes the name asked for, else the first free numbered one, else the name again |
| `Destinations.CandidatesDistinct` | src/main.rs:1012-1017 | the numbered names differ from each other and from the name asked for |
| `Destinations.SomeNameIsFree` | src/main.rs:1008-1042 | with fewer than 9,999 destinations taken one of the 9,999 names is free |
| `Destinations.GivesNewExactlyWhen` | src/main.rs:991-1044 | a call gives a new destination exactly when one of them is free; it stays in its directory, a rename is reported, and earlier reasons are kept |
| `Destinations.RunIsInjective` | src/main.rs:991-1044 | up to 9,999 calls from nothing taken never give one destination twice |
| `Destinations.TenThousandthCollides` | src/main.rs:1043-1044 | the 10,000th request for one name is given it again, unreported |
| `Destinations.WrittenIsPathExactlyWhen` | src/main.rs:1019-1040 | what is reported as written is the path beneath the target exactly when the file was not renamed or lies directly beneath it |
| `Destinations.ExportIsConfinedAndInjective` | src/main.rs:1101-1166 | up to 9,999 recorded paths, raw bytes preferred to text, are placed and made distinct, each of safe components in its own directory |

## Left out

- Decompression, ZIP access and the metadata graph: a stream's bevies are given as the result of decoding each chunk, or as unreadable.
- Sources.ChunkReader.ReadRegion: storage gives the same chunk by range as through its bevy, so that one read verifies a checksum the other does not, and the cache of parsed indexes, are not modelled.
- Coverage.ParseWith: takes decoded entries and resolved targets; the 28-byte records, the text of the idx segment and the names of gap fills are not modelled.
- Pipeline.DeliversInStreamOrder: what the governor makes of a window is any of its three outcomes, at any report from the eighth on; clocks, byte rates and error texts are not modelled, and a thread always gets another turn.
- PipelineHang.JoinsExactlyWhen: for bevies of which a 64-bit stream size can hold 32, and plans of at most ten starting readers; the program's start one or two.
- PipelineOvertaking.ReportsFirstTroubleExactlyWhen: for a sink that accepts everything and readers whose handles all open; a refusal is reported as the consumer's own error, and a handle that does not open counts against the first bevy.
- Streams.ReadAllObserved: the product of chunk size and chunks in a segment is unbounded here and 64 bits wide in the source.
- Hashing.EveryInterleavingAgrees: a thread that cannot be started is not modelled, and bytes are counted without the wrap-around at 64 bits; a digest is its bytes, not their hex.
- Hashing.WithThreadCap: gives lists of algorithms, since the objects they stand for are threads; feeding and finishing them is the state machine beside it.
- PartSets.Discover: starts from the file names listed in a folder; the printed width of a number is presentation and left out. Sorting is any stable sort, modelled as insertion.
- PartSets.GeneratedSetConforms: sets of at most 2^32 parts, the ordinals the reader itself can number.
- Timestamps.ReadsUtc: an instant is a number of seconds; whether the host's clock type can hold it is not modelled.
- SegmentTally.SegmentKinds: the classification of one member name is a parameter, as is its cost.
- BriefSummary.SummarizeBrief: starts from the objects built; deviations, prefixes and the manifest are left out.
- BriefSummary.CaseLineKeptExactlyWhen: compares the values shown, not the text they are joined to.
- Escaping.Unescape: the library's reading of bytes that are not UTF-8 is a parameter.
- Exporting.RebaseBytes: the form for hosts whose paths are not byte strings, which always reports, is left out.
- Destinations.Deconflict: collisions a case-insensitive file system adds are left out. The library's text for bytes that are not UTF-8 is a parameter that keeps their ASCII bytes, adds none and ends as they do.
- Conformance rules, lexicon tables, report text, progress display, acquisition and the command line would only add table lookups and one-branch facts.
