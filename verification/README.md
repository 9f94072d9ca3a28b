# A verified model of dariadb

dariadb is a columnar store for time series. This project models six of its
components in Dafny and proves what they promise, for every input and every
run.

* **Chunks** (`Measurements`, `Bits`, `Leb128`, `RecordCodec`, `RunCodec`,
  `ByteBuffers`, `Compression`, `Writer`, `PackedRuns`, `Drift`, `Chunks`,
  `ChunkCursors`, `Statistics`, `ChunkStats`, `IntervalStats`, `Compress`). One
  byte buffer is filled from its top address downwards by three codecs that take turns: second
  differences of time in prefix codes of 1, 2, 3 or 9 bytes, XORs of double
  values with a byte count and a shift, and unsigned LEB128 flags (section 7.6
  of DWARF 4). The buffer, the codecs, the chunk and its cursor are classes
  that work in place; each is proved against a byte-level specification of the
  format (`RecordCodec`, `RunCodec`), and the round trip is proved of that
  specification.
* **The striped hash map** (`StripedMaps`, `StripedLocks`). Once as linked
  nodes in memory, used by one thread, refining a map; once as a step-level
  transition system of any number of threads, with the rehash moving one node
  per step, refining an atomic map.
* **Cursors** (`Streams`, `Sorting`, `ArrayCursors`, `Cursors`, `Grouping`,
  `Blocks`, `Collapse`, `ChunkSources`, `TwoLevel`, `TimePoints`). Cursors over
  arrays and packed chunks, the k-way merge with its cache of top times and the
  sequential cursor, nested to any depth and unpacked where they nest; the
  grouping of cursors by overlapping ranges; the read of an interval from two
  levels of storage; and the read of a time point.
* **The WAL dropper** (`Dropper`, `DropRuns`). Write-ahead logs become pages. A
  state machine of the worker, its chain of asynchronous stages, the storage
  lock, the page, index and WAL files, the manifest, crashes at every step and
  the clean-up at start; and runs that reach each of its failures.
* **The network batch** (`NetBatch`). Runs of equal ids with
  variable-length records, packed into one bounded message and read back.
* **The aggregation timer** (`Calendar`, `Timers`). The proleptic Gregorian
  calendar (clause 3.2.1 of ISO 8601:2004), the calendar interval of each
  period, and the timer queue.

Integers are unbounded in Dafny. The model writes widths out: `byte`, `uint32`
and `uint64` are ranges, `Wrap` and `Narrow` reduce to 64 and 32 bits. Bitwise
and, or and exclusive or are defined bit by bit, and the arithmetic that stands
for a mask is derived from them. A double is its 64-bit pattern in the codecs
and a real number in sums. Clocks, thread schedules, directory
listings and the contents of other subsystems are parameters or free choices.

What turned out to hold only under a condition is proved with that condition:

* A time step whose second difference is even and lies in -524287..-4096 is
  read back one too high, and every later time two too high. Decoding is the
  identity exactly if there is no such step and all ids agree
  (`RunCodec.DriftAt`, `RunCodec.DriftIdentity`, `PackedRuns.DecodedIsExact`).
  The times 0, 5000, 5904 are read back as 0, 5000, 5905
  (`IntervalStats.LostMoment`).
* An XOR with bits 0 and 63 both set needs nine bytes, one more than the writer
  can announce (`RecordCodec.ByteCountFits`, `RecordCodec.NineBytes`).
* A chunk in time order answers every interval with the statistic of the
  measurements appended in it exactly if all its times are one, or no step is
  bumped and neighbouring times differ, except perhaps the last two
  (`IntervalStats.InOrderRight`, `IntervalStats.LostMoment`). A chunk out of
  order does so only if its times are distinct, and then, unless two times read
  back next to each other coincide, exactly if no step is bumped
  (`IntervalStats.OutOfOrderRight`, `IntervalStats.BumpedYetRight`).
* Grouping cursors by overlap gives the connected components exactly if every
  cursor connected to an earlier one overlaps an earlier one (`Grouping.Group`).
  In any order, a cursor is put in two places, by itself and in a group, exactly
  if it overlaps no earlier cursor, overlaps some later one, and everything it
  overlaps is overlapped by an earlier one too (`Grouping.GroupedOnce`). The
  collapsed cursor then reads one object from two places: what the merge has
  taken from it is gone for the list, and when the merge has drained it the list
  still holds it and does not end. Three ranges that do this are
  `Grouping.OutOfOrder`.
* What collapsed cursors yield is the merge of all of them exactly if its times
  keep increasing (`Blocks.InTurnIsMerge`). For cursors in order whose streams
  lie in their ranges they do exactly if every cursor that overlaps no other
  yields each time once (`Blocks.CollapseIsMerge`, `Collapse.CollapseCursors`).
  A cursor over a chunk in order lies in its range exactly if no step is bumped
  (`ChunkSources.ChunkWithin`), and yields each time once exactly if what is
  read back does not end in a run of equal times
  (`ChunkSources.ChunkIncreasing`). Chunks for which either fails, and whose
  collapsed stream is not the merge, are `ChunkSources.DriftRepeats` and
  `ChunkSources.TrailingRunRepeats`.
* The statistic in a page's footer counts every measurement twice: the chunks
  are added when they are made and again when they are written. It is right
  exactly if the page is empty (`Compress.CreatePage`,
  `Statistics.DoubledStat`).
* A crash after the manifest has forgotten a WAL and before the WAL file is
  gone makes the next start erase the finished page and keep a WAL that nobody
  lists. All batches stay listed exactly if recovery finds every WAL file
  listed (`Dropper.ListedAfterRecovery`, `Dropper.OrphanedInWindow`,
  `DropRuns.OrphanRun`).
* A crash between erasing a page and erasing its index leaves the index behind,
  and the next drop appends to it. In every run, the page a drop makes is read
  in full exactly if the index file it found was empty or began with the same
  records (`Dropper.DropIndex`, `Dropper.IndexLeftBehind`,
  `DropRuns.LostChunkRun`).
* The first start after a crash can fail to open its pages; exactly when is
  `Dropper.OpensAfterRecovery`, and a run that gets there is
  `DropRuns.FailedOpenRun`.
* A record packs only if its value has the sign bit clear and its flag, time
  and value have at most twenty groups of seven bits together, as they always
  have with a one-byte flag or a time before the year 2109
  (`NetBatch.NegativeNeverEnds`, `NetBatch.OversizedRecord`,
  `NetBatch.UsuallyPackable`).
* A timer callback first called in the middle of an interval may repeat it;
  exactly when is `Timers.FirstCall`, and `Timers.HourTwice` is an hour that is
  repeated. The aggregator always starts at an end.
* The read of a time point overwrites its result with every candidate. Every
  point is answered with a latest measurement exactly if the matching stream,
  wherever it steps back, comes to the same time again
  (`TimePoints.LatestExactly`). The cursors it is called on, those of chunks,
  are sorted (`TimePoints.ChunkTimePoint`) unless a chunk in order drifts past
  the largest time, as the one of `TimePoints.WrappedNotLatest` does.

`dafny verify dfyconfig.toml` checks the whole project.

## Model

| member | source | states |
|---|---|---|
| Leb128.LebRoundTrip | libdariadb/compression/flag.cpp:11-53 | parsing an unsigned LEB128 code gives the number back and stops exactly at its end, whatever bytes follow |
| Leb128.LebLength | libdariadb/compression/flag.cpp:11-39 | the code has at most k bytes if and only if the number is below 128^k |
| Leb128.LebMasks | libdariadb/compression/flag.cpp:26-49 | the mask of the low seven bits, setting bit 7 and testing bit 7 are the remainder, sum and comparison that the code is specified with |
| RecordCodec.Delta1b | libdariadb/compression/delta.cpp:17-28 | or-ing the 1-byte prefix with the masked low bits of a step's 64-bit pattern is 0x80 plus the step mod 64 |
| RecordCodec.Delta2b | libdariadb/compression/delta.cpp:20-32 | likewise 0xC000 plus the step mod 2^13 |
| RecordCodec.Delta3b | libdariadb/compression/delta.cpp:23-36 | likewise 0xE00000 plus the step mod 2^20 |
| RecordCodec.Announced | libdariadb/compression/delta.cpp:98-115 | the tests of the first byte's prefix bits tell the three short codes apart by its value |
| RecordCodec.Extend1b | libdariadb/compression/delta.cpp:101-103 | or-ing -64 into a 6-bit number subtracts 64 |
| RecordCodec.Extend2b | libdariadb/compression/delta.cpp:111-113 | or-ing -4096 into a 13-bit number with bit 12 set subtracts 2^13 |
| RecordCodec.Extend3b | libdariadb/compression/delta.cpp:123-125 | or-ing -524287 into a 20-bit number with bit 19 set subtracts 2^20 and forces bit 0 to one, which is where the bumped steps come from |
| RecordCodec.DeltaRoundTrip | libdariadb/compression/delta.cpp:26-139 | through the bitwise codes and sign extensions every second difference is read back as itself, or as itself plus one if it is even and in -524287..-4096, with the bytes consumed equal to the bytes written |
| RecordCodec.ByteCountFits | libdariadb/compression/xor.cpp:33-38 | the announced byte count is 1 to 9, and at most 8 if and only if bits 0 and 63 are not both set |
| RecordCodec.NineBytes | libdariadb/compression/xor.cpp:33-38 | the word 0x8000000000000001 asks for nine bytes |
| RecordCodec.XorRoundTrip | libdariadb/compression/xor.cpp:13-83 | every writable XOR word is read back bit for bit from its count, shift and shifted bytes |
| RunCodec.EncodeAppend | libdariadb/compression/compression.cpp:14-30 | appending a measurement appends exactly its record to the stream and moves the codec state on |
| RunCodec.RecordRoundTrip | libdariadb/compression/compression.h:42-50 | one call of the reader takes exactly the bytes one call of the writer produced and ends in the matching state |
| RunCodec.RunRoundTrip | libdariadb/compression/compression.cpp:14-30 | after any accepted run, and whatever lies behind it, reading as many records gives the run as the codec keeps it and stops at the writer's position |
| RunCodec.DriftAt | libdariadb/compression/delta.cpp:41-139 | decoded time i is the true time i mod 2^64 plus two per earlier bumped step plus one if step i is bumped |
| RunCodec.DriftIdentity | libdariadb/compression/delta.cpp:94-139 | decoding is the identity if and only if no step is bumped and every id is the chunk's |
| ByteBuffers.ByteBuffer.Write | libdariadb/compression/bytebuffer.h:38-48 | storing an n-byte value moves the position down by n, puts the value's bytes on the downward stream and changes nothing above |
| ByteBuffers.ByteBuffer.Read | libdariadb/compression/bytebuffer.h:38-53 | loading n bytes gives the value of the next n bytes of the downward stream |
| Compression.DeltaCompressor.Append | libdariadb/compression/delta.cpp:41-88 | succeeds if and only if the code of the second difference fits, then emits exactly that code; out of room it leaves the buffer and its position alone |
| Compression.DeltaDeCompressor.Read | libdariadb/compression/delta.cpp:94-139 | reads the next second difference of the stream and adds it to the previous time and the previous difference mod 2^64 |
| Compression.XorCompressor.Append | libdariadb/compression/xor.cpp:13-57 | succeeds if and only if the XOR's bytes fit, then emits exactly them; out of room it leaves the buffer alone |
| Compression.XorDeCompressor.Read | libdariadb/compression/xor.cpp:60-83 | reads the next XOR word of the stream and XORs it with the previous value |
| Compression.FlagCompressor.Append | libdariadb/compression/flag.cpp:11-39 | succeeds if and only if the LEB128 code fits; out of room it has filled the rest of the buffer with a prefix of the code and touched nothing above |
| Compression.FlagDeCompressor.Read | libdariadb/compression/flag.cpp:41-53 | reads the next LEB128 number of the stream, cut to 32 bits |
| Writer.CompressedWriter.Append | libdariadb/compression/compression.cpp:14-30 | succeeds if and only if the whole record fits; whichever codec runs out of room, nothing at or above the old position has changed |
| Writer.CompressedReader.Read | libdariadb/compression/compression.h:42-50 | reads one record of the specified format, advancing all three decoders together |
| PackedRuns.PackedDecodes | libdariadb/storage/chunk.cpp:211-217 | reading count - 1 records from the top of a chunk's buffer gives the stored run and ends at the header's position, whatever the unused bytes are |
| PackedRuns.DecodedIsExact | libdariadb/storage/chunk.cpp:191-217 | what is read is what was appended, bit for bit, if and only if no step is bumped and all ids agree |
| PackedRuns.PackedAppend | libdariadb/storage/chunk.cpp:191-209 | a record emitted below a packed run extends the run by its measurement |
| PackedRuns.PackedFrame | libdariadb/storage/chunk.cpp:191-197 | bytes below the committed position do not matter to the stored run |
| PackedRuns.PackedDrop | libdariadb/storage/chunk.cpp:172-181 | dropping a prefix of unused bytes keeps the run at the shifted position |
| PackedRuns.PackedCount | libdariadb/storage/chunk.cpp:191-209 | a chunk below 4 GB holds fewer than 2^31 measurements, so the counter cannot wrap |
| PackedRuns.YieldedIsHeads | libdariadb/storage/chunk.cpp:31-56 | the packed cursor yields the first of every run of equal times, plus the last of the trailing run if that run is longer than one |
| PackedRuns.YieldedDistinct | libdariadb/storage/chunk.cpp:31-56 | with pairwise distinct times the packed cursor yields every measurement once, in order |
| PackedRuns.YieldedAll | libdariadb/storage/chunk.cpp:31-56 | the packed cursor yields everything if and only if neighbouring times differ, except perhaps the last two |
| Drift.LastDrifts | libdariadb/compression/delta.cpp:123-139 | the last time of a chunk is read back later than it was appended if and only if some step is bumped |
| Chunks.ChunkHeader.Compact | libdariadb/storage/chunk.cpp:172-181 | the size shrinks by exactly the skipped bytes and the position becomes zero, keeping what the header says of the run |
| Chunks.Chunk.Create | libdariadb/storage/chunk.cpp:101-126 | a new chunk holds exactly its first measurement, in the header alone |
| Chunks.Chunk.Append | libdariadb/storage/chunk.cpp:191-209 | accepted if and only if the record fits; then the history grows by it and header, order flag and statistic describe the new history; refused, header and history are unchanged and no byte at or above the position has moved |
| ChunkCursors.ChunkReader.SkipDuplicates | libdariadb/storage/chunk.cpp:45-54 | reads on to the first measurement of another time, or to the last one |
| ChunkCursors.ChunkReader.ReadNext | libdariadb/storage/chunk.cpp:31-43 | returns the top measurement and advances by one step of the yielded sequence |
| ChunkCursors.Collect | libdariadb/storage/chunk.cpp:219-226 | the array holds what the packed cursor yields, then blanks up to the counted size |
| ChunkCursors.GetReader | libdariadb/storage/chunk.cpp:211-235 | a chunk in time order is read straight off the buffer; any other through a time-sorted copy of what the cursor yields |
| ChunkCursors.CompactAndReopen | libdariadb/storage/chunk.cpp:172-181 | a fresh cursor over the bytes kept by a compaction yields the same run, and a second compaction skips nothing |
| Statistics.SplitStat | libdariadb/stat.h:48-60 | combining the statistics of any two parts is the statistic of the whole |
| Statistics.StatOfPermutation | libdariadb/stat.h:34-46 | the statistic depends on which measurements there are and not on their order |
| Statistics.EmptyIsNeutral | libdariadb/stat.h:22-60 | combining with a fresh statistic changes nothing |
| Statistics.Statistic.Update | libdariadb/stat.h:34-46 | the fields become those of the statistic combined with the one measurement |
| Statistics.Statistic.UpdateWith | libdariadb/stat.h:48-60 | a statistic of some measurements, updated with the statistic of others, is the statistic of both together |
| Statistics.DoubledStat | libdariadb/storage/pages/helpers.cpp:67-97 | counting the same measurements twice doubles count and sum and changes nothing else, so it is wrong exactly if there are any |
| ChunkStats.SortedCopyYields | libdariadb/storage/chunk.cpp:219-231 | with distinct times the sorted copy is a strictly sorted permutation of the chunk, all of which is yielded |
| ChunkStats.YieldStat | libdariadb/storage/chunk.cpp:241-251 | with distinct times, scanning any cursor of the chunk gives the fold over the measurements in the interval |
| ChunkStats.StatOfInterval | libdariadb/storage/chunk.cpp:237-252 | an interval that covers the header's range gets the header's statistic, any other the fold over what some cursor of the chunk yields in it; with distinct times and no bumped step both are the fold over the appended measurements in the interval, whatever their ids |
| IntervalStats.InOrderRight | libdariadb/storage/chunk.cpp:237-252 | read off its bytes, a chunk answers every interval with the fold over the appended measurements in it if and only if all its times are one, or no step is bumped and neighbouring times differ, except perhaps the last two |
| IntervalStats.OutOfOrderRight | libdariadb/storage/chunk.cpp:219-252 | a chunk out of order answers every interval so only if its times are distinct, and, unless a bumped step makes neighbours coincide, if and only if they are and no step is bumped |
| IntervalStats.LostMoment | libdariadb/storage/chunk.cpp:241-251 | a chunk of the times 0, 5000 and 5904 answers the moment 5904 with nothing |
| IntervalStats.BumpedYetRight | libdariadb/storage/chunk.cpp:219-252 | a chunk out of order with a bumped step that answers every interval right, two faults cancelling |
| Compress.FillChunk | libdariadb/storage/pages/helpers.cpp:50-61 | a chunk takes a longest stretch of the array from the given measurement on: the record of the next one is larger than the space left |
| Compress.CompressValues | libdariadb/storage/pages/helpers.cpp:37-80 | the chunks hold consecutive non-empty runs that together are the array, nothing lost, repeated or reordered, and the page's statistic has gained exactly the array |
| Compress.WriteChunks | libdariadb/storage/pages/helpers.cpp:82-97 | the page's statistic gains everything the chunks hold |
| Compress.CreatePage | libdariadb/storage/pages/page.cpp:94-140 | the chunks of a new page hold the array once, and its footer's statistic is that of the array twice over |
| Compress.PageRoundTrip | libdariadb/storage/pages/helpers.cpp:37-80 | decoding the runs of a page and putting them end to end gives the array back if and only if every run is exact |
| StripedMaps.EarlyStop | libdariadb/utils/striped_map.h:288-318 | in a chain ascending after its head, stopping at the first greater key never misses the key |
| StripedMaps.SpliceSound | libdariadb/utils/striped_map.h:293-316 | linking a new node at its place keeps every chain of the table proper and every key in its chain |
| StripedMaps.StripedMap.constructor | libdariadb/utils/striped_map.h:69-104 | a new map is empty and has as many locks as buckets |
| StripedMaps.StripedMap.Find | libdariadb/utils/striped_map.h:129-151 | walking the chain answers as the abstract map does |
| StripedMaps.StripedMap.Locate | libdariadb/utils/striped_map.h:273-320 | returns the one node of the key; the map is unchanged, or has gained the key with the initial value |
| StripedMaps.StripedMap.Grow | libdariadb/utils/striped_map.h:183-230 | every node is relinked into twice as many buckets; the table is sound again with the same nodes and the locks still divide the buckets |
| StripedMaps.StripedMap.Rehash | libdariadb/utils/striped_map.h:177-236 | map and size are unchanged, and the buckets double exactly if there are more keys than buckets |
| StripedMaps.StripedMap.FindBucket | libdariadb/utils/striped_map.h:160-175 | returns the node of the key after a possible rehash, adding it only if it was absent |
| StripedMaps.StripedMap.Insert | libdariadb/utils/striped_map.h:153-158 | the abstract map is updated at the key and nowhere else |
| StripedMaps.StripedMap.ChainShape | libdariadb/utils/striped_map.h:273-320 | every chain of a reachable map has distinct keys of hash i mod N and ascends after its head |
| StripedMaps.StripedMap.Counted | libdariadb/utils/striped_map.h:126-127 | the size counter is the number of keys |
| StripedLocks.LockOfBucket | libdariadb/utils/striped_map.h:132-135 | when the lock count divides the bucket count, the lock of a hash is the lock of its bucket |
| StripedLocks.Step | libdariadb/utils/striped_map.h:129-236 | every step of every thread keeps the invariant and does one atomic operation on the map or none |
| StripedLocks.RunRefines | libdariadb/utils/striped_map.h:129-236 | in every interleaving the memory stands for the map that the operations so far produce one after the other, and every answer is that map's answer |
| StripedLocks.CallTakesEffect | libdariadb/utils/striped_map.h:129-175 | every call of every thread in every interleaving takes effect in exactly one of its steps, does nothing to the map before it and after it only writes to its own key while it holds the bucket, and a find returns what the map holds for its key at that step |
| StripedLocks.CallReturns | libdariadb/utils/striped_map.h:129-175 | a call returns only once it has taken effect, by a step that does nothing else |
| StripedLocks.SizeAtRest | libdariadb/utils/striped_map.h:281-316 | with no insertion half done the counter is the number of keys |
| StripedLocks.Guarded | libdariadb/utils/striped_map.h:129-175 | in every reachable state the lock count divides the bucket count and whoever is at work on bucket i holds lock i mod L |
| StripedLocks.OnlyHoldersWrite | libdariadb/utils/striped_map.h:160-236 | a step that changes a bucket is taken by the holder of its lock, one that changes the table by the holder of all locks |
| StripedLocks.Progress | libdariadb/utils/striped_map.h:258-271 | from any thread in a call one can follow the waiting to a thread that can step |
| StripedLocks.NoDeadlock | libdariadb/utils/striped_map.h:160-271 | in every reachable state with a call in progress some call can take a step |
| Streams.MergeUnique | libdariadb/storage/cursors.cpp:166-197 | a strictly increasing stream that holds at each time what the first holder has is determined by its inputs |
| Streams.MergeAllCorrect | libdariadb/storage/cursors.cpp:166-197 | repeated merge steps give strictly increasing times, exactly the union of the input times, each value from the lowest-indexed cursor that holds its time |
| ArrayCursors.FullCursor.ReadNext | libdariadb/storage/cursors.cpp:100-113 | yields the top measurement and skips the rest of its run of equal times |
| Cursors.UnpackMerged | libdariadb/storage/cursors.cpp:46-64 | merges among the inputs give way to their sub-cursors, which keep their streams; range and, at every time, the first holder's value stay the same |
| Cursors.UnpackLinear | libdariadb/storage/cursors.cpp:66-83 | linear cursors among the inputs give way to their sub-cursors, in place; the streams end to end stay the same, and what did not overlap does not overlap after |
| Cursors.Cursor.SkipTime | libdariadb/storage/cursors.cpp:181-188 | on a cursor of any kind, reading while the top has time t drops exactly the leading measurements of that time |
| Cursors.MergeSortCursor.constructor | libdariadb/storage/cursors.cpp:138-164 | over any cursors with something left, arrays, chunks, linear cursors or merges, what is pending is the merge of their streams, and the range is the smallest that covers theirs |
| Cursors.MergeSortCursor.MinTimeIndex | libdariadb/storage/cursors.cpp:29-44 | finds the lowest index among those with the earliest top time |
| Cursors.MergeSortCursor.ReadNext | libdariadb/storage/cursors.cpp:166-197 | yields the next measurement of the merge of all sub-cursors, of whatever kind, and the cache still matches them |
| Cursors.MergeSortCursor.IsEnd | libdariadb/storage/cursors.cpp:199-206 | true if and only if every sub-cursor is exhausted, that is, the merge has nothing left |
| Grouping.Group | libdariadb/storage/cursors.cpp:280-316 | the groups are the connected components of range overlap if and only if the ranges are in a suitable order; in any order exactly the cursors that reach no new one are left alone, exactly those that overlap another are grouped, no cursor is in two groups, and groups are connected and not single |
| Grouping.GroupedOnce | libdariadb/storage/cursors.cpp:280-316 | every cursor is in exactly one place if and only if none is left alone although it overlaps another |
| Grouping.SortedIsOrdered | libdariadb/storage/cursors.cpp:280-316 | ranges listed by start time are in a suitable order |
| Grouping.PairIsOrdered | libdariadb/engines/engine.cpp:580-588 | any two ranges are |
| Grouping.OutOfOrder | libdariadb/storage/cursors.cpp:302-314 | three ranges that are not in a suitable order: the second is left alone and is in the group of all three as well |
| Blocks.BlockBefore | libdariadb/storage/cursors.cpp:226-257 | components of range overlap do not interleave: the one that starts first ends before the other starts |
| Blocks.BlocksCollapse | libdariadb/storage/cursors.cpp:318-331 | joining the lone cursors and the merges of the groups gives, at every time, all that a lone first holder has there, or the first measurement of a first holder that overlaps others |
| Blocks.CollapseUnique | libdariadb/storage/cursors.cpp:318-331 | of such streams there is only one |
| Blocks.CollapseLookup | libdariadb/storage/cursors.cpp:318-331 | at every time it starts with what the merge of all cursors holds |
| Blocks.CollapseIsMerge | libdariadb/storage/cursors.cpp:280-332 | it is the merge of all cursors if and only if every cursor that overlaps no other is strictly increasing |
| Blocks.InTurnIsMerge | libdariadb/storage/cursors.cpp:318-331 | whatever the ranges and the order, a stream that reads every block once is the merge of all streams if and only if its times keep increasing |
| Cursors.LinearCursor.constructor | libdariadb/storage/cursors.cpp:226-247 | over cursors of any kind the sub-cursors are read by start and nothing is lost or added, and if they are sorted and their ranges do not overlap what is pending is the sorted stream that holds at every time all that the one cursor with that time has |
| Cursors.LinearCursor.ReadNext | libdariadb/storage/cursors.cpp:249-257 | yields the next measurement of the sub-cursors read in turn and drops a sub-cursor as soon as it is exhausted; sub-cursors that followed each other still do |
| Collapse.CollapseCursors | libdariadb/storage/cursors.cpp:280-332 | over cursors of any kind, in any order that puts each in one place, every input is read in one block and the result is one merge of all if and only if its times keep increasing; if the list is in order and the streams lie in their ranges it is the collapsed stream, whose times keep increasing if and only if every cursor that overlaps no other is strictly increasing |
| Collapse.CollapsedAgain | libdariadb/storage/pages/page_manager.cpp:229 | a collapsed cursor meets what collapsing asks of its inputs, and lies in its range |
| ChunkSources.OpenChunk | libdariadb/storage/pages/page.cpp:571-578 | the cursor of any chunk meets it too; if its times stay below the largest it is sorted, lies in its range if and only if the chunk is out of order or no step is bumped, and is strictly increasing unless the chunk is in order and is read back with a run of equal times at its end |
| ChunkSources.ArrayReady | libdariadb/storage/cursors.cpp:85-113 | and so does an unread cursor over a sorted array, which always is |
| ChunkSources.ChunkIncreasing | libdariadb/storage/chunk.cpp:31-56 | what a chunk in order yields is sorted, and strictly so if and only if it does not end in a run of equal times |
| ChunkSources.ChunkWithin | libdariadb/storage/chunk.cpp:31-56 | what a chunk in order yields lies in the range of its header if and only if no step is bumped |
| ChunkSources.TrailingRunRepeats | libdariadb/storage/cursors.cpp:310-331 | a chunk with two measurements of time 2 at its end and a chunk at time 3 collapse to a stream that holds both, which is not their merge |
| ChunkSources.DriftRepeats | libdariadb/storage/cursors.cpp:310-331 | a chunk read back one moment past its range and a chunk at that moment do not overlap by their ranges, are strictly sorted each, and are not merged |
| TwoLevel.PairCollapse | libdariadb/engines/engine.cpp:580-588 | the collapsed stream of two cursors is their merge if they overlap, else the earlier one followed by the later |
| TwoLevel.CollapseId | libdariadb/storage/cursors.cpp:334-344 | the cursor of an id yields its only level's stream as it is, or the two levels collapsed, the top level's first |
| TwoLevel.InternalReaders | libdariadb/engines/engine.cpp:569-593 | exactly the ids known to a level have a cursor, and the cursors share no object |
| TwoLevel.Drain | libdariadb/interfaces/icursor.cpp:16-26 | draining a cursor appends exactly the part of its stream that the query asks for |
| TwoLevel.ReadInterval | libdariadb/engines/engine.cpp:684-702 | the result is, per distinct id in query order, the query's part of what is read for the id, whatever kind of cursor the levels hand out; an id named again adds nothing |
| TwoLevel.TopShadows | libdariadb/engines/engine.cpp:580-588 | what is read is sorted, at equal times the top level shadows the page, and each time comes once if and only if the levels overlap or neither repeats a time itself |
| TwoLevel.IdAnswer | libdariadb/engines/engine.cpp:569-702 | one id's part of the answer is sorted, holds at each time exactly the measurements read there that match the query, and repeats no time unless what is read does |
| TimePoints.ReadTimePoint | libdariadb/interfaces/icursor.cpp:28-44 | the result is the last candidate of the stream, or the default measurement |
| TimePoints.LatestExactly | libdariadb/interfaces/icursor.cpp:28-44 | for any ids and flag, every time point is answered with a latest candidate if and only if the matching stream, wherever it steps back, comes to the same time again |
| TimePoints.LatestInSorted | libdariadb/interfaces/icursor.cpp:28-44 | a sorted stream always is answered so |
| TimePoints.ChunkTimePoint | libdariadb/storage/pages/page.cpp:535-537 | the read over any chunk gives the last candidate of what its cursor yields, a latest one unless the chunk is in order and drifts past the largest time |
| TimePoints.WrappedNotLatest | libdariadb/compression/delta.cpp:123-139 | a chunk in order that does, and answers its last moment with time 0 |
| Dropper.PartialIsNotComplete | libdariadb/storage/pages/page.cpp:94-126 | a page cut off before its footer is never taken for a finished one |
| Dropper.Step | libdariadb/storage/dropper.cpp:50-218 | every step of callers, worker, stages, readers, crash and recovery keeps the invariant |
| Dropper.CrashSafe | libdariadb/storage/dropper.cpp:62-78 | in every run with crashes anywhere no batch is ever lost, and once the clean-up is through each batch is in exactly one of its WAL or a complete page |
| Dropper.DropAtomic | libdariadb/storage/dropper.cpp:80-135 | at most one operation is active, always under the dropper's lock, so whoever else holds the lock sees each batch exactly once |
| Dropper.DroppedOnce | libdariadb/storage/dropper.cpp:50-60 | no WAL is removed twice in a run |
| Dropper.CleanStorage | libdariadb/storage/dropper.cpp:62-78 | the nested loops erase exactly the pages that have a WAL of the same stem, with their indexes |
| Dropper.CleanStepsClean | libdariadb/storage/pages/page_manager.cpp:420-429 | erasing file by file comes to the same disk |
| Dropper.CleanRun | libdariadb/storage/dropper.cpp:62-78 | in every run, a start whose erasures are not disturbed ends with exactly the pages that have a WAL erased |
| Dropper.ListedAfterRecovery | libdariadb/storage/manifest.cpp:58-92 | after recovery the manifest leads to every batch if and only if it listed every WAL file before |
| Dropper.ListedRun | libdariadb/storage/wal/wal_manager.cpp:655-661 | as long as no crash falls between unlisting a WAL and removing it, every recovery leaves every batch listed |
| Dropper.OrphanedInWindow | libdariadb/storage/wal/wal_manager.cpp:655-661 | a crash there always leaves the batch in an unlisted WAL alone |
| DropRuns.OrphanRun | libdariadb/storage/wal/wal_manager.cpp:655-661 | a run from the empty storage that ends so |
| Dropper.OpensAfterRecovery | libdariadb/storage/pages/page_manager.cpp:52-72 | the first start can open its pages if and only if no page it erases is listed; the start after that always can |
| DropRuns.FailedOpenRun | libdariadb/storage/pages/page_manager.cpp:52-72 | a run from the empty storage after which the first start cannot |
| Dropper.IndexReadable | libdariadb/storage/pages/index.cpp:89-121 | an index appended to a stale file reads back right if and only if the stale file was empty or began with the same records |
| Dropper.DropIndex | libdariadb/storage/pages/page.cpp:94-126 | in every run, the index a drop leaves is what it found, then its records, then its footer, and the new page is read in full if and only if it found nothing or the same records first |
| Dropper.DropIndexStays | libdariadb/storage/dropper.cpp:137-218 | once the WAL is gone, page and index stay as they are for the rest of the run |
| Dropper.IndexRun | libdariadb/storage/pages/page.cpp:116-122 | as long as no crash falls between the two halves of an erase, every page that has replaced its WAL is read in full through its index |
| Dropper.IndexLeftBehind | libdariadb/storage/pages/page_manager.cpp:420-429 | a crash there leaves an index that stays as it is in every further run, through all clean-ups and crashes, until a drop of the same stem opens its page |
| DropRuns.LostChunkRun | libdariadb/storage/pages/index.cpp:89-104 | a run from the empty storage, with a crash in the middle of writing an index and one in the middle of the erasure after it, at whose end a finished page of two chunks is read without its second |
| NetBatch.PackMeas.Pack | network/common/net_data.cpp:28-37 | the buffer grows by exactly the LEB128 code |
| NetBatch.NegativeNeverEnds | network/common/net_data.cpp:28-37 | with the sign bit set the shifted value never becomes zero |
| NetBatch.PackedSize | network/common/net_data.cpp:15-37 | a record takes one byte for every seven-bit group of its flag, time and value |
| NetBatch.OversizedRecord | network/common/net_data.cpp:15-26 | a record overruns its buffer of twenty bytes if and only if the groups of its fields exceed twenty, as those of the widest do |
| NetBatch.UsuallyPackable | network/common/net_data.cpp:15-37 | with a one-byte flag or a time below 2^42 a record packs if and only if its value has the sign bit clear |
| NetBatch.AddNext | network/common/net_data.cpp:104-127 | the next measurement is added, under a new header if its id differs, if and only if it fits with a byte to spare |
| NetBatch.MakeQuery | network/common/net_data.cpp:89-132 | at least one measurement is packed and all that fit are, in order, as maximal runs of equal ids with counts below 2^16; nothing is written outside the free space and at least one byte is left |
| NetBatch.ParseBytesOf | network/common/net_data.cpp:134-158 | the bytes of any groups, whatever follows them, parse to exactly their measurements, ids and order included |
| NetBatch.UnpackMeas | network/common/net_data.cpp:40-66 | reads the three numbers of one record and moves just past it |
| NetBatch.ReadMeasArray | network/common/net_data.cpp:134-158 | reads what the format says the message holds |
| NetBatch.MessageReads | network/common/net_data.cpp:134-158 | a message made of groups decodes to their measurements |
| NetBatch.Append | network/libclient/client.cpp:247-282 | the loop ends, its messages decode to consecutive non-empty parts that together are the array, and every framed length fits 16 bits |
| Calendar.DateOf | libdariadb/timeutil.cpp:39-58 | the date of a day number has that number |
| Calendar.DateRoundTrip | libdariadb/timeutil.cpp:39-69 | the date of a date's day number is that date |
| Calendar.YearStartClosed | libdariadb/timeutil.cpp:34-69 | the calendar's years start where the rule of fours, hundreds and four hundreds says |
| Calendar.WeekOf | libdariadb/timeutil.cpp:228-247 | stepping day by day finds the Monday before and the Sunday after |
| Calendar.FixedInterval | libdariadb/timeutil.cpp:195-226 | the minute, half hour, hour or day of a moment starts at the multiple of its length just before the moment |
| Calendar.WeekInterval | libdariadb/timeutil.cpp:228-247 | the week of a moment runs from the start of a Monday to the last moment of the Sunday after it |
| Calendar.MonthInterval | libdariadb/timeutil.cpp:249-254 | the month of a moment runs from its first day to the moment before the first day of the next month |
| Calendar.YearInterval | libdariadb/timeutil.cpp:256-260 | the year of a moment runs from its first day to the moment before the next year's |
| Calendar.Contains | libdariadb/timeutil.cpp:189-262 | the interval of a moment contains it |
| Calendar.Same | libdariadb/timeutil.cpp:189-262 | all moments of an interval have that interval |
| Calendar.Tiles | libdariadb/aggregate/aggregator.cpp:24-38 | half a nominal period past the end of an interval lies in the next one, which begins at the very next moment, for every period, month length and leap year |
| Timers.FireKeeps | libdariadb/aggregate/aggregator.cpp:24-38 | a callback that waits for the end of the interval after those it has done still does so after firing |
| Timers.FirstCall | libdariadb/aggregate/aggregator.cpp:24-38 | a callback first called at any moment goes on to the next interval if and only if half a period takes it past the end of this one |
| Timers.HourTwice | libdariadb/aggregate/aggregator.cpp:24-38 | a callback first called at moment 0 of an hour aggregates that hour twice |
| Timers.EachMomentOnce | libdariadb/aggregate/aggregator.cpp:24-38 | every moment from the first aggregated interval to the last is in exactly one of them |
| Timers.Timer.AddCallback | libdariadb/aggregate/timer.cpp:29-37 | the queue gains the record and stays sorted by target |
| Timers.Timer.FillTimer | libdariadb/aggregate/aggregator.cpp:63-83 | each period has a callback, due at the end of the interval of the start |
| Timers.Timer.Pass | libdariadb/aggregate/timer.cpp:39-51 | exactly the records that are due fire once each, and the queue is sorted again |
| Timers.RunTiles | libdariadb/aggregate/timer.cpp:39-51 | after any passes at any times the aggregated intervals start with that of the start, are consecutive, and the callback waits for the end of the next |

## Left out

- Grouping.Group: for orders in which the groups are not the components the contract says who is left alone and who is grouped, not which members share a group.
- Collapse.CollapseCursors: requires that no cursor is put in two places, in which case one object is shared by the merge and the list, and, like the merge, sorted streams that hold no measurement at the largest time, which stands for "nothing left".
- IntervalStats.OutOfOrderRight: no exact condition for a chunk out of order in which a bumped step makes two neighbours coincide; BumpedYetRight shows that such a chunk can be right.
- TwoLevel.ReadInterval: one cursor per level and id, which may itself be collapsed from any number, of a sorted stream in its range; a chunk with a bumped step leaves its range.
- Compress.CreatePage: the statistic's counter is unbounded, and chunks are written in one pass instead of ten at a time.
- Chunks.Chunk.Append: requires a writer that has not refused before and a writable XOR, which the original demands of its callers but does not test.
- NetBatch.MakeQuery: requires records that fit their buffer and a start inside the array, which the original demands but does not test.
- StripedLocks.RunRefines: memory accesses are sequentially consistent steps, among them the unlocked reads of the counter and, after it, of the bucket count.
- Dropper.CrashSafe: process crashes only; what an operating system has accepted stays on disk, and file names are never reused.
- Dropper.PartialIsNotComplete: page and index files are sequences of chunks, records and footers, not bytes; a footer is recognised as one.
- Calendar.Tiles: no upper end of the calendar and no wrap-around of 64-bit times; the original's date library stops at the year 9999, and a week that begins in 1969 wraps there.
- IEEE arithmetic: sums are exact real numbers, and the starting value of the maximum is a parameter.
- The manifest's own rewrite at start is one step.
- Appending to a chunk that was opened from disk; opened chunks are read only.
- Out-of-order chunks with adjacent equal times, whose sorted copy is padded with blanks, beyond what ChunkCursors.GetReader states.
- `clear` and `reserve` on a used striped map, and `apply` racing with a rehash.
- The engine's cache strategy, error and stop paths of the dropper, repacking of pages, and the memory storage.
- Statistic functions, schemes, settings, shards, subscriptions and network connections: they would only add easy members.
