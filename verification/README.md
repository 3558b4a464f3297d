# Verified model of a clustered time series store

A Dafny 4.11 model of the parts of the store where a small mistake loses or reorders data, and
proofs of what they promise. `dafny verify dfyconfig.toml` checks the whole project.

| part | files |
|---|---|
| value lists: search, range filters, deduplication, overlay | Values.dfy |
| compaction of one key: windows, rounds, chunks, fast and full paths | Windows.dfy, Rounds.dfy, Scatter.dfy, Progress.dfy, Lengths.dfy, Compaction.dfy, LostValue.dfy |
| codecs: bit reader, floats, integers, booleans | Bits.dfy, BitReader.dfy, FloatCodec.dfy, Float.dfy, ByteCodes.dfy, IntCodec.dfy, Integers.dfy, Booleans.dfy |
| batch cursors over cache and files | Merging.dfy, Cursors.dfy |
| in-memory cache with snapshots and deletes | MapSums.dfy, CacheModel.dfy, RangeDelete.dfy, Cache.dfy |
| compaction planner | Generations.dfy, Planner.dfy |
| hinted handoff: segment file, queue, sender | SegmentFile.dfy, Segment.dfy, Queue.dfy, HintedQueue.dfy, Sender.dfy |
| cluster: placement, node removal, point mapping, acknowledgement | Cluster.dfy, Removal.dfy, PointMapping.dfy, Acknowledgement.dfy |
| shared: optional values, sequences, sorting | Options.dfy, Sequences.dfy, Sorting.dfy |

Each imperative part is a class or a method with loops in the form of the program, proved against
functions on values; the promises over whole runs are lemmas about those functions, or invariants
(`Valid`, `Synced`) that every method keeps.

The simple specifications the parts are held against:

- A list of values means a map, the last write winning (`Values.View`). Compaction, cursors and cache
  are stated by that map together with strict order, which determine a list (`AscendingUnique`).
- A byte string means its bits, most significant first. Words are sequences of 64 bits.
- A segment file means a list of records and a head; a queue means the concatenation of the unread
  records of its segments; a sender splits everything accepted into handled and waiting.
- A plan means a bag of file paths; the planner keeps the bag of all outstanding groups free of duplicates.

What the proofs found where the program does less than one would expect:

- Compaction does not sort the blocks of a key. For every list of blocks `CompactKey` proves that the output
  means what all rounds yield (`Rounds.Yield`), and `NothingInvented` that this is taken from the blocks. It is
  faithful if no block lies behind all its predecessors (`Windows.InOrder`, implied by ascending start times).
  For blocks that do not overlap no value is ever lost, and the output is in order exactly if
  `Scatter.AllWellCut` holds, a comparison of two counts for each block that can be made before the run.
  `TwoBlocks` spells this out for two blocks and `OutOfOrderExample` gives an input that comes out in the
  wrong order. With overlap and disorder together a value can be dropped: `CompactLoses` gives four blocks from
  which every compaction drops one.
- A queue can get stuck: its head segment is read to the end, `Current` reports end of file and the sender
  never advances, although records wait behind it. `AppendSticks` and `AdvanceSticks` give the exact conditions
  for one operation, `RunSticks` for any run. There are three ways: an append opens a segment behind a head
  that is read to the end and full (`BecomesStuck`); an append goes behind a head that is read to the end and
  an empty segment that a refused record left (`RefusalSticks`); an advance reaches such an empty segment
  (`EmptySegmentSticks`). `StuckAppend` and `SendAll` show that neither appends nor the sender get it going.
- When every segment of a queue is purged for its age, the tail stays the segment that was dropped: from then
  on appends are answered with success and their records are lost (`PurgedDrops`).
- A range delete in the cache searches an entry that may not be in order, and of the values stamped with the end of
  the range it takes one. On an entry in time order it removes the range and nothing else if and only if at most one
  value is stamped with that end (`SortedExactly`; `SurvivesTwice` is the failing instance), as it is for entries
  that were read before (`AscendingCuts`). `DividedExactly` gives the condition for other entries that both bounds
  divide; in general the values of the range must at least lie side by side (`SideBySide`, `SurvivesUnordered`).
- A batch cursor misses every stored value if its first block does not reach the seek time but a later one does
  (`AscSeek`, `DescSeek` state exactly when).
- Removing a node takes its id off an owner list only once (`RelinquishedOccurs`); with duplicate owners
  the id survives and reassignment can fail (`RemoveFromGroup` gives the condition). A shard that is
  reassigned is left without a status for its new owner (`StatusAfter`).
- A group lookup by binary search does not find a time exactly if a group behind it ends before every group that
  contains it (`HiddenExactly`). Groups of one duration never hide each other (`OneLength`, `TidyStores`), but
  after the length of the groups was changed they can: a write request then drops points that are not too old
  (`TwoExactly`, `DroppedExactly`; `LostAfterUpdate` gives the input).
- The answers to a replicated write are counted, not the nodes: with a node listed twice among the owners of a
  shard a quorum can be that node alone (`NodesExactly`, `QuorumOfOne`).
- An advance without a read before it takes the cached length. Behind an unread empty record that can be the length
  of a later one, and the head pointer on disk can then end up in the middle of a record (`Segment.Append` says
  exactly when; `StraysInside`, `AdvanceUnread`). The sender always reads first.
- A cache key first written without values takes only unsigned values from then on (`EmptyWriteFixesType`).
- `Merge` of an empty and an unordered list returns the unordered list unchanged.

Assumptions that stand for code outside the model, each a parameter or a precondition:

- `IntCodec.Lawful`: the word packer unpacks what it packed and yields 1 to 240 values per word.
- The bit stream writer appends bits, hands on whole bytes, and on a flush fills the last byte with zeros
  (`Bits.Whole`, `Bits.Filled`).
- A key cursor yields non-empty blocks in order; timestamps lie above the end marker `Cursors.EOF`.
- `PointMapping.Answers`: a group that the metadata answers with contains the time and has shards, as
  `Cluster.Data.GroupAt` shows of the groups it creates. There is one answer for each point, so they may
  change in between.
- File I/O succeeds; sizes stay below 2^63, counted memory below 2^64.
- Methods run one at a time: locks and goroutines are replaced by parameters for the answers of the world
  (`Sender.World`, `Acknowledgement.Event`), over which the properties hold in any order.

Where a comment and the code differ, the model follows the code: `findGenerations` is described as
newest first but sorts by ascending id; the group lookup is described as finding the group with the earliest end of
those that match, but can find none although one matches; and the planner's grouping also joins a lower level to a higher
one in front of it.

## Model

| member | source | states |
|---|---|---|
| `Values.Search` | tsdb/engine/tsm1/encoding.gen.go:353-370 | binary search finds the one insertion position: everything before it is earlier than the time, everything from it on is not |
| `Values.FindRange` | tsdb/engine/tsm1/encoding.gen.go:376-389 | (-1, -1) exactly when the list is empty or lies outside the range, otherwise the insertion positions of both bounds |
| `Values.Exclude` | tsdb/engine/tsm1/encoding.gen.go:302-324 | in place, keeps exactly the values outside the range, in order |
| `Values.Include` | tsdb/engine/tsm1/encoding.gen.go:327-347 | in place, keeps exactly the values inside the range, in order |
| `Values.Deduplicate` | tsdb/engine/tsm1/encoding.gen.go:270-299 | any list becomes strictly ascending and keeps its last-write-wins meaning |
| `Values.SortStable` | tsdb/engine/tsm1/encoding.gen.go:288 | sorted by time, values of one timestamp keep their order |
| `Values.KeepLast` | tsdb/engine/tsm1/encoding.gen.go:289-298 | the in-place pass over a sorted list keeps the last value of each timestamp |
| `Values.Merge` | tsdb/engine/tsm1/encoding.gen.go:394-431 | the result means the overlay of both lists with the second winning; it is strictly ascending exactly if both are non-empty or their concatenation already is |
| `Values.Overlay` | tsdb/engine/tsm1/encoding.gen.go:417-430 | the two-finger loop on ascending lists gives the ascending overlay |
| `Values.AscendingUnique` | tsdb/engine/tsm1/encoding.gen.go:245-255 | an ascending list is determined by its meaning, so the clauses above fix the results completely |
| `Values.FilterAscending` | tsdb/engine/tsm1/encoding.gen.go:302-347 | on ascending lists both range filters are slices |
| `Values.ViewFilterAt` | tsdb/engine/tsm1/encoding.gen.go:302-347 | filtering a list filters its meaning, time by time |
| `Windows.WindowWitness` | tsdb/engine/tsm1/compact.gen.go:47-61 | the window of a round ends where some unread block ends and reaches down to that block |
| `Windows.WindowLowest` | tsdb/engine/tsm1/compact.gen.go:47-61 | if no unread block ends before the head starts, the window reaches down to every unread block |
| `Windows.TrackedDone` | tsdb/engine/tsm1/compact.go:1169-1171 | a block whose consumed part is its prefix up to a time counts as read exactly when it ends by that time |
| `Windows.FreshSlice` | tsdb/engine/tsm1/compact.gen.go:69-84 | what a round takes from such a block is the next slice of its values |
| `Windows.StepTracked` | tsdb/engine/tsm1/compact.gen.go:69-88 | the read range of a block covers exactly its consumed prefix, round after round |
| `Windows.PartTracked` | tsdb/engine/tsm1/compact.gen.go:63-91 | a round takes from a block exactly its surviving values between the last frontier and the end of the window |
| `Windows.RoundProgress` | tsdb/engine/tsm1/compact.gen.go:40-92 | every round reads at least one more block to its end, whatever the list: the merge terminates |
| `Windows.RoundConsumed` | tsdb/engine/tsm1/compact.gen.go:47-91 | in an ordered key a round moves all blocks together to the end of the window |
| `Windows.RoundProduced` | tsdb/engine/tsm1/compact.gen.go:47-91 | in an ordered key a round yields the key's meaning between the old and the new frontier |
| `Windows.TakeWhole` | tsdb/engine/tsm1/compact.gen.go:97-165 | an unread block of a disjoint list can be passed on whole |
| `Windows.AscendingStarts` | tsdb/engine/tsm1/compact.go:1353-1361 | blocks listed by ascending start time are in order |
| `Windows.Finished` | tsdb/engine/tsm1/compact.gen.go:37-92 | once no block is left the output is the ascending overlay of all of them |
| `Windows.StrandedOutput` | tsdb/engine/tsm1/compact.gen.go:47-92 | an output that begins with a head block while an earlier value waits in a later block is not that overlay |
| `Rounds.TotalWhole` | tsdb/engine/tsm1/compact.gen.go:97-165 | passing on the head of a disjoint list yields what a round of its own would |
| `Rounds.NothingInvented` | tsdb/engine/tsm1/compact.gen.go:63-91 | for every list of blocks, ordered or not, whatever is emitted is a surviving value of one of them |
| `Progress.RoundKeeps` | tsdb/engine/tsm1/compact.gen.go:40-91 | a round keeps the output, with the rounds to come, equal to what the key yields, and the further promises for ordered and for disjoint keys |
| `Progress.PassKeeps` | tsdb/engine/tsm1/compact.gen.go:100-135 | so does passing a block on whole |
| `Progress.AbsorbKeeps` | tsdb/engine/tsm1/compact.gen.go:137-158 | so does merging a small block of a disjoint list in |
| `Progress.CutKeeps` | tsdb/engine/tsm1/compact.gen.go:168-204 | so does cutting a chunk |
| `Progress.EndKeeps` | tsdb/engine/tsm1/compact.gen.go:10-204 | what these promises come to when the key is used up |
| `Compaction.Block.MarkRead` | tsdb/engine/tsm1/compact.go:1173-1181 | the read range grows to the hull of both ranges |
| `Compaction.Block.NarrowWindow` | tsdb/engine/tsm1/compact.gen.go:53-61 | widens the window down to an overlapping block and narrows it to that block's end |
| `Compaction.Block.ReadWindow` | tsdb/engine/tsm1/compact.gen.go:69-88 | returns the unread values of the window without the tombstoned ones and marks what it took |
| `Compaction.ApplyTombstones` | tsdb/engine/tsm1/compact.gen.go:86-88 | every tombstone is cut out, in place |
| `Compaction.KeyIterator.NeedsDedup` | tsdb/engine/tsm1/compact.gen.go:16-29 | deduplication is chosen exactly if the unread blocks are not ascending, disjoint, untouched and untombstoned |
| `Compaction.KeyIterator.SelectWindow` | tsdb/engine/tsm1/compact.gen.go:47-61 | computes the window of the round |
| `Compaction.KeyIterator.ReadRound` | tsdb/engine/tsm1/compact.gen.go:63-91 | every block steps through the window and the merged values gain exactly its part |
| `Compaction.KeyIterator.Round` | tsdb/engine/tsm1/compact.gen.go:40-91 | keeps the output equal to the overlay up to the frontier and lowers the work left |
| `Compaction.KeyIterator.FillChunk` | tsdb/engine/tsm1/compact.gen.go:39-92 | rounds go on until a chunk is full or the blocks are used up |
| `Compaction.KeyIterator.Chunk` | tsdb/engine/tsm1/compact.gen.go:168-204 | cuts off the first values as one labelled block and loses none |
| `Compaction.KeyIterator.CombineDedup` | tsdb/engine/tsm1/compact.gen.go:39-95 | queues one chunk, full unless the key is used up |
| `Compaction.KeyIterator.CombineDisjoint` | tsdb/engine/tsm1/compact.gen.go:97-165 | blocks of at least a chunk pass on whole, on the fast path the smaller ones behind them too, small ones are combined into a chunk; the output stays in step, every queued block has its size unless nothing will follow it, and the list shrinks; for blocks that follow each other the queued blocks and those to come have exactly the planned lengths |
| `Compaction.KeyIterator.MergeFloat` | tsdb/engine/tsm1/compact.gen.go:10-32 | either path keeps the output in step, queues blocks of their sizes and makes progress; nothing queued means nothing left |
| `Compaction.KeyIterator.Refill` | tsdb/engine/tsm1/compact.go:1242-1257 | merges until a block is queued; false only if nothing is left, and every success brings the end nearer |
| `Compaction.KeyIterator.Next` | tsdb/engine/tsm1/compact.go:1234-1257 | hands out the queued blocks one by one and refills; false only when the key is exhausted |
| `Compaction.KeyIterator.Exhausted` | tsdb/engine/tsm1/compact.go:1234-1257 | at the end everything handed out is what the rounds over the key yield; for an ordered key it is the ascending overlay, for disjoint blocks the overlay, in order exactly if all is well cut |
| `Compaction.CompactKey` | tsdb/engine/tsm1/compact.gen.go:10-204 | the whole run over one key, on the fast and the full path: it terminates; for every list of blocks the output means the overlay of the parts of all rounds; if no block is behind its predecessors, it is exactly the tombstone-filtered overlay, later blocks winning, in ascending order; if no two blocks overlap, no value is lost in whatever order they are listed, and the output is in order exactly if no block with surviving values arrives after a chunk that belongs behind it was cut; if the first chunk leaves a surviving earlier value behind, the output is not faithful; every block but the last holds exactly the chunk size or is a stored block passed on whole, and on the full path then a larger one; the last is a stored block or at most a chunk; if the last listed block has tombstones all blocks are chunks; every block is labelled with its first and last time; if no block has tombstones and each ends before the next starts, the values are the concatenation of the blocks, the fast path emits exactly the blocks, one for one, the full path the leading ones of at least a chunk, and the lengths of all emitted blocks are given by `Lengths.Plan` |
| `Lengths.PlanFast` | tsdb/engine/tsm1/compact.gen.go:116-126 | on the fast path of such a key the emitted lengths are those of the blocks |
| `Lengths.PlanLeading` | tsdb/engine/tsm1/compact.gen.go:99-114 | on either path they begin with those of the leading blocks that hold at least a chunk |
| `Lengths.PlanPasses` | tsdb/engine/tsm1/compact.gen.go:97-134 | the large blocks in front, on the fast path all blocks, and a single last one are passed on, and the rest is gathered |
| `Lengths.RoundLeft` | tsdb/engine/tsm1/compact.gen.go:40-92 | with values waiting, a round over such a key takes the next block and nothing else |
| `Compaction.LinedOutput` | tsdb/engine/tsm1/compact.gen.go:97-165 | the lengths and the concatenated values together give the emitted blocks |
| `Compaction.CompactBothWays` | tsdb/engine/tsm1/compact.gen.go:97-165 | fast and full compaction of one ordered key, in chunks of whatever sizes, emit the same values; of blocks that follow each other the fast one emits each block as it is |
| `Compaction.DisjointOutput` | tsdb/engine/tsm1/compact.gen.go:97-165 | for blocks listed one after the other a faithful output is the concatenation of their surviving values |
| `Compaction.TwoBlocks` | tsdb/engine/tsm1/compact.gen.go:47-61 | for two untombstoned blocks the conditions are checked at a glance: in order unless the second ends before the first starts, and then well cut exactly if the first alone does not fill a chunk |
| `Scatter.UnderCount` | tsdb/engine/tsm1/compact.gen.go:168-204 | the values before a time are counted by the blocks that end before it |
| `Scatter.CutBefore` | tsdb/engine/tsm1/compact.gen.go:168-185 | if enough values come before a block, everything already cut comes before it |
| `Scatter.CutBeyond` | tsdb/engine/tsm1/compact.gen.go:168-185 | if more was cut than comes before a block, something later than the block was cut |
| `Scatter.RoundTaken` | tsdb/engine/tsm1/compact.gen.go:40-91 | a round over blocks that do not overlap reads the head block, all of it, and nothing else |
| `Scatter.TakeCut` | tsdb/engine/tsm1/compact.gen.go:63-91 | merging a block in keeps the count of cut and uncut values, the order if all is well cut, and what is broken or will be |
| `Scatter.PassCut` | tsdb/engine/tsm1/compact.gen.go:100-135 | so does passing a block on whole |
| `Scatter.CutMore` | tsdb/engine/tsm1/compact.gen.go:168-204 | so does cutting a chunk |
| `Scatter.ScatterEnd` | tsdb/engine/tsm1/compact.gen.go:10-204 | at the end of a key of disjoint blocks, with or without tombstones, nothing is lost, and the output is in order exactly if every block was well cut |
| `Compaction.OutOfOrderExample` | tsdb/engine/tsm1/compact.gen.go:47-92 | two blocks of one value, the later one first, in chunks of one: an input that is compacted out of order |
| `LostValue.ValueLost` | tsdb/engine/tsm1/compact.gen.go:47-91 | four overlapping blocks, out of order: the rounds yield no value stamped 20, although one block holds one, because the read range of that block spans the gap between two parts |
| `LostValue.CompactLoses` | tsdb/engine/tsm1/compact.gen.go:10-204 | compaction of these four blocks, fast or full, in chunks of any size, emits no value stamped 20 |
| `Compaction.BehindUnfaithful` | tsdb/engine/tsm1/compact.gen.go:47-92 | a key that leaves a value behind is never compacted faithfully |
| `BitReaders.BitReader.Reset` | tsdb/engine/tsm1/bit_reader.go:23-30 | the reader stands for the bits of the bytes, most significant first |
| `BitReaders.BitReader.ReadBitFast` | tsdb/engine/tsm1/bit_reader.go:37-42 | takes the first bit |
| `BitReaders.BitReader.ReadBit` | tsdb/engine/tsm1/bit_reader.go:45-48 | takes the first bit, end of file exactly when none is left |
| `BitReaders.BitReader.ReadBits` | tsdb/engine/tsm1/bit_reader.go:52-103 | takes the next 1 to 64 bits, zero-padded past the end; end of file exactly when none is left |
| `BitReaders.BitReader.ReadBuf` | tsdb/engine/tsm1/bit_reader.go:105-133 | refilling keeps the bit string, and a buffer that is not full means no data is left |
| `BitReaders.JoinBuffers` | tsdb/engine/tsm1/bit_reader.go:79-102 | shifting and or-ing two buffers lays their bits end to end |
| `BitReaders.EightBytes` | tsdb/engine/tsm1/bit_reader.go:114-123 | the shift-and-or load of eight bytes is their bit string |
| `BitReaders.AppendBytes` | tsdb/engine/tsm1/bit_reader.go:125-132 | the loop over fewer than eight bytes is their bit string |
| `BitReaders.ReadRun` | tsdb/engine/tsm1/bit_reader.go:23-133 | any run of reads returns consecutive slices of the data |
| `BitReaders.SlicesJoin` | tsdb/engine/tsm1/bit_reader.go:23-133 | those slices laid end to end are the data |
| `FloatCodec.WindowBack` | tsdb/engine/tsm1/float.go:123-140 | cutting the significant bits out of a word and shifting them back loses nothing |
| `FloatCodec.ReadNewWindowBack` | tsdb/engine/tsm1/float.go:236-258 | the masked leading count and the significant count, with 64 written as 0, are read back |
| `FloatCodec.DecodeEmit` | tsdb/engine/tsm1/float.go:92-275 | decoding what was written for one value gives it back and leaves the decoder in step, or stops at the sentinel |
| `FloatCodec.DecodeEmitAll` | tsdb/engine/tsm1/float.go:82-275 | decoding a run of values and the sentinel gives exactly the run |
| `FloatCodec.RoundTrip` | tsdb/engine/tsm1/float.go:82-275 | every list without the sentinel comes back from its flushed bytes and the stream ends cleanly |
| `Floats.FloatEncoder.Write` | tsdb/engine/tsm1/float.go:92-144 | appends the value's encoding; a NaN is refused and remembered as an error; after a flush the bits go behind the finished stream; every pattern with a clear exponent bit or a zero mantissa is taken, and no other before the flush |
| `Floats.FloatEncoder.WriteDelta` | tsdb/engine/tsm1/float.go:106-143 | writes the difference to the last value in the reused or in a new window |
| `Floats.FloatEncoder.Flush` | tsdb/engine/tsm1/float.go:82-89 | ends the stream with the sentinel once and fills its last byte with zeros |
| `Floats.FloatEncoder.Bytes` | tsdb/engine/tsm1/float.go:77-79 | the header and the whole bytes written so far: of an unfinished stream those that are complete, of a finished one the packed stream first |
| `Bits.PackFilled` | tsdb/engine/tsm1/float.go:82-89 | filling the last byte with zeros does not change the packed bytes |
| `Bits.WholePrefix` | tsdb/engine/tsm1/float.go:77-79 | a stream of whole bytes stays in front of whatever is written behind it |
| `Floats.FloatDecoder.SetBytes` | tsdb/engine/tsm1/float.go:163-189 | starts at the first value; a slice of one byte is an error |
| `Floats.FloatDecoder.Next` | tsdb/engine/tsm1/float.go:192-275 | refines the decoding of one value: next value, sentinel or error |
| `Floats.EncodeThenDecode` | tsdb/engine/tsm1/float.go:82-275 | for every list of 64-bit patterns the decoder returns exactly the values that are not NaN, then stops at the sentinel: a list of patterns that each have a clear exponent bit or a zero mantissa comes back as it is, and only such patterns come back |
| `FloatCodec.NumberExactly` | tsdb/engine/tsm1/float.go:94 | a pattern is a NaN exactly if it has neither a clear exponent bit nor a zero mantissa |
| `FloatCodec.NanPattern` | tsdb/engine/tsm1/float.go:30-31 | the sentinel is the pattern 0x7FF8000000000001 |
| `Floats.HeaderByte` | tsdb/engine/tsm1/float.go:56 | the header byte is 16, compression type 1 |
| `ByteCodes.ZigZagBack` | tsdb/engine/tsm1/encoding.go:1004-1013 | decoding inverts encoding on 64-bit numbers |
| `ByteCodes.ZigZagOnto` | tsdb/engine/tsm1/encoding.go:1004-1013 | encoding inverts decoding |
| `ByteCodes.UvarintBack` | tsdb/engine/tsm1/int.go:95-112 | every 64-bit number is read back from its variable-length form, whatever follows |
| `IntCodec.SumsOfDeltas` | tsdb/engine/tsm1/int.go:65-76 | summing the differences gives the values back, wrap-around included |
| `IntCodec.SumsRegular` | tsdb/engine/tsm1/int.go:224-234 | the closed form of a run agrees with repeated addition modulo 2^64 |
| `IntCodec.RoundTrip` | tsdb/engine/tsm1/int.go:65-324 | whichever of the three formats is chosen, 64-bit values come back |
| `IntCodec.OnePerWordLawful` | tsdb/engine/tsm1/int.go:115-138 | the assumptions on the word packer can be met |
| `Integers.IntegerEncoder.Write` | tsdb/engine/tsm1/int.go:65-76 | appends the zigzagged difference and tracks whether the run is regular |
| `Integers.IntegerEncoder.Bytes` | tsdb/engine/tsm1/int.go:79-164 | run length if it pays, raw words if a difference is too large, packed otherwise |
| `Integers.IntegerDecoder.SetBytes` | tsdb/engine/tsm1/int.go:176-193 | starts with the format tag of the slice |
| `Integers.IntegerDecoder.DecodeUncompressed` | tsdb/engine/tsm1/int.go:310-324 | takes one raw word or reports a short one |
| `Integers.IntegerDecoder.DecodePacked` | tsdb/engine/tsm1/int.go:280-308 | takes the raw first word or unpacks the next one |
| `Integers.IntegerDecoder.DecodeRLE` | tsdb/engine/tsm1/int.go:237-278 | takes the three fields of a run or reports which is missing |
| `Integers.IntegerDecoder.Next` | tsdb/engine/tsm1/int.go:196-216 | moves to the next value or stops exactly when none is left; after an error there is none |
| `Integers.IntegerDecoder.Read` | tsdb/engine/tsm1/int.go:224-234 | adds the difference to the last value, or evaluates the closed form of a run |
| `Integers.DecodeAll` | tsdb/engine/tsm1/int.go:176-324 | the decoder loop computes the decoding of any slice, errors included |
| `Integers.EncodeThenDecode` | tsdb/engine/tsm1/int.go:65-324 | every list of 64-bit values comes back without an error |
| `Booleans.BooleanEncoder.Write` | tsdb/engine/tsm1/bool.go:53-70 | appends one value, flushing a full byte |
| `Booleans.BooleanEncoder.Flush` | tsdb/engine/tsm1/bool.go:72-85 | pads the current byte and keeps every value readable |
| `Booleans.BooleanEncoder.Bytes` | tsdb/engine/tsm1/bool.go:91-106 | tag, count and packed values |
| `Booleans.BooleanDecoder.SetBytes` | tsdb/engine/tsm1/bool.go:117-139 | reads the count as a signed number, clips it to the bytes there are, fails on a bad count |
| `Booleans.BooleanDecoder.Next` | tsdb/engine/tsm1/bool.go:144-151 | steps until the count is reached |
| `Booleans.NothingRead` | tsdb/engine/tsm1/bool.go:117-151 | a count of 2^63 or more turns negative: no error, and no value |
| `Booleans.BooleanDecoder.Read` | tsdb/engine/tsm1/bool.go:154-169 | selects the bit of the current value |
| `Booleans.EncodeThenDecode` | tsdb/engine/tsm1/bool.go:53-169 | every list of booleans comes back |
| `SegmentFile.UnreadFromBytes` | services/hh/queue.go:388-402 | the bytes of a file alone determine its unread records |
| `SegmentFile.ParseLayout` | services/hh/queue.go:388-402 | length-prefixed records are read back |
| `SegmentFile.FileAt` | services/hh/queue.go:439-483 | the footer gives the head offset, and the head record and its length lie there |
| `SegmentFile.MoveHead` | services/hh/queue.go:578-590 | overwriting the footer moves the head |
| `SegmentFile.AppendRecord` | services/hh/queue.go:502-516 | overwriting the footer with a record and a footer appends the record |
| `Segments.Segment.Open` | services/hh/queue.go:439-487 | a new file gets its footer; an existing one gives position and current length, or an error if it is too short or its offset is negative |
| `Segments.Segment.Reopen` | services/hh/queue.go:419-487 | reopening the bytes a segment left restores position, size, current length and unread records |
| `Segments.Segment.Append` | services/hh/queue.go:490-529 | adds a record behind the others or refuses it by size; says exactly when the cached current length stays right: unless a non-empty record is put behind an unread empty one at the head |
| `Segments.StraysInside` | services/hh/queue.go:579-588 | the wrong length of the record right behind an empty one leads into the middle of that record |
| `Segments.AdvanceUnread` | services/hh/queue.go:564-608 | the failing input: an empty record, one that is not, and an advance without a read before; no record is where the footer then points |
| `SegmentFile.FileExactly` | services/hh/queue.go:564-608 | a footer makes a file of these records exactly if a record or the end is at its offset |
| `Segments.Segment.Current` | services/hh/queue.go:532-561 | the head record, end of file exactly when none is left; refreshes the cached length |
| `Segments.Segment.Advance` | services/hh/queue.go:564-608 | with the right length: moves over one record if there is one, and end of file exactly if none is left afterwards; with the length of a later record behind an empty head: the footer is set to where that leads, and nothing is reported |
| `QueueModel.AppendContents` | services/hh/queue.go:321-344 | an append adds at the end or changes nothing, and uses at most 16 bytes more than the record |
| `QueueModel.AdvanceContents` | services/hh/queue.go:356-386 | advance removes exactly the first record, and only if the head segment holds one; no unread record is trimmed |
| `QueueModel.Fifo` | services/hh/queue.go:321-386 | over any run, what was removed followed by the contents is what was there followed by what was accepted |
| `QueueModel.UsageBound` | services/hh/queue.go:328-344 | over any run the disk usage stays within the limit plus 16 bytes |
| `QueueModel.Drains` | services/hh/queue.go:347-386 | a flowing queue is emptied in order by as many advances as it holds records |
| `QueueModel.FlowingAdvance` | services/hh/queue.go:356-386 | a queue whose segments all hold records is not stuck and stays so under advance |
| `QueueModel.FlowingAppend` | services/hh/queue.go:332-343 | an append keeps a queue flowing exactly if the tail has room, or a new segment has and the head segment is not used up |
| `QueueModel.BecomesStuck` | services/hh/queue.go:332-343 | the simplest case: a queue of one used-up segment becomes stuck exactly if that segment is full for the record and a new one is not |
| `QueueModel.AppendSticks` | services/hh/queue.go:332-353 | exactly when a queue is stuck after an append: it was, or its head segment is read to the end and the record is taken elsewhere |
| `QueueModel.AdvanceSticks` | services/hh/queue.go:356-386 | exactly when it is stuck after an advance: that leaves the head segment, and the next one is used up with records behind it |
| `QueueModel.RunSticks` | services/hh/queue.go:321-386 | over any run a queue gets stuck exactly if one of its operations is of these two kinds |
| `QueueModel.RefusalSticks` | services/hh/queue.go:332-343 | a fresh queue that refuses an oversized record keeps an empty second segment, and the next record that fits sticks it |
| `QueueModel.EmptySegmentSticks` | services/hh/queue.go:356-386 | an advance that reaches such an empty segment sticks the queue |
| `QueueModel.StuckAppend` | services/hh/queue.go:321-353 | a stuck queue stays stuck under appends |
| `HintedQueues.Queue.Open` | services/hh/queue.go:95-124 | takes the segments found, adds one to an empty directory, trims a used-up head |
| `HintedQueues.Queue.DiskUsage` | services/hh/queue.go:237-243 | the sum over the segments |
| `HintedQueues.Queue.AddSegment` | services/hh/queue.go:246-259 | a fresh empty segment behind the others |
| `HintedQueues.Queue.Append` | services/hh/queue.go:321-344 | full queue, full segment or success, with the exact new state; says exactly when a segment no longer knows the length of its head record |
| `HintedQueues.Queue.Current` | services/hh/queue.go:347-353 | the first record; end of file exactly if the head segment is used up, even if later segments are not; afterwards the length of the head record is known |
| `HintedQueues.Queue.Advance` | services/hh/queue.go:356-371 | with the length known, as after Current: moves over the first record and trims a used-up head; otherwise the footer of the head goes to where the wrong length leads, the other segments stay, and success is reported |
| `HintedQueues.Queue.PromptHead` | services/hh/queue.go:356-371 | if every segment knows the length of its head record, Advance may be called without Current |
| `HintedQueues.Queue.TrimHead` | services/hh/queue.go:373-386 | drops and closes the head segment unless it is the only one |
| `HintedQueues.Queue.PurgeOlderThan` | services/hh/queue.go:177-209 | drops the leading aged segments; if all were aged the queue is left with an empty head and a tail that was dropped |
| `HintedQueues.Queue.AppendDetached` | services/hh/queue.go:321-344 | with such a tail every append within the limit is answered with success and changes nothing |
| `HintedQueues.PurgedDrops` | services/hh/queue.go:177-344 | so a record appended after all segments were purged is accepted and lost |
| `HintedQueues.Queue.Close` | services/hh/queue.go:127-140 | closes every segment, leaves the files as they are, and forgets the segments |
| `HintedQueues.Restart` | services/hh/queue.go:95-124 | a queue of one segment is restored from the bytes of its file |
| `Sender.MarshalWrite` | services/hh/node_processor.go:264-272 | eight bytes of id, then the points as lines; at least eight bytes |
| `Sender.NodeProcessor.WriteShard` | services/hh/node_processor.go:122-132 | refused by a closed processor or by the queue, under the exact conditions; an accepted write enters the queue once and reads back as the same id and text |
| `Sender.NodeProcessor.Close` | services/hh/node_processor.go:91-105 | a closed processor keeps what is waiting |
| `Sender.NodeProcessor.SendWrite` | services/hh/node_processor.go:196-234 | each attempt sends and removes the first record, skips an unreadable one, or changes nothing, with the exact answer for each state of the world; always handled plus waiting is what was accepted, in order |
| `Sender.NodeProcessor.SendAll` | services/hh/node_processor.go:163-187 | a round to a reachable node delivers all of a flowing queue of readable records, and nothing of a stuck one |
| `Merging.MergedOrdered` | tsdb/engine/tsm1/batch_cursor.gen.go:151-198 | the merge is strictly ordered in the direction of the cursor |
| `Merging.MergedView` | tsdb/engine/tsm1/batch_cursor.gen.go:151-198 | the merge means the stored values overlaid with the cached ones |
| `Merging.BatchesMeaning` | tsdb/engine/tsm1/batch_cursor.gen.go:151-198 | batches hold every value once, in order, and all but the last are full |
| `Cursors.AscSeek` | tsdb/engine/tsm1/batch_cursor.gen.go:123-141 | seeking in the first block finds the values from the seek time on exactly if that block reaches it or no block does |
| `Cursors.UnreachedExample` | tsdb/engine/tsm1/batch_cursor.gen.go:123-141 | an input where the first block hides the second |
| `Cursors.AscendingCursor.constructor` | tsdb/engine/tsm1/batch_cursor.gen.go:123-141 | positions both sides at the seek time; if the first block does not reach it but a later one does, nothing stored is left |
| `Cursors.AscendingCursor.PeekTSM` | tsdb/engine/tsm1/batch_cursor.gen.go:216-224 | the next stored value, or the end marker |
| `Cursors.AscendingCursor.NextTSM` | tsdb/engine/tsm1/batch_cursor.gen.go:227-235 | moves to the next stored value across blocks |
| `Cursors.AscendingCursor.Take` | tsdb/engine/tsm1/batch_cursor.gen.go:157-193 | one value of the merge, the cache winning ties |
| `Cursors.AscendingCursor.Next` | tsdb/engine/tsm1/batch_cursor.gen.go:151-198 | the next batch is the next values of the merge, as many as fit |
| `Cursors.AscendingCursor.ReadAll` | tsdb/engine/tsm1/batch_cursor.gen.go:151-198 | the whole run terminates and is the merge cut into batches |
| `Cursors.DescSeek` | tsdb/engine/tsm1/batch_cursor.gen.go:254-291 | the mirror image of the ascending seek |
| `Cursors.LastUpTo` | tsdb/engine/tsm1/batch_cursor.gen.go:257-282 | the last value at or before the seek time, or -1 |
| `Cursors.DescendingCursor.constructor` | tsdb/engine/tsm1/batch_cursor.gen.go:254-291 | positions both sides at the seek time; if the first block does not reach it but a later one does, nothing stored is left |
| `Cursors.DescendingCursor.PeekTSM` | tsdb/engine/tsm1/batch_cursor.gen.go:365-373 | the next stored value downwards, or the end marker |
| `Cursors.DescendingCursor.NextTSM` | tsdb/engine/tsm1/batch_cursor.gen.go:376-384 | moves down across blocks |
| `Cursors.DescendingCursor.Take` | tsdb/engine/tsm1/batch_cursor.gen.go:307-341 | one value of the descending merge |
| `Cursors.DescendingCursor.Next` | tsdb/engine/tsm1/batch_cursor.gen.go:300-347 | the next batch downwards |
| `Cursors.DescendingCursor.ReadAll` | tsdb/engine/tsm1/batch_cursor.gen.go:300-347 | the whole descending run |
| `Cursors.Strip` | tsdb/engine/tsm1/batch_cursor.gen.go:401-408 | scans back over the values beyond the bound |
| `Cursors.Stripped` | tsdb/engine/tsm1/batch_cursor.gen.go:401-408 | stripping an ordered batch keeps exactly its values inside the bound |
| `Cursors.AscendingRangeCursor.Next` | tsdb/engine/tsm1/batch_cursor.gen.go:398-411 | the next batch up to the bound |
| `Cursors.AscendingRangeCursor.ReadAll` | tsdb/engine/tsm1/batch_cursor.gen.go:398-411 | the run of the range cursor is the merge filtered by the bound |
| `Cursors.DescendingRangeCursor.Next` | tsdb/engine/tsm1/batch_cursor.gen.go:418-431 | the next batch down to the bound |
| `Cursors.DescendingRangeCursor.ReadAll` | tsdb/engine/tsm1/batch_cursor.gen.go:418-431 | the run of the descending range cursor is the merge filtered by the bound |
| `Cursors.ReadAscending` | tsdb/engine/tsm1/batch_cursor.gen.go:106-411 | a whole read: the values from seek to bound, cached ones winning, in time order; the cached values alone if the first block does not reach the seek time but a later one does |
| `Cursors.ReadDescending` | tsdb/engine/tsm1/batch_cursor.gen.go:238-431 | the same, latest first |
| `CacheModel.DedupSize` | tsdb/engine/tsm1/cache.go:118-126 | deduplicating never makes an entry larger |
| `CacheModel.DedupUniform` | tsdb/engine/tsm1/cache.go:118-126 | deduplicating keeps the type of an entry |
| `CacheModel.WriteHolds` | tsdb/engine/tsm1/cache.go:84-115 | a fitting write keeps the store in step with the log and adds exactly what it is charged |
| `CacheModel.NothingCounted` | tsdb/engine/tsm1/cache.go:414-424 | a store that counts for nothing holds no value, and no entry but under the empty key |
| `CacheModel.FreezeReads` | tsdb/engine/tsm1/cache.go:408-424 | moving the hot store into a snapshot that counts for nothing is invisible to readers |
| `Caches.Cache.EntriesOfOneKind` | tsdb/engine/tsm1/cache.go:64-76 | all values of an entry are of one kind |
| `CacheModel.FittingExactly` | tsdb/engine/tsm1/cache.go:83-94 | a write fits exactly if it does not clash: with a held value, with the unsigned kind of an entry without values, or of a new key with itself |
| `CacheModel.TagExactly` | tsdb/engine/tsm1/cache.go:777-790 | two kinds have one tag exactly if they are the same, and 0 is the tag of unsigned values |
| `CacheModel.OneSize` | tsdb/engine/tsm1/encoding.go:338-340 | what one value of each kind is charged |
| `CacheModel.EmptyWriteFixesType` | tsdb/engine/tsm1/cache.go:66-69 | a first write without values fixes the key to unsigned values: nothing else is taken afterwards |
| `Caches.Cache.DecreaseSize` | tsdb/engine/tsm1/cache.go:489-492 | the complement addition subtracts exactly; it is never asked for more than is counted |
| `Caches.Cache.StoreWrite` | tsdb/engine/tsm1/ring.go:237-262 | adds to or creates the entry exactly if no value clashes with the values held, and none of a new entry with another |
| `Caches.Cache.Write` | tsdb/engine/tsm1/cache.go:296-324 | limit, type conflict or success, with the exact new log and size; within the limit a conflict exactly if some new value is of another kind than a held one, of a new key if two new values are of different kinds; one value is charged 8 bytes and those of its payload, a string its length |
| `Caches.Cache.WriteMulti` | tsdb/engine/tsm1/cache.go:331-379 | in whatever order the keys are visited, every fitting key and no other reaches the log, and the size grows by exactly what those writes are charged; a conflict exactly if some key clashes in kind |
| `Caches.Cache.Snapshot` | tsdb/engine/tsm1/cache.go:383-431 | in progress, retry of a failed snapshot, or a new one; no reader sees a difference and no byte is lost from the count |
| `Caches.Cache.ClearSnapshot` | tsdb/engine/tsm1/cache.go:447-476 | a successful snapshot is dropped, a failed one stays |
| `Caches.Cache.DeduplicateEntry` | tsdb/engine/tsm1/cache.go:118-126 | sorts one entry in place without changing its meaning |
| `Caches.Cache.Deduplicate` | tsdb/engine/tsm1/cache.go:435-443 | sorts every entry in place |
| `Caches.Cache.Values` | tsdb/engine/tsm1/cache.go:539-593 | the strictly ascending last-write-wins view of the snapshot's writes followed by the later ones; both entries of the key are left sorted |
| `Caches.Cache.Delete` | tsdb/engine/tsm1/cache.go:596-598 | drops the hot values of the keys and exactly their bytes; what a snapshot holds stays visible |
| `Caches.Cache.DeleteRange` | tsdb/engine/tsm1/cache.go:604-634 | cuts one stretch out of each named entry, drops keys left without values, and frees exactly their bytes |
| `RangeDelete.Filter` | tsdb/engine/tsm1/encoding.gen.go:90-112 | on any list, ordered or not, cuts out the stretch between two binary searches |
| `RangeDelete.ProbeMonotone` | tsdb/engine/tsm1/encoding.gen.go:141-158 | even on an unordered list a later time is never found before an earlier one, so the stretch is well formed |
| `RangeDelete.SortedExactly` | tsdb/engine/tsm1/encoding.gen.go:90-112 | for entries in time order the delete removes the range and nothing else exactly if at most one value is stamped with its end; what is read afterwards is right under the same condition only |
| `RangeDelete.DividedExactly` | tsdb/engine/tsm1/encoding.gen.go:90-112 | the same for entries in any order that both bounds divide: exactly if no value stamped with the end comes behind one from that end on |
| `RangeDelete.SideBySide` | tsdb/engine/tsm1/cache.go:136-141 | in whatever order, it can only be right if the values of the range lie side by side |
| `RangeDelete.AscendingCuts` | tsdb/engine/tsm1/cache.go:136-141 | it is right for sorted and deduplicated entries, as every read leaves them, and they stay so |
| `RangeDelete.RangeGone` | tsdb/engine/tsm1/cache.go:604-634 | with the condition for entries in time order, the entry means what it meant, outside the range |
| `RangeDelete.DeletedNamed` | tsdb/engine/tsm1/cache.go:604-634 | of a named entry with that condition exactly the values outside the range are left, the key only if there are any; naming it twice changes nothing |
| `RangeDelete.DeletedOthers` | tsdb/engine/tsm1/cache.go:604-634 | keys that are not named stay as they are |
| `RangeDelete.SurvivesUnordered` | tsdb/engine/tsm1/cache.go:136-141 | unordered entries of which a value in the range survives, because by their ends they seem to lie behind or before it |
| `RangeDelete.SurvivesTwice` | tsdb/engine/tsm1/encoding.gen.go:99-103 | the failing instance: an entry in time order with the end of the range written twice, of which one survives |
| `Cluster.GroupTimes` | services/meta/data.go:144-145 | a group covers its time, and two groups of one duration are equal or disjoint |
| `Cluster.TruncateExactly` | services/meta/data.go:144 | a group starts at the one multiple of the duration within a duration before the time |
| `Cluster.PlacedReplicated` | services/meta/data.go:128-138 | round robin with the chosen factor gives the asked number of owners, one, or every node |
| `Cluster.PlacedInTurn` | services/meta/data.go:161-172 | owner by owner the nodes take turns, from the log index on |
| `Cluster.OneDuration` | services/meta/data.go:144-145 | groups cut for one duration have the same times or no time in common |
| `Cluster.RetentionPolicy.ShardGroupByTimestamp` | services/meta/data.go:96-98 | the first live group that contains the time, if there is one |
| `Cluster.RetentionPolicy.Update` | services/meta/store_fsm.go:339-342 | the length of the groups to come changes, those there are stay |
| `Cluster.Data.GroupAt` | services/meta/client.go:807-830 | the first group that serves the time, created if there is none; there is none afterwards only without nodes or duration; keeps the order of the groups and, of one duration, that no time is served twice |
| `Cluster.RoundDistinct` | services/meta/data.go:161-172 | no slot of the round robin names a node twice |
| `Cluster.RoundRobinPlaces` | services/meta/data.go:147-172 | round robin gives every shard its replicas on distinct nodes, and no node two shards |
| `Cluster.Data.NewShards` | services/meta/data.go:147-157 | shards with fresh ids and empty status |
| `Cluster.Data.AssignOwners` | services/meta/data.go:163-171 | one shard's owners and their status |
| `Cluster.Data.CreateShardGroup` | services/meta/data.go:107-180 | no nodes, existing group, or a new group, well placed on the nodes, with the asked number of owners per shard, one if none is asked for and every node if there are not enough, as many shards as the nodes then suffice for, the nodes in turn from the log index on, whose statuses are exactly its owners, added to the groups in order of end and start; if the live groups are cut for the policy's duration and no time belongs to two of them, that stays so |
| `Sorting.Sort` | services/meta/data.go:178 | a sorted permutation, for any order |
| `Removal.RelinquishedOccurs` | services/meta/data.go:558-573 | one occurrence of the id goes: it is gone exactly if it occurred at most once |
| `Removal.NewShardOwner` | services/meta/data.go:618-638 | a node of minimal count, whatever the order of the map; none exactly if the map is empty |
| `Removal.GreedyBalanced` | services/meta/data.go:593-607 | whoever is given an orphan ends up at most one above anyone else |
| `Removal.StripGroup` | services/meta/data.go:555-580 | every shard loses the id once, the node loses its status for every shard that lists it and nothing else changes, the counts are the owners' loads, the orphans are listed in order |
| `Removal.Reassign` | services/meta/data.go:591-607 | every orphan goes to a node of minimal count at its turn; fails exactly if there are orphans but no survivor |
| `Removal.RemoveFromGroup` | services/meta/data.go:546-607 | deleted, failed or kept, with the exact condition of each |
| `Removal.NeverFails` | services/meta/data.go:593-597 | with distinct owners the error is unreachable |
| `Removal.FailureExample` | services/meta/data.go:593-597 | with a duplicate owner the error is reached |
| `Removal.KeptOwned` | services/meta/data.go:546-607 | every shard of a kept group is owned by survivors of the group |
| `Removal.DeleteDataNode` | services/meta/data.go:527-612 | unknown node, or: the id is in no owner list, groups left without owners are marked deleted, every other group stays owned and was rebalanced greedily, and exactly the node's statuses for shards that listed it are gone |
| `Removal.StatusAfter` | services/meta/data.go:558-606 | after a removal the statuses of a shard are still its owners exactly if it was not reassigned: a new owner is given none |
| `PointMapping.ShardGroupAt` | services/data/point_writer.go:283-291 | by binary search, the first group that ends later, or none if that starts later too |
| `PointMapping.Preferred` | services/data/point_writer.go:274-291 | what is found is the group with the earliest end, then start, of those that contain the time |
| `PointMapping.HiddenExactly` | services/data/point_writer.go:283-291 | a time that some group contains is not found exactly if a group behind it ends before every group that contains it |
| `PointMapping.ApartFound` | services/data/point_writer.go:283-291 | without overlaps a time is found exactly if a group contains it |
| `PointMapping.Append` | services/data/point_writer.go:294-298 | the sorted list with the group added |
| `PointMapping.StaysFound` | services/data/point_writer.go:226-244 | a time that is found stays found when a group is added for a time that is not, overlaps or not |
| `PointMapping.ShardMapping.MapPoint` | services/data/point_writer.go:130-136 | the point is added and none is lost: the slice is only made anew when there is none |
| `PointMapping.CollectGroups` | services/data/point_writer.go:219-244 | whatever groups the metadata answers with: afterwards every point is too old or covered, and one that is not found is hidden by the group of an earlier point; an error only if the metadata gives no group |
| `PointMapping.MapShards` | services/data/point_writer.go:211-261 | each shard gets exactly the points for which a group of its own is found and whose hash chooses it there, in order, and exactly the points that are not found are dropped: those are too old, or hidden by the group of an earlier point of the request |
| `PointMapping.Conserved` | services/data/point_writer.go:246-259 | every point is stored once under one shard or dropped once, whether or not groups overlap |
| `PointMapping.TwoExactly` | services/data/point_writer.go:211-261 | of a request of two points that are not too old the second is dropped exactly if the group of the first lies behind it and ends before its own; so some request loses a point exactly if one group hides another |
| `PointMapping.DroppedExactly` | services/data/point_writer.go:211-261 | if every time is answered with its nearest group, a point that is not too old is dropped exactly if a group of the list hides its own |
| `PointMapping.PolicyNearest` | services/data/point_writer.go:235 | the answers of one state of a policy are the nearest groups |
| `PointMapping.TidyStores` | services/data/point_writer.go:211-261 | if the groups do not overlap no point is dropped that is not too old |
| `PointMapping.OneLength` | services/meta/data.go:144-145 | groups cut for one duration do not overlap |
| `PointMapping.LostAfterUpdate` | services/data/point_writer.go:211-261 | the failing input: the length of the groups is changed from a day to a week, and a request for the days 2 and 0 loses the point of day 0 |
| `Acknowledgement.WriteOwner` | services/data/point_writer.go:392-438 | an owner reports success exactly if the points reached it or, at level Any, were queued |
| `Acknowledgement.WriteToShard` | services/data/point_writer.go:377-484 | the exact condition of each outcome: success if at some time, before a timeout or shutdown, as many answers counted as the level asks for, one at Any and One, more than half at Quorum, all at All; timeout or shutdown if that comes first; without either a partial write or a failure by the number of answers that count |
| `Acknowledgement.RequiredExactly` | services/data/point_writer.go:378-384 | the required number is the least that suffices for the level |
| `Acknowledgement.WinnersReached` | services/data/point_writer.go:392-438 | an answer that counts stands for an owner that the points have reached, at level Any for one they are queued for at least |
| `Acknowledgement.NodesExactly` | services/data/point_writer.go:464-470 | as many nodes as answers are counted exactly if no two of these owners are one node |
| `Acknowledgement.DistinctNodes` | services/data/point_writer.go:464-470 | so it is if no node is listed twice |
| `Acknowledgement.QuorumOfOne` | services/meta/data.go:501-515 | the failing input: with a node listed twice, owners 1, 1, 2, a quorum is node 1 alone |
| `Acknowledgement.OrderIrrelevant` | services/data/point_writer.go:440-473 | which answers count, and whether the wait is ended, does not depend on the order of arrival |
| `Acknowledgement.QuorumsMeet` | services/data/point_writer.go:379-385 | two quorums of one owner list share an owner, even if nodes are listed twice |
| `Acknowledgement.AllReachesAll` | services/data/point_writer.go:379-385 | a write at level All counts every owner |
| `Generations.GroupByLevel` | tsdb/engine/tsm1/compact.go:189-217 | a partition of the generations, in order, into maximal stretches of the joining rule |
| `Generations.LevelExactly` | tsdb/engine/tsm1/compact.go:142-154 | the level of a generation by its sequence number, from 4 on level 4 |
| `Generations.MaxLevelExactly` | tsdb/engine/tsm1/compact.go:1598-1607 | the level of a group is that of some generation, and none is above it |
| `Generations.SizeExactly` | tsdb/engine/tsm1/compact.go:133-139 | the size of a generation is the sum over its files |
| `Generations.TombstonedExactly` | tsdb/engine/tsm1/compact.go:162-169 | a generation has tombstones exactly if a file of it has |
| `Generations.SameLevelTogether` | tsdb/engine/tsm1/compact.go:189-190 | adjacent generations of one level are never separated |
| `Generations.Chunk` | tsdb/engine/tsm1/compact.go:1609-1621 | pieces in order, all but the last of the given size |
| `Generations.BagOfOrder` | tsdb/engine/tsm1/compact.go:589-621 | which files are taken does not depend on the order of the groups |
| `Planning.AddFile` | tsdb/engine/tsm1/compact.go:556-583 | the file goes behind the others of its own generation and nowhere else; the generations stay sorted, each with files of its own number |
| `Planning.LevelPieces` | tsdb/engine/tsm1/compact.go:246-266 | exactly the pieces of the group that have enough generations or tombstones, as files of adjacent generations |
| `Planning.PlanPieces` | tsdb/engine/tsm1/compact.go:219-266 | exactly the worthwhile pieces of all runs of the level; no generation is used twice and none is above the level |
| `Planning.OptimizePieces` | tsdb/engine/tsm1/compact.go:320-344 | exactly the whole runs of level 4 with four generations or tombstones |
| `Planning.FullFiles` | tsdb/engine/tsm1/compact.go:360-388 | a full compaction takes exactly the generations that are not maxed out |
| `Planning.IncludedExactly` | tsdb/engine/tsm1/compact.go:364-379 | a full compaction takes a generation unless there are more than two, it is larger than 2 GiB with a first block of 1000 points, has no tombstones, and no sequence number below 4 follows |
| `Planning.DropsExactly` | tsdb/engine/tsm1/compact.go:428-455 | the search for the start ends where the bytes drop below half of those before, without tombstones |
| `Planning.LargeExactly` | tsdb/engine/tsm1/compact.go:364-372 | the size and block limits in bytes and points |
| `Planning.FindBounds` | tsdb/engine/tsm1/compact.go:416-455 | the level-4 generations end where the first lower one stands; skipped are those up to the last maxed-out one or to the first that is much smaller than the one before it, and none from the first one with tombstones on |
| `Planning.BoundsUnique` | tsdb/engine/tsm1/compact.go:416-455 | these conditions fix both bounds |
| `Planning.ScanStep` | tsdb/engine/tsm1/compact.go:465-489 | passes over as many generations as are filled, and over all if a lower level is among them |
| `Planning.StepGroups` | tsdb/engine/tsm1/compact.go:457-503 | terminates, and groups exactly these adjacent generations without using one twice |
| `Planning.SortPaths` | tsdb/engine/tsm1/compact.go:529 | the paths of a group in order, none lost |
| `Planning.Planner.FindGenerations` | tsdb/engine/tsm1/compact.go:543-587 | the cached answer, or: every generation has, in order, exactly the files of its number that are not in use; sorted by generation |
| `Planning.Planner.Acquire` | tsdb/engine/tsm1/compact.go:589-609 | all files or none: refused exactly if one is in use |
| `Planning.Planner.Release` | tsdb/engine/tsm1/compact.go:613-621 | gives back exactly the released files |
| `Planning.Planner.PlanLevel` | tsdb/engine/tsm1/compact.go:177-273 | nothing, or exactly the worthwhile pieces of the runs of the level, taken into use together unless one of their files is in use; below level 4 no planned generation has a larger sequence number than the level; if all generations have the sequence number of the level 1, 2 or 3, are free and numerous enough, the pieces of 4, or 8, are handed out, the first one for certain |
| `Planning.Planner.PlanOptimize` | tsdb/engine/tsm1/compact.go:278-351 | the same for whole runs of level 4; four or more free generations with sequence numbers from 4 on are handed out as one group |
| `Planning.Planner.Plan` | tsdb/engine/tsm1/compact.go:355-537 | for a cold shard all files that are not left out, sorted, in one group; else exactly the worthwhile steps of the level-4 generations within the bounds, all of them with sequence numbers from 4 on; nothing if the last check was after the last change on disk, and otherwise the check is noted; taken into use together unless one of their files is in use |
| `Planning.OutstandingApart` | tsdb/engine/tsm1/compact.go:105-107 | two outstanding groups never share a file |

## Left out

- CompactKey: does not give a condition on the list for faithfulness when the blocks are out of order and also overlap, because windows can then reach back through a third block; what is emitted is given for these lists too, as the overlay of all rounds.
- CompactKey: decode errors and block types other than floats; the generated copies for the other types are identical.
- Segments.Segment.Reopen: takes bytes that a segment wrote; `Open` covers the error answers for other bytes, but not what later operations do with them.
- HintedQueues.Queue.Open: takes the found segments as a list; that directories list names alphabetically and not by number is outside the model.
- HintedQueues.Queue.Advance: after a wrong length has moved the head into a record, what later operations make of the file is not modelled.
- HintedQueues.Queue.PurgeOlderThan: the ages of the segments are a parameter.
- Caches.Cache.ClearSnapshot: the old snapshot object is replaced, not emptied, so a caller that kept it is not modelled.
- Acknowledgement.WriteToShard: the outcome of each owner's write is a parameter, and writes that go on after the wait has ended are not followed.
- Cluster.RetentionPolicy.Update: the length of the groups only, not the other settings of a policy.
- Removal.DeleteDataNode: the nesting of policies in databases.
- Planning.AddFile: keeps the generations sorted as it goes instead of collecting them in a map and sorting at the end.
- Changing the segment size limit of an open queue.
- Iterating over several keys, readers and index blocks during compaction, and writing TSM files.
- The key cursor, TSM readers, write-ahead log and index.
- Entries and slices shared by reference: entries, blocks of values and groups are values here, so aliasing is not captured.
- Rate limiting, back-off, statistics, logging, authentication, configuration.
- Raft, HTTP, grpc, TLV over sockets, connection pools, protobuf code.
- Timestamp and string codecs: built from the same pieces or from foreign compressors.
