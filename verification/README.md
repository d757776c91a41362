# zrip: a model of its block codec

zrip is a Zstandard codec (RFC 8878). This project models its block codec on both
sides, from bits to frames, and proves that the fast code does what the format's
simple rules say and that the two sides undo each other.

**Sequence coding.** An FSE table is filled by a walk with an odd step over a
power-of-two table. The walk meets every cell once, so encoder and decoder build the
same layout; each symbol's rows partition the states, and the encoder's transition is
undone by the row it lands on. From this follow the round trip of the sequences
bitstream, which is written last to first with three states and read with one 64-bit
word a sequence, the section with its table descriptions, and the block.

**Matching and execution.** The Fast, DFast and long-distance finders update their
tables in place; their sequences replay to the block whatever the hash functions are.
The executors copy whole chunks, spread overlapping matches or double them, and equal
the byte-at-a-time rule of section 3.1.1.4.

**Huffman coding.** The two-queue merge, the flattening of counts, canonical codes, the
decoding table, the direct weight description and the four-stream decoder with sentinel
containers and two-symbol rows.

**Long-lived state.** The decoder's caches, the streaming history, the rebasing of
positions past 4 GiB, and the level walk.

Three theorems close the circle. `FrameRoundTrip.CompressFrame` and `CompressWithDict`:
what the one-shot encoder writes decodes to its input, whatever its heuristics choose,
and a streaming decoder whose window covers the matches' reach, or all of the input,
decodes it to the same bytes. `StreamReach.StreamFramesAccept`: over any run of frames,
the streaming decoder accepts exactly what one shot accepts with offsets within what the
window keeps, and gives the same bytes. `StreamDecoder.FrameDecoder.DecodeFrames` and
`FrameDecode.DecompressContext.DecodeAll`: the objects that live from frame to frame
compute just that.

## How it is built

Streams are stacks of bits (`Bits`): a number and a length, popped from the top. The
word containers of the readers and writers are proved to refine the stack. Loops and
objects of the source are methods and classes, each proved against a specification
function; the theorems are about these functions. `BlockFormat` and `FrameFormat` say
what a block and a frame mean, without caches and containers.

What the specification functions compute is stated a second time in numbers, without
naming them: the predefined tables row by row (`PredefinedTables`), where the walk puts a
symbol (`FseTable.LaidSymbol`), raw and repeated blocks and literals byte by byte
(`FrameFormat.PlainBlock`, `BlockFormat.PlainSections`), the checks at a frame's end
(`FrameFormat.FrameEnds`), the reach of offsets (`StreamReach`), the split into four
streams (`HuffmanFour.FourPartitioned`), the first offsets of a frame
(`SequenceRun.FirstMatch`) and what a window of the level walk decides
(`AdaptiveLaws.Decides`).

Errors are the source's, in its order. Past the end of a corrupt stream the source goes
on executing what its words hold until a sequence fails; `SequenceRun.RunWords` and
`SectionDecode.SectionError` say exactly which error that gives, and
`SectionDecode.SectionFails` ties it to byte-at-a-time execution while the stream lasts.

Given, and arbitrary: hash functions, xxh64, the estimates and gates that choose between
codings, level parameters, the layout of frame headers, the writer of compressed weight
descriptions. The codec asks of weight descriptions only `BlockFormat.Sound` and
`LiteralsEncode.Agrees`, which `WeightDescription.DirectAgrees` proves of the direct
ones.

## What the proofs found

- A distribution made of "less than one" symbols only fills its table, but both table
  constructions reject it (`crates/core/src/fse/table_builder.rs:289-291`). They accept
  exactly the filling distributions with a whole cell (`FseSpread.SpreadSymbols`).
- Repeat mode does not check that the dictionary's tables have a cell for each code
  (`crates/encode/src/block_encoder.rs:519-528`). A stream exists exactly when they have
  (`SeqLimits.StreamExists`); the frame theorem asks for it in advance
  (`FrameEncode.CoversAll`).
- The predefined offset table codes exactly the offset codes up to 28
  (`EncoderTables.DefaultUsable`), which bounds the window at which matches can be coded.
- Four Huffman streams read back when the fourth is not empty, that is when
  `3 * Segment(n) < n`.
- A weight description cannot express a last weight of zero: the reader would deduce the
  weight that doubles the code. The encoder cuts the weights after the last symbol that
  occurs, so it never needs one (`LiteralsEncode.EndsInCode`).
- The reader of a single sequence reads up to 63 bits after one refill, which holds at
  least 57. An accepted stream has just the sequence's bits left there, which the
  container then holds, so it is read exactly (`SectionDecode.OneExact`).
- A tables section that fails may leave the live tables half replaced while the flag that
  they are current stays set. Failed frames drop the tables, so nothing sees them.
- Streaming holds a declared content size against the whole output limit, one-shot
  decoding against what is left of it. For accepted frames this makes no difference
  (`StreamFormat.StreamFrameRefines`).

## Model

| member | source | states |
|---|---|---|
| `StepWalk.FullVisits` | crates/core/src/fse/table_builder.rs:280-348 | The stepping walk over a table of any log of at least 5, skipping the cells above any threshold, visits each cell up to the threshold exactly once in one round |
| `StepWalk.OrbitReturns` | crates/core/src/fse/table_builder.rs:346-348 | A full round of the walk ends at position 0 |
| `FseSpread.FillOrderIsPermutation` | crates/core/src/fse/table_builder.rs:283-348 | Rare symbols from the top and the walk below them together fill every cell of the table exactly once |
| `FseSpread.ThresholdSpread` | crates/core/src/fse/table_builder.rs:334-348 | The in-place walk that skips rare cells writes the distribution's spread and is back at position 0 |
| `FseSpread.FastSpread` | crates/core/src/fse/table_builder.rs:298-325 | Laying symbols down eight bytes at a time and scattering two a turn writes the same spread as the plain walk |
| `FseSpread.SpreadSymbols` | crates/core/src/fse/table_builder.rs:276-348 | The decoder's spread succeeds if and only if some symbol has a whole cell (a table filled by "less than one" symbols alone is rejected), and then writes the distribution's one spread, whichever of its three forms it takes |
| `FseSpread.EncoderSpread` | crates/encode/src/block_encoder.rs:297-357 | The encoder's own spread succeeds under the same condition and writes the same spread |
| `FseSpread.SpreadUnique` | crates/core/src/fse/table_builder.rs:280-348 | A distribution has one spread only, so encoder and decoder agree on every cell |
| `FseSpread.SpreadCounts` | crates/core/src/fse/table_builder.rs:280-348 | In the spread every symbol, "less than one" ones included, has exactly the cells of its probability |
| `FseTable.LaidSymbol` | crates/core/src/fse/table_builder.rs:276-344 | Without rare symbols, cells are laid in symbol order, and the one laid as number k stands at k times 5/8 of the table size plus 3, modulo the size |
| `FseTable.BuildDecodeTable` | crates/core/src/fse/table_builder.rs:249-362 | The decoder's table exists if and only if there are at most 256 symbols and one has a whole cell, and its rows are the next-state intervals of the spread's cells |
| `PredefinedTables.LiteralLengthRows` | crates/core/src/fse/mod.rs:50-53 | The predefined literal-length table is, in all 64 states, the one printed in Appendix A of RFC 8878: baseline, bits and symbol |
| `PredefinedTables.MatchLengthRows` | crates/core/src/fse/mod.rs:55-58 | So is the match-length table, in all 64 states |
| `PredefinedTables.OffsetCodeRows` | crates/core/src/fse/mod.rs:60-62 | So is the offset table, in all 32 states |
| `FseEncodeTable.FromDistribution` | crates/encode/src/block_encoder.rs:249-377 | The encoder's transforms and state table, built from a distribution, encode exactly the layout that the decoder builds from it |
| `FseEncodeTable.FromDecodeTable` | crates/encode/src/block_encoder.rs:181-247 | Built from a decoding table instead, they encode that table's layout |
| `FseEncodeTable.TransitionUndone` | crates/encode/src/block_encoder.rs:383-389 | For every symbol with a cell and every state, the transition lands on a row of the symbol whose base plus the emitted bits is the state it came from, with equally many bits |
| `FseEncodeTable.InitStateLands` | crates/encode/src/block_encoder.rs:392-399 | The first state of a symbol is a cell of that symbol |
| `FseEncodeTable.RowsPartition` | crates/core/src/fse/table_builder.rs:350-359 | The next-state intervals of a symbol's rows partition the table: every state is in exactly one of them |
| `SeqCodes.LlSplitDecodes` | crates/encode/src/block_encoder.rs:1851-1859 | Every literal length below 2^17 splits into one of the 36 codes and extra bits that decode to it |
| `SeqCodes.MlSplitDecodes` | crates/encode/src/block_encoder.rs:1863-1872 | Every match length from 3 below 2^17 + 3 splits into one of the 53 codes and extra bits that decode to it |
| `SeqCodes.OfSplitDecodes` | crates/encode/src/block_encoder.rs:1816-1818 | Every offset value splits into its code and extra bits that decode to it |
| `RepOffsets.OffsetRoundTrip` | crates/decode/src/sequences.rs:231-258 | From nonzero repeat offsets, the decoder reads the encoder's offset value back as the offset, ends with the encoder's three repeat offsets, and they stay nonzero |
| `RepOffsets.OffsetTable` | crates/decode/src/sequences.rs:231-258 | Offset values 1 to 3 repeat an offset, shifted by one without literals, larger ones are new, and the history keeps the last three in order of use |
| `SequenceRun.FirstMatch` | crates/decode/src/lib.rs:456 | In a frame without a dictionary, a first sequence with literals and offset value 1, 2 or 3 repeats what stands 1, 4 or 8 bytes back |
| `FrameFormat.Beginnings` | crates/decode/src/lib.rs:441-458 | A frame begins without tables and with offsets 1, 4 and 8, or with the dictionary's tables, offsets and content |
| `SeqStream.StreamRoundTrip` | crates/encode/src/block_encoder.rs:1111-1193 | For any nonempty list of packed sequences and any three tables (FSE or RLE) with a cell for each code, decoding the stream gives the literal lengths, match lengths and offset values in order and leaves exactly no bit |
| `SeqWriter.EncodeBitstream` | crates/encode/src/block_encoder.rs:1111-1193 | The writer's 64-bit container never overflows, its buffer's bytes are exactly the stream with its marker, written from the last sequence to the first |
| `SeqLimits.StreamExists` | crates/encode/src/block_encoder.rs:1209-1296 | A stream that decodes to the sequences exists if and only if every code has a cell in its table, which repeat mode does not check; when it exists, the encoder's stream is one |
| `SeqReader.ReadExact` | crates/decode/src/exec.rs:86-102 | For every byte string, a read from a 64-bit word equals the reference backward read while the stream has the bits, and the wrapping counter goes down by exactly its count |
| `SeqReader.DecodeWordExact` | crates/decode/src/exec.rs:182-242 | One sequence decoded from one or two words is the reference sequence with the reference states as long as the stream has its bits; afterwards the counter only sinks, and the states still index their tables |
| `SequenceRun.RunWordsIs` | crates/decode/src/exec.rs:251-294 | The word-level loop over any number of sequences accepts exactly when the reference one does, with the same output, and reports the error of the first sequence that byte-at-a-time execution rejects; a stream that runs out is rejected |
| `SequenceRun.SequenceLoop` | crates/decode/src/exec.rs:251-294 | The loop with its peeled last sequence computes the word-level run, output, literals position, repeat offsets and error |
| `SectionDecode.DecodeSequencesDispatch` | crates/decode/src/lib.rs:530-611 | Either path, for one sequence or for many, gives the output and repeat offsets of decoding the whole stream first and executing it byte by byte, or the source's error |
| `SectionDecode.SectionFails` | crates/decode/src/exec.rs:251-371 | While the stream has the sequences' bits, the error of a rejected section is that of the first sequence that byte-at-a-time execution rejects, or of bits left over |
| `ReverseReader.ReverseBitReader.ReadBits` | crates/core/src/bitstream/reader_reverse.rs:64-98 | A refill and a double shift read exactly the reference bits, and fail exactly when the stream has fewer |
| `Executor.ChunkRepeats` | crates/decode/src/fast_vec.rs:230-234 | A chunk copied from any multiple of the offset back continues a repeating match, which is what the spread tables for offsets below eight rely on |
| `Executor.WildMatch` | crates/decode/src/fast_vec.rs:445-491 | For every offset and length, the whole-chunk copy repeats at the offset for the match's length, keeps everything before it and stays within the overlength |
| `Executor.SeqOut.Execute` | crates/decode/src/fast_vec.rs:298-401 | For every offset, length, overlap and reach into the history, executing a sequence in chunks gives exactly the byte-at-a-time output of section 3.1.1.4 of RFC 8878, or its error with the output unchanged |
| `BlockOutput.BlockOutput.WildCopyMatch` | crates/decode/src/fast_vec.rs:494-510 | The doubling copy appends exactly the byte-at-a-time match |
| `BlockOutput.BlockOutput.Execute` | crates/decode/src/fast_vec.rs:34-189 | The single-sequence executor gives the same byte-at-a-time result and errors, with and without a history |
| `Replay.RepeatsIsCopy` | crates/decode/src/fast_vec.rs:445-510 | Any buffer that repeats at the offset after a given output is the byte-at-a-time copy |
| `FseDescription.DescriptionRoundTrip` | crates/core/src/fse/table_builder.rs:17-193 | For every distribution that fills the table, parsing its description, whatever follows, gives it back padded with zeros and takes exactly its fields |
| `FseDescription.DescriptionLocal` | crates/core/src/fse/table_builder.rs:17-122 | An accepted description is the same with any other bits after those it is reported to take |
| `FseDescription.LogLimit` | crates/core/src/fse/table_builder.rs:26-35 | A description is rejected for its accuracy log exactly when that is over 12, and else stands or falls with its probabilities |
| `DescriptionCodec.Serialize` | crates/core/src/fse/table_builder.rs:133-193 | The serializing loops write exactly the description's fields, filled up to a byte |
| `DescriptionCodec.ParseInto` | crates/core/src/fse/table_builder.rs:17-122 | The windowed parser gives what bit-by-bit parsing gives, errors included, stops at the next whole byte, and does not move the reader on errors |
| `DescriptionCodec.DescriptionBytes` | crates/core/src/fse/table_builder.rs:17-193 | Serialized bytes with anything after them parse to the distribution and are consumed exactly |
| `DescriptionCodec.ParsedFills` | crates/core/src/fse/table_builder.rs:64-120 | Every accepted description fills its table |
| `ForwardBits.BitReader.ReadBits` | crates/core/src/bitstream/reader.rs:44-77 | A forward read gives exactly the next bits, and fails without moving exactly when fewer are left |
| `ForwardBits.BitWriter.CloseReverseStream` | crates/core/src/bitstream/writer.rs:68-99 | What the writer hands out is a marked stream of exactly the bits written, in order |
| `TableSection.SingleCode` | crates/decode/src/sequences.rs:339-353 | A single-code field takes one byte, refuses codes above 35, 31 and 52, and its one row stays in state 0 without reading |
| `TableSection.SectionLocal` | crates/decode/src/sequences.rs:302-316 | A tables section is the same whenever its bytes come up again, and without repeat mode whatever tables are live: the reason why its cache may be keyed by them |
| `DecodeContext.BlockDecodeWorkspace.DecodeLiterals` | crates/decode/src/literals.rs:119-270 | With any valid cached header, weights and tables, a literals section decodes to what it means on its own, same error included, and the live table afterwards is the one it means |
| `DecodeContext.BlockDecodeWorkspace.ParseSequenceTables` | crates/decode/src/sequences.rs:284-505 | With any valid cache, a tables section yields the tables it means on its own, or its error, and the cache and the flag that the live tables are current stay true |
| `FrameDecode.DecompressFrame` | crates/decode/src/lib.rs:241-438 | A frame decoded with a used workspace gives what the frame means, or the same error, and leaves a workspace that is good for the next frame even if it failed; what it accepts has the declared size, and the checksum in its last four bytes |
| `FrameFormat.FrameEnds` | crates/decode/src/lib.rs:413-437 | Once its blocks are decoded, a frame fails exactly when the checksum is cut off, when it differs from the low half of the content's hash, or when the content does not have the declared size, in this order |
| `FrameFormat.FrameChecked` | crates/decode/src/lib.rs:413-437 | An accepted frame appended exactly as many bytes as it declares, and the four bytes before its end are its content's checksum |
| `FrameFormat.PlainBlock` | crates/decode/src/lib.rs:321-353 | A raw or repeated block is accepted if and only if it is at most 128 KiB, its bytes are there and the frame has room, and appends the bytes after its header, or that many times the one byte |
| `FrameFormat.OtherBlock` | crates/decode/src/lib.rs:313-406 | A block of the reserved kind is an error, and a compressed one decodes as many bytes as its header says |
| `BlockFormat.PlainSections` | crates/decode/src/literals.rs:119-171 | A raw or repeated literals section with any of the size formats is accepted if and only if it is at most 128 KiB and its bytes are there, and is the bytes after its header, or that many times the one byte |
| `FrameDecode.DecompressContext.DecodeAll` | crates/decode/src/context.rs:92-152 | Over any run of decodes, failed ones included, a reused context gives for each the result or error of a fresh one |
| `FrameDecode.DecompressContext.DecompressInto` | crates/decode/src/context.rs:155-186 | Every frame of an input, appended to any output on one context with one limit for all, gives what the frames mean one after the other, or the first error |
| `StreamDecoder.FrameDecoder.ShownIsEnd` | crates/decode/src/streaming.rs:449-460 | In every reachable state, the history shown to a block is the end of dictionary and frame output: all of it while less than a window is out, then a window of it, or all if there is less |
| `StreamDecoder.History.Append` | crates/decode/src/streaming.rs:431-447 | Appending keeps at least the window visible, drops only what is older, and never needs more room than the stated bound |
| `StreamDecoder.FrameDecoder.DecodeFrame` | crates/decode/src/streaming.rs:180-538 | A frame on a used decoder gives exactly the frame's block-by-block meaning, counts its output against the decoder's limit, and keeps the history's room within its bound, failed or not |
| `StreamDecoder.FrameDecoder.DecodeFrames` | crates/decode/src/streaming.rs:153-178 | Any run of frames and skippable frames on one decoder, begun in any state between frames, gives exactly the bytes of one-shot decoding if that accepts within the remaining limit and every offset is within its frame's reach, and else fails; the output is counted over all frames, and the history's room stays within two windows of 128 MiB, or the dictionary and one, and a block, failed or not |
| `StreamFormat.StreamFrameRefines` | crates/decode/src/streaming.rs:361-515 | Any frame that streaming accepts decodes in one shot, after any output, to the same bytes, within the room that was left, and takes the same input |
| `StreamFormat.StreamFramesRefine` | crates/decode/src/streaming.rs:153-178 | Any input of many frames that streaming accepts decodes in one shot to the same bytes within the same limit |
| `StreamFormat.StreamPlainBlock` | crates/decode/src/streaming.rs:344-379 | A raw or repeated block of a stream is the bytes after its header, or that many times the one byte, and is accepted exactly when it is at most 128 KiB and they are there |
| `StreamReach.StreamFrameAccepts` | crates/decode/src/streaming.rs:361-515 | Streaming accepts a frame if and only if one shot does within the same room and every offset is within the window's reach, and then gives the same bytes |
| `StreamReach.StreamFramesAccept` | crates/decode/src/streaming.rs:153-178 | Streaming accepts any run of frames if and only if one shot does within the same limit and every offset is within its frame's reach, and then gives the same bytes |
| `HuffmanStream.PairReads` | crates/core/src/huffman/decode.rs:176-212 | For every prefix-consistent table, a two-symbol row decodes exactly what one or two single rows decode |
| `HuffmanFour.DecodeFourStreams` | crates/core/src/huffman/decode_4stream.rs:130-362 | The interleaved decoder with sentinel containers, by single rows or by two-symbol rows, accepts if and only if each of the four streams decodes alone and takes every bit, and then gives their concatenation |
| `HuffmanFour.FourPartitioned` | crates/core/src/huffman/decode_4stream.rs:14-58 | Four streams decode behind the sizes of the first three, each of these to a fourth of the symbols rounded up and the last to the rest |
| `HuffmanFour.DecodeSingleStream` | crates/core/src/huffman/decode.rs:13-58 | A single stream decodes to its symbols if and only if they take every bit of it |
| `HuffmanTree.BuildTree` | crates/core/src/huffman/encode.rs:312-371 | The two-queue merge builds a tree over all the counts; when the counts are within a factor of two it joins the nodes in turn |
| `HuffmanTree.Kraft` | crates/core/src/huffman/encode.rs:312-371 | The leaves' depths of any such tree take the whole code space |
| `HuffmanTree.FlatDepth` | crates/core/src/huffman/encode.rs:273-308 | Counts of ones and twos give a balanced tree of depth at most 8, which ends the flattening |
| `HuffmanWeights.ComputeWeights` | crates/core/src/huffman/encode.rs:273-308 | For any counts of at least two symbols the flattening ends, with a complete code of at most eleven bits for exactly the symbols that occur |
| `HuffmanCode.CanonicalUsable` | crates/core/src/huffman/weights.rs:286-363 | The canonical table of any complete code is full and prefix-consistent |
| `HuffmanCode.CodesLinked` | crates/core/src/huffman/encode.rs:512-546 | The encoder's codes point exactly at their symbols' rows of the decoder's table, for exactly the symbols that have a weight |
| `HuffmanEncode.EncodeSingleStream` | crates/core/src/huffman/encode.rs:172-226 | Written in groups of four from the end, the bytes are exactly the marked stream of the symbols' codes |
| `HuffmanEncode.StreamRoundTrip` | crates/core/src/huffman/encode.rs:172-226 | A written stream reads back to its message |
| `HuffmanEncode.FourRoundTrip` | crates/core/src/huffman/encode.rs:234-262 | Four written streams read back to their message if the fourth is not empty |
| `WeightDescription.DeducedIs` | crates/core/src/huffman/weights.rs:286-322 | Explicit weights are accepted with a last weight and table log if and only if that weight completes the code |
| `WeightDescription.BuildDecodeTable` | crates/core/src/huffman/weights.rs:286-363 | Counting ranks and filling rows builds exactly the canonical table of the completed weights, or the error |
| `WeightDescription.CodeReachesReader` | crates/core/src/huffman/weights.rs:49-71 | The direct description of any complete code of up to 129 symbols, whatever follows it, is read back and yields the table that the encoder's codes point into |
| `WeightDescription.DirectAgrees` | crates/core/src/huffman/encode.rs:376-396 | Direct descriptions satisfy all that the block codec assumes of weight descriptions |
| `LiteralsEncode.FromHistogram` | crates/core/src/huffman/encode.rs:31-66 | Halving the counts until the weights can be described ends, with codes for every byte that occurs, or gives up |
| `LiteralsEncode.EncodeLiteralsSection` | crates/encode/src/block_encoder.rs:923-1039 | Whichever of the last table, a new table or raw bytes is chosen, the decoder reads the literals back from the section, and both sides hold the same table afterwards |
| `SequenceEncode.NormalizeCounts` | crates/encode/src/block_encoder.rs:1338-1380 | Normalized counts fill the table, leave the most frequent symbol a whole cell, and give cells only to symbols that occur |
| `SequenceEncode.EncodeSeqPredefined` | crates/encode/src/block_encoder.rs:1111-1193 | A predefined section announces its tables and holds the stream of the sequences, for all offset codes up to 28 |
| `SequenceEncode.EncodeSeqCustom` | crates/encode/src/block_encoder.rs:1506-1701 | A section with tables of the block's own counts, by RLE, predefined or described per field, announces exactly the tables its stream is written with |
| `SequenceEncode.EncodeSeqRepeat` | crates/encode/src/block_encoder.rs:1209-1296 | A repeat section is read with the tables in force, given a cell for every code |
| `EncoderTables.DefaultUsable` | crates/core/src/fse/mod.rs:38-83 | The predefined tables have cells for all 36 literal length and 53 match length codes, and for exactly the offset codes up to 28 |
| `BlockEncode.PackSequencesAndLiterals` | crates/encode/src/block_encoder.rs:720-830 | Packing gives each sequence its codes and extra bits, threads the repeat offsets and gathers exactly the block's literals |
| `BlockEncode.EncodeCompressedBlockRaw` | crates/encode/src/block_encoder.rs:656-701 | The raw-literals encoder emits a compressed block with predefined tables or the block itself, whichever its rule chooses, never longer than the block and a header |
| `BlockEncode.BlockRoundTrip` | crates/decode/src/lib.rs:461-527 | Any emitted block, raw fallback included, at any place in an input, after any history and output, decodes to exactly the block, ends after exactly its bytes, and leaves both sides the same three repeat offsets |
| `BlockReach.BlockStays` | crates/encode/src/block_encoder.rs:28-128 | The offsets that the decoder computes for an emitted block stay within what a window covering the matches' reach, or the whole frame, keeps |
| `BlockWorkspace.BlockEncodeWorkspace.EncodeCompressedBlock` | crates/encode/src/block_encoder.rs:487-602 | The block encoder with Huffman literals and custom or repeated tables emits such a block whatever the estimates say, and the tables it remembers are the decoder's after the block |
| `MatchCount.CountMatch` | crates/encode/src/primitives.rs:68-87 | Counting by words gives the longest run of equal bytes within the limit |
| `MatchCount.CountBack` | crates/encode/src/fast.rs:958-977 | Counting backward by words gives the longest run within the allowance |
| `DFast.FindMatch` | crates/encode/src/dfast.rs:152-331 | A match is found exactly when the long or the short candidate agrees with the position in its word and lies in the window; the long one goes first, the short one gives way only to a longer long one at the next position, and the match goes as far as the bytes agree |
| `DFast.NextMatch` | crates/encode/src/dfast.rs:152-331 | One search goes on from a position to the next match, and finds one whenever a table entry or the repeat offset offers it at the start |
| `DFast.CompressBlock` | crates/encode/src/dfast.rs:152-386 | If all entries of both tables lie below the search start, the sequences parse the block, matches from the tables stay in the window, and all entries lie below the block's end, so that the next block may follow |
| `DFast.Prefill` | crates/encode/src/dfast.rs:388-419 | Filling both tables from a prefix leaves every entry below its end |
| `Fast.FindMatch` | crates/encode/src/fast.rs:911-931 | The table's position is taken exactly when it lies in the window and the words agree, and only failing that the dictionary's, under the same test |
| `Fast.NextMatch` | crates/encode/src/fast.rs:670-909 | One search goes on from a position to the next match, and finds one whenever the table or the repeat offset offers it at the start |
| `Fast.CompressBlock` | crates/encode/src/fast.rs:670-1014 | For any table contents and hash functions, with or without an attached dictionary, the four-cursor search ends, its sequences parse the block, and matches from the tables have at least four bytes and stay in the window |
| `LevelSearch.SearchBlock` | crates/encode/src/lib.rs:383-393 | Whichever finder the level names, the sequences parse the block and the tables are ready for the next |
| `Ldm.GearHash.Feed` | crates/encode/src/ldm.rs:312-369 | The hash is the gear sum over what was fed, and the splits are, in order, exactly the positions after which it has no bit of the mask, up to a full batch |
| `Ldm.LdmState.BestOf` | crates/encode/src/ldm.rs:525-566 | The match is real and inside the block and the window, and no entry of the bucket with the same checksum offers a longer one, forward and backward counted together |
| `Ldm.LdmState.TakeSplit` | crates/encode/src/ldm.rs:494-582 | The position takes the place of its bucket's oldest entry and no other entry changes; past the last match, whatever the bucket offered, at least as long a match is added |
| `Ldm.LdmState.GenerateSequences` | crates/encode/src/ldm.rs:473-603 | Long matches do not overlap, end inside the block and reach at most a window back, whatever the table holds and however the rolling hash splits |
| `Ldm.LdmState.CompressBlock` | crates/encode/src/ldm.rs:611-773 | Merged with what the level's finder finds in the gaps, they parse the whole block, with each gap's left-over literals moved into the next long match |
| `Rebase.AdvancedFits` | crates/encode/src/rebase.rs:44-54 | One step keeps the block within 32-bit positions, a full window visible, and its shift within 32 bits |
| `Rebase.RunInSpan` | crates/encode/src/rebase.rs:31-61 | Over every run of blocks of an input of any length, positions stay within 32 bits and a full window stays visible at every block |
| `Rebase.ReduceHashTable` | crates/encode/src/rebase.rs:64-72 | Each surviving entry names the same byte from the new base, others are cleared, and what lay behind the cursor still does |
| `FrameEncode.MoveBase` | crates/encode/src/lib.rs:346-354 | When the base moves for a block, every table entry that is kept names the byte it named, and the tables are ready for a search from the new base |
| `FrameEncode.PredefinedCovers` | crates/encode/src/block_encoder.rs:519-528 | The condition on repeated tables holds of the predefined ones, for matches of any reach below 2^29 - 3 |
| `FrameRoundTrip.CompressFrame` | crates/encode/src/lib.rs:313-492 | For every input, level, hash functions, table contents policy, estimates and block size, the one-shot frame decodes to the input, after any output and with anything behind it, and is consumed exactly; a streaming decoder gives the same if its window reaches as far as matches or holds all of the input |
| `FrameRoundTrip.CompressWithDict` | crates/encode/src/lib.rs:494-670 | The same after a dictionary's content, repeat offsets and entropy tables, prefilled or attached, for one-shot and streaming decoders |
| `Adaptive.UpdatedValid` | crates/encode/src/adaptive.rs:235-268 | The level stays on its ladder whatever is measured |
| `AdaptiveLaws.UpdateDecides` | crates/encode/src/adaptive.rs:235-306 | In the stats' numbers: a pending ratio step is taken back exactly when the bottleneck is the processor or the compressed share rose by more than 2%, a speed step when it is the output or the speed fell below 90%; otherwise the walk goes one step toward its goal on trial, or settles where the ladder or a limit ends |
| `AdaptiveLaws.SettleRatio` | crates/encode/src/adaptive.rs:308-339 | Settling for ratio takes the lowest of the levels measured within 32 windows and within the limit whose compressed share is within 0.5% of the least, and stays if there is none |
| `AdaptiveLaws.SettleSpeed` | crates/encode/src/adaptive.rs:308-339 | Settling for speed takes the densest of those within 95% of the fastest |
| `AdaptiveObject.AdaptiveLevel.Update` | crates/encode/src/adaptive.rs:235-268 | A window moves the object as the measured numbers say: a pending step that hurts is taken back and limits its goal for 32 windows, and otherwise the walk steps, settles or stays |
| `Adaptive.StepMoves` | crates/encode/src/adaptive.rs:235-339 | With a constant goal, a window moves the level at most one step toward it, or sets a limit at the level and moves it back; while a limit holds the level only moves away from the goal |
| `Adaptive.RunBounded` | crates/encode/src/adaptive.rs:235-339 | Between two expiries, level changes with a constant goal are bounded by the ladder in each direction, and while a limit holds none is toward the goal |
| `Adaptive.PhaseBounded` | crates/encode/src/adaptive.rs:235-339 | The same for a goal that becomes constant in the middle of any walk, counting until the first limit it sets expires |
| `AdaptiveObject.AdaptiveLevel.constructor` | crates/encode/src/adaptive.rs:197-225 | The ladder holds exactly the levels of the range, upward, with -8 as -7 and 0 as 1, and the walk begins at the first not below the start, or at the highest, with nothing measured |

## Left out

- CompressWithDict: asks before the search that the dictionary's tables have a cell for every length code and every offset code within the matches' reach, since which codes occur is known only after it; per block the exact condition is `SeqLimits.StreamExists`.
- FourRoundTrip: only for four streams whose fourth is not empty, because the decoder rejects an empty one; the encoder uses four streams for 1024 bytes and more, where it never is.
- The compressed form of weight descriptions (`crates/core/src/huffman/weights.rs:94-283`, `crates/core/src/huffman/encode.rs:403-486`) and with it the second FSE encoder in `crates/core/src/fse/encode.rs`: given through `WeightCode` and `Describe`.
- `HuffmanEncodeTable::from_decode_table`: a dictionary's Huffman coder is given, linked to the dictionary's table.
- Frame header layout, magic numbers, the checks of window size and dictionary id, and which bytes are skippable: given as one function for both decoders.
- xxh64: any function of the content.
- SIMD dispatch, const-generic instances, 32-bit masks and bounds-check tricks: one generic instance is modelled. Unrolled loops (the rolling hash, the byte histogram, the weight sort in four partitions) are plain ones.
- Cost estimates, entropy gates, `prefers_pairs` and level parameters: arbitrary choices.
- `FrameEncoder` (`crates/encode/src/streaming.rs`) and `CompressContext`, which drive the same block encoder with tables that outlive a frame. DFast needs every entry below the search start; in `FrameEncoder` the clearing stands inside the branch that searches, so a proof there needs more than the block theorem.
- Output written by failed decodes, sinks that fail, `std::io` and its errors: the streaming decoder's errors are one failure.
- Buffers that the source reuses (the frame output as a vector, weight and code tables, `SeqTable` with its partial clone) are values that are reassigned where nothing but the result is visible; the executor's buffer, the hash tables, symbol tables and Huffman output are arrays written in place.
- The allocator: a vector's room grows as it is asked to, or at least doubles, without rounding.
- `usize` overflow: slices are shorter than 2^57 bytes where bits are counted; the number of entries inserted by the long-distance finder does not wrap.
- Dictionary parsing and training, skippable frame contents, error display, command line, bindings.
