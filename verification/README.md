# Models of selected FFmpeg algorithms and protocols

This project models parts of FFmpeg 4.2.2 in Dafny and proves what they promise, on all inputs, runs or interleavings.
Each module names the function it follows. Code that updates state in place is a class or a method over arrays, proved
against a specification function; the theorems are lemmas about those functions.

- **4XM video, Huffman tables** (`HuffmanForest`, `HuffmanOptimality`, `PrefixCodes`, `HuffmanCodes`, `HuffmanTables`,
  `HuffmanTheorems`, `HuffmanDecoding`, `HuffmanOrder`; `Sums` and `BitStrings` below them). The in-place merge loop
  and the parent walk. No code is longer than 22 bits for any input: a node weighs at least as much as its child and
  that child's child together, and the total weight is conserved. The table is a prefix code, and then an optimal one,
  exactly when it ends with one tree, and every message can be read back exactly when moreover at least two symbols
  occur.
- **4XM video, P frames** (`PBlocks`, `PBlockProofs`, `PBlockDecoder`, `PBlockCodes`, `PBlockWriting`,
  `PBlockPictures`, `PBlockAccepted`). The recursive block decoder over three input streams: complete prefix codes,
  termination, tiling, and the pixels each leaf decides. A frame is decoded exactly if its streams were written for a
  grid of blocks, and then shows what those blocks say. The packed two-pixel addition is modelled with its carry. The
  shape table is unsigned, so its entry for a single pixel is 255 and the assertion that guards it can never fail;
  what keeps single pixels out is that no code splits to one.
- **AAC encoder, codebook trellis** (`SectionData`, `Trellis`, `TrellisProofs`, `TrellisEscapes`, `TrellisCoder`).
  Section data as in section 4.4.2.7 of ISO/IEC 14496-3. The price table for short windows lists 6 bits for a run of
  14 where the writer emits 9 (`aacenctab.h:99-101`); the model follows the table, and the charge equals the stream
  exactly without such a section.
- **ADTS splitter** (`AdtsStream`, `AdtsHeaders`, `AdtsParser`, `AdtsChunks`). Frames, down to the bits of the header,
  as in section 1.A.2.2 of ISO/IEC 14496-3; the incremental parser with its accumulator, overread bytes and shift
  register.
- **ffplay** (`PacketQueue`, `DecoderSerials`, `DecoderLedger`, `FrameQueue`, `FrameRing`). The queues as classes, and
  the concurrent protocols as state machines over the atomic steps of reader, seeks, decoder, writer and display.
- **ffmpeg output** (`FilterChain`, `FilterMeaning`, `OutputPacket`, `MuxWriter`, `MuxProperties`, `MuxRules`,
  `Medians`, `VideoSync`, `VideoSyncProofs`, `VideoSyncRules`). The bitstream filter walk, timestamp repair and the
  muxing queue, and the duplication and dropping of frames with its counters.
- **Threads on OS/2** (`CondVar`, `Once`). Condition variables from event semaphores and one-time initialisation, for
  any number of threads.
- **Command line** (`CommandLine`, `CommandLineProofs`, `CommandLineRules`). Splitting into global options and groups.
- **C64 charset** (`Charset`, `CharsetRenderer`, `CharsetPixels`). Lookup tables, dithering, the redo loop and the
  shared colour code.

`Wrappers` and `Slices` hold an option type and facts about sequences. `dafny verify dfyconfig.toml` checks
everything.

Some promises turned out to need a condition, and are stated with it in both directions: the optimality of the trellis
(fewer bands than the escape value), its cost identity (no short section of 14 bands), the 4XM prefix code (at most
256 symbols), its decoding (at least two as well), the barring of codebooks by a sentinel (room below it), the order
of DTS values (none undefined in between), the round trip of the command line (no output named with a double dash),
and the meaning of the frame counters (no late start planned as repeats only, besides the early exits).

## Model

| member | source | states |
|---|---|---|
| HuffmanTables.BuildTables | ffmpeg/libavcodec/4xm.c:660-704 | the arrays it fills are a code table of the frequencies (TableOf: the lengths and bits read off the parent walk of a complete greedy run), and the overflow flag stays false |
| HuffmanTables.MergeLoop | ffmpeg/libavcodec/4xm.c:660-687 | from the frequencies it makes a complete run of merges of the two smallest slots, with the final weights in place and every child linked to its parent; starting state is any table read from the stream |
| HuffmanTables.FindTwoSmallest | ffmpeg/libavcodec/4xm.c:661-679 | the single scan finds the two present slots of least weight, of equal ones the earlier first, or reports that fewer than two are present; the sentinel is never a weight |
| HuffmanTables.WalkUp | ffmpeg/libavcodec/4xm.c:689-702 | the walk ends, the length and bits it returns are the code of the symbol from its root down, and the length is at most 22 |
| HuffmanTables.LengthBound | ffmpeg/libavcodec/4xm.c:689-699 | a present symbol lies at most 22 levels below its root, for every table and every run of merges |
| HuffmanForest.WeightConserved | ffmpeg/libavcodec/4xm.c:681-686 | merging conserves the total weight over any run |
| HuffmanForest.BelowSentinel | ffmpeg/libavcodec/4xm.c:661-679 | at any time two slots together weigh at most 256*255+1, so every weight is below the scan's sentinel of 65536 |
| HuffmanForest.RootCount | ffmpeg/libavcodec/4xm.c:660-687 | a complete run leaves one root if at most 256 symbols are present and two roots for 257 |
| HuffmanCodes.GrandparentWeight | ffmpeg/libavcodec/4xm.c:660-687 | a node weighs at least as much as its child and that child's child together: the Fibonacci step of the depth bound |
| HuffmanCodes.SameCode | ffmpeg/libavcodec/4xm.c:689-704 | two slots under one root with the same code are the same slot |
| HuffmanCodes.NotPrefix | ffmpeg/libavcodec/4xm.c:689-704 | the code of a symbol is no prefix of another symbol's code under the same root |
| HuffmanCodes.LiveSlots | ffmpeg/libavcodec/4xm.c:681-686 | a slot has weight exactly if it is present and has not been merged |
| HuffmanOptimality.Exchange | ffmpeg/libavcodec/4xm.c:660-687 | moving the shorter depth to a heavier slot keeps any length assignment feasible and does not raise its cost |
| HuffmanOptimality.GreedyStep | ffmpeg/libavcodec/4xm.c:660-687 | any feasible lengths can be turned into feasible lengths of the merged weights that cost less by at least the merged weight |
| HuffmanOptimality.LowerBound | ffmpeg/libavcodec/4xm.c:660-687 | over a whole greedy run: the sum of the merged weights is a lower bound on the cost of any feasible lengths |
| HuffmanOptimality.TreeCost | ffmpeg/libavcodec/4xm.c:681-704 | the depths in the tree cost exactly the sum of the merged weights |
| PrefixCodes.KraftInequality | ffmpeg/libavcodec/4xm.c:701-704 | any prefix-free codes satisfy the Kraft inequality, so their lengths are feasible |
| PrefixCodes.DecodeEncode | ffmpeg/libavcodec/4xm.c:701-704 | decoding the concatenated codes of any symbol sequence with any prefix-free code gives the sequence back |
| HuffmanTheorems.NoLengthOverflow | ffmpeg/libavcodec/4xm.c:692-699 | for every input table no length exceeds 22 and no code exceeds 22 bits: the overflow branch, whose comment asks whether it can happen, cannot |
| HuffmanTheorems.KraftEquality | ffmpeg/libavcodec/4xm.c:660-704 | the Kraft sum of the table is exactly one with up to 256 symbols and exactly two with 257 |
| HuffmanTheorems.PrefixFreeExactly | ffmpeg/libavcodec/4xm.c:660-704 | the table is a prefix code if and only if at most 256 symbols occur (257 leave two roots) |
| HuffmanDecoding.TableDecodes | ffmpeg/libavcodec/4xm.c:630-704 | every symbol sequence encoded with the table decodes back if and only if at least two and at most 256 symbols occur |
| HuffmanDecoding.LoneSymbolLost | ffmpeg/libavcodec/4xm.c:630-704 | a table whose only symbol is the end symbol gives it the empty code, and the message of that one symbol does not come back |
| HuffmanDecoding.TwoTreesLose | ffmpeg/libavcodec/4xm.c:660-704 | with all 257 symbols two messages begin with the same bits or a symbol has no bits, and some message does not come back |
| HuffmanTheorems.TableOptimal | ffmpeg/libavcodec/4xm.c:660-704 | with at most 256 symbols the table's frequency-weighted length is at most that of any prefix code for the symbols |
| HuffmanOrder.TableUnique | ffmpeg/libavcodec/4xm.c:660-704 | a frequency table has one code table only: ties included, every way the loop can go gives the same lengths and bits |
| HuffmanOrder.SiblingOrder | ffmpeg/libavcodec/4xm.c:661-704 | of two symbols whose codes differ in the last bit only, the zero goes to the rarer one and to the earlier one among equals |
| HuffmanOrder.TwoSymbolTable | ffmpeg/libavcodec/4xm.c:660-704 | with one symbol besides the end symbol both codes have one bit: zero for the symbol if it occurs once and one if it is more frequent |
| PBlocks.CodeExactlyOne | ffmpeg/libavcodec/4xm.c:46-68 | in each of the eight tables every five-bit window matches exactly one block type, the one read; types of length zero are never read |
| PBlocks.TablesReady | ffmpeg/libavcodec/4xm.c:248-264 | the lookup tables built from the codes never split a strip across its width, never split to a single pixel, and offer raw pairs only in strips |
| PBlocks.BlockType | ffmpeg/libavcodec/4xm.c:349-359 | the type read for a block that is not a single pixel can be acted on: a split leaves sides of at least one and more than one pixel |
| PBlockProofs.SourceInside | ffmpeg/libavcodec/4xm.c:361-362 | the address check before a motion copy holds if and only if the whole source rectangle lies inside the last frame buffer |
| PBlockProofs.OwnPlaceInPicture | ffmpeg/libavcodec/4xm.c:411-414 | the address of a block inside the frame passes that check, so the assertion for fills cannot fail |
| PBlockProofs.PackedSum | ffmpeg/libavcodec/4xm.c:278-292 | adding the offset to two pixels in one 32-bit word gives the sum of the left pixel and, in the right one, the sum plus the left one's carry |
| PBlockDecoder.Decoder.McDcPair | ffmpeg/libavcodec/4xm.c:278-292 | one packed multiply-and-add draws the next two pixels of the row |
| PBlockDecoder.Decoder.McDcRow | ffmpeg/libavcodec/4xm.c:294-340 | a row two or more pixels wide is drawn as the leaf says and nothing else is written |
| PBlockDecoder.Decoder.McDc | ffmpeg/libavcodec/4xm.c:294-340 | the copy writes exactly the leaf's rectangle with the pixels the leaf defines; every read is inside the last frame |
| PBlockDecoder.Decoder.DecodeLeaf | ffmpeg/libavcodec/4xm.c:378-427 | types 0, 3, 4, 5 and 6 with their stream checks and errors: result, streams left over and frame are those of the leaf |
| PBlockDecoder.Decoder.DecodePBlock | ffmpeg/libavcodec/4xm.c:342-377 | the recursion ends, its result and the streams left over are those of the block, and the frame is the old frame with the block's leaves drawn; on an error those drawn before it |
| PBlockDecoder.Decoder.DecodePFrame | ffmpeg/libavcodec/4xm.c:482-490 | the loop over all 8x8 blocks draws the leaves of all blocks in order and stops at the first error; which streams are accepted and what they show is stated by PBlockAccepted.AcceptedExactly and PBlockPictures.FrameReadBack |
| PBlockProofs.BlockTiles | ffmpeg/libavcodec/4xm.c:342-377 | the leaves of a block cover each of its pixels exactly once (at most once after an error), cover nothing else, and all fit the frame |
| PBlockProofs.RowsTile | ffmpeg/libavcodec/4xm.c:482-490 | the leaves of a decoded frame cover every pixel of the frame exactly once |
| PBlockProofs.DecidedByOne | ffmpeg/libavcodec/4xm.c:342-427 | a pixel under exactly one leaf ends as what that leaf makes of the old pixel and the last frame, whatever the other leaves are |
| PBlockProofs.BlockConfined | ffmpeg/libavcodec/4xm.c:342-427 | decoding a block, successfully or not, leaves every pixel outside its 8x8 square unchanged |
| PBlockProofs.PictureDecided | ffmpeg/libavcodec/4xm.c:482-490 | after a decoded frame each pixel is the work of one leaf and no other leaf lies over it |
| PBlockCodes.EntryIs | ffmpeg/libavcodec/4xm.c:46-76 | the code table by its rule: in newer streams the types a shape has, in order, get a one more in front of a zero each and the last does without the zero; in older ones two types have two bits and the others follow a one |
| PBlockCodes.TypeFound | ffmpeg/libavcodec/4xm.c:349-359 | whatever type is read for a block, it is one that the shape has, its code is what the bits start with, up to zeros missing at the very end, and reading goes on behind it |
| PBlockWriting.LeafReadBack | ffmpeg/libavcodec/4xm.c:378-427 | what follows the type of a leaf, written out byte by byte (vector from the byte stream, words low byte first), is read back as that leaf and no more |
| PBlockWriting.BlockReadBack | ffmpeg/libavcodec/4xm.c:342-427 | a block written as type codes, vector bytes and word bytes is read as its leaves, and reading goes on where it ends |
| PBlockPictures.BlockDrawn | ffmpeg/libavcodec/4xm.c:342-427 | after the leaves of a written block each of its pixels is what the block shows there, told from the last frame, vectors, offsets and fills, and no other pixel changes |
| PBlockPictures.FrameReadBack | ffmpeg/libavcodec/4xm.c:482-490 | streams written for a grid of blocks are decoded up to where they end, and each pixel becomes what the block over it shows |
| PBlockAccepted.BlockFound | ffmpeg/libavcodec/4xm.c:342-427 | a block decoded without error is the writing of a block: the streams up to where it ends are the codes, vectors and words of a tree whose sources lie in the last frame |
| PBlockAccepted.AcceptedExactly | ffmpeg/libavcodec/4xm.c:482-490 | a frame is decoded without error if and only if its streams were written for a grid of blocks, up to zeros missing in the last code |
| SectionData.SectionsRoundTrip | ffmpeg/libavcodec/aaccoder_trellis.h:171-188 | parsing the emitted section data, whatever follows it, returns the band types of the sections and the rest; all run lengths including escapes |
| SectionData.RunCodeLength | ffmpeg/libavcodec/aaccoder_trellis.h:183-187 | a run of r takes run_bits * (r / run_esc + 1) bits |
| SectionData.MapsInverse | ffmpeg/libavcodec/aacenctab.h:121-124 | columns and codebooks correspond one to one in both directions, but for the reserved codebook 12, which counts as column 0 |
| SectionData.OutMapRises | ffmpeg/libavcodec/aacenctab.h:121-124 | codebooks rise with the columns |
| Trellis.RunningMin | ffmpeg/libavcodec/aaccoder_trellis.h:146-149 | the cheapest admissible point of a band and the first column that has it; none exactly if no column is admissible |
| Trellis.RunningMinFirst | ffmpeg/libavcodec/aaccoder_trellis.h:146-149 | among equally cheap columns the first is remembered |
| Trellis.AdmissibleCodebooks | ffmpeg/libavcodec/aaccoder_trellis.h:100-131 | the columns a band may use, as codebooks: zero bands codebook 0, coded bands their own or a later one, and one of the last three only if it is their own |
| Trellis.CheaperWay | ffmpeg/libavcodec/aaccoder_trellis.h:113-145 | a point takes the cheaper of staying and starting a section, and stays when both cost the same |
| TrellisCoder.FillRow | ffmpeg/libavcodec/aaccoder_trellis.h:80-152 | one band of the table is the next layer: zero bands, barred columns, staying, entering from the cheapest, and the running minimum |
| TrellisCoder.FillPath | ffmpeg/libavcodec/aaccoder_trellis.h:75-153 | the filled table holds the layers of the recurrence band by band |
| TrellisProofs.LowerBound | ffmpeg/libavcodec/aaccoder_trellis.h:80-152 | without run escapes no admissible assignment ending in a column costs less than that column's point |
| TrellisProofs.RecoveredCost | ffmpeg/libavcodec/aaccoder_trellis.h:80-170 | given room below the sentinel, for every admissible column, with escapes too: the columns its back pointers lead through are admissible, cost exactly the point's cost, and end in a run of the stored length |
| TrellisProofs.RunBack | ffmpeg/libavcodec/aaccoder_trellis.h:162-170 | given room below the sentinel, going back by the run stored at an admissible point lands just before the current section, whose pointer names an admissible column the section before it ends in |
| TrellisProofs.CheapestAdmissible | ffmpeg/libavcodec/aaccoder_trellis.h:155-160 | given room below the sentinel, the column chosen at the end is admissible |
| TrellisProofs.RoomExactly | ffmpeg/libavcodec/aaccoder_trellis.h:100-160 | the sentinel keeps barred columns out, of every cheapest final column and of all that the back pointers of admissible points lead through, if and only if there is room: wherever a column opens up a new section costs less than 61450, and so does the last minimum unless no column is barred |
| TrellisProofs.BarredSelected | ffmpeg/libavcodec/aaccoder_trellis.h:100-160 | the failing input, exactly: for one coded band of codebook 1 whose columns all take the same bits, codebook 0, which the band may not use, is a cheapest column if and only if those are at least 61441, the sentinel less the section header |
| TrellisProofs.TrellisOptimal | ffmpeg/libavcodec/aaccoder_trellis.h:59-188 | given room below the sentinel and fewer bands than run_esc, the recovered columns have the least total bits among all admissible assignments |
| TrellisEscapes.NotOptimalWithEscapes | ffmpeg/libavcodec/aaccoder_trellis.h:80-152 | for every number of bands from run_esc on, long or short windows, some valid input below the sentinel has an admissible choice strictly cheaper in the stream than what any cheapest column leads to: the guarantee holds for a number of bands if and only if it is below run_esc |
| TrellisProofs.ChargeAgainstStream | ffmpeg/libavcodec/aacenctab.h:91-101 | the charge of an assignment equals its bits in the stream if and only if it has no short-window section of exactly 14 bands; each such section is priced 3 bits too low |
| TrellisProofs.RoomSuffices | ffmpeg/libavcodec/aaccoder_trellis.h:100-103 | there is room below the sentinel 61450 if some admissible choice with a section header for every band costs less |
| TrellisCoder.Backtrack | ffmpeg/libavcodec/aaccoder_trellis.h:155-170 | backtracking a table whose runs and pointers lead through some sections ends with exactly those stacked in reverse |
| TrellisCoder.ChainLinked | ffmpeg/libavcodec/aaccoder_trellis.h:155-170 | the filled table leads from a chosen admissible column through exactly the sections of the recovered columns |
| TrellisCoder.EncodeSections | ffmpeg/libavcodec/aaccoder_trellis.h:171-188 | the stream grows by exactly the code of the sections in order; each band of a section gets its codebook as type and its zero flag set exactly for codebook 0, and nothing else changes |
| TrellisCoder.PutRun | ffmpeg/libavcodec/aaccoder_trellis.h:183-187 | the loop of escapes appends the code of the run |
| TrellisCoder.CodebookTrellisRate | ffmpeg/libavcodec/aaccoder_trellis.h:59-189 | the selector: given room below the sentinel, an admissible choice, cheapest when runs cannot escape, is stored band by band as codebook and zero flag and appended to the stream; parsing what was appended, codebook by codebook, gives back the selected columns |
| AdtsStream.SyncSeesAnnounced | ffmpeg/libavcodec/aac_parser.c:30-54 | after any bytes, the 64-bit shift register recognises a header at the current byte exactly if the last seven bytes are one, with the length it announces |
| AdtsStream.SplitConserves | ffmpeg/libavcodec/aac_ac3_parser.c:39-80 | the units and the rest put together are the stream: no byte is lost, repeated or reordered |
| AdtsStream.SplitFrames | ffmpeg/libavcodec/aac_ac3_parser.c:39-80 | a concatenation of well-formed ADTS frames splits into exactly those frames |
| AdtsStream.PartialFrame | ffmpeg/libavcodec/aac_ac3_parser.c:39-80 | the beginning of a frame is not handed out |
| AdtsStream.LeadingUnit | ffmpeg/libavcodec/aac_ac3_parser.c:39-80 | bytes before the first header are one unit of their own |
| AdtsHeaders.LengthFromBits | ffmpeg/libavcodec/adts_header.c:30-70 | the announced length from the header bit by bit: bits 0-11 all ones, bits 18-21 below 13 and the 13 bits from bit 30 a length of at least 7, which is then the answer; otherwise none |
| AdtsHeaders.FrameWellFormed | ffmpeg/libavcodec/adts_header.c:30-70 | a frame written field by field, for every length up to 8191 and every frequency index with a rate, is one whose length the splitter reads |
| AdtsParser.Parser.CombineFrame | ffmpeg/libavcodec/parser.c:234-310 | the accumulator: overread bytes are put back first, without a boundary the buffer is appended, with one everything up to it is returned and bytes beyond it kept |
| AdtsParser.Parser.Scan | ffmpeg/libavcodec/aac_ac3_parser.c:48-52 | the scan stops at the first byte that completes a header and otherwise keeps the register of all bytes seen |
| AdtsParser.Parser.Search | ffmpeg/libavcodec/aac_ac3_parser.c:46-80 | outside a frame: nothing found, leading bytes handed out, or a frame begun, as the outcome function says |
| AdtsParser.Parser.Parse | ffmpeg/libavcodec/aac_ac3_parser.c:28-105 | one call of the parser in each of its states; unit, consumed count and new state |
| AdtsChunks.CallIsReferenceStep | ffmpeg/libavcodec/aac_ac3_parser.c:39-105 | every call takes the next step of splitting the bytes held plus the bytes to come, whatever the chunk boundary; in a frame, bytes held plus remaining_size equals the frame length |
| AdtsChunks.CallProgress | ffmpeg/libavcodec/aac_ac3_parser.c:39-105 | a call that consumes nothing of a nonempty buffer has begun a frame, so refeeding ends |
| AdtsChunks.FeedChunk | ffmpeg/libavformat/utils.c:1455-1469 | refeeding the unconsumed bytes of a chunk ends, with the units and the parser state of the fold of its calls |
| AdtsChunks.Feed | ffmpeg/libavcodec/aac_ac3_parser.c:28-105 | the parser, given chunk after chunk and flushed at the end, returns what the fold of its calls returns |
| AdtsChunks.FedIsSplit | ffmpeg/libavcodec/aac_ac3_parser.c:28-105 | what the calls on any chunks of any byte stream yield is the splitting of the unchunked stream |
| AdtsChunks.ChunkingIrrelevant | ffmpeg/libavcodec/aac_ac3_parser.c:28-105 | any two ways to cut one byte stream into chunks make the parser return the same units and the same rest |
| AdtsChunks.FramesComeOut | ffmpeg/libavcodec/aac_ac3_parser.c:28-105 | a stream of well-formed frames, in whatever chunks, comes out as exactly those frames with nothing left over |
| AdtsHeaders.FramesReadBack | ffmpeg/libavcodec/aac_ac3_parser.c:28-105 | frames written field by field, in whatever chunks, come out as exactly those frames |
| AdtsHeaders.StreamReadBack | ffmpeg/libavcodec/aac_ac3_parser.c:28-105 | with bytes before the first frame and the beginning of another behind the last: those bytes in one unit, then the frames, and the beginning is left over |
| FilterChain.ThroughAppend | ffmpeg/fftools/ffmpeg.c:859-884 | feeding a chain a concatenation is feeding it the parts one after the other with the states kept |
| FilterChain.DrainSend | ffmpeg/fftools/ffmpeg.c:874-879 | handing the head of a queue to the next drained filter leaves the remaining outcome unchanged and one step shorter |
| OutputPacket.PositionPush | ffmpeg/fftools/ffmpeg.c:861-879 | wherever the walk stands the filter sent to has not been told of the end of the stream, and the end stays on its way through the chain |
| OutputPacket.Chain.Send | ffmpeg/libavcodec/bsf.c:186-210 | the end of the stream is always taken; a packet is refused after it, put off while another one waits in the buffer, and otherwise buffered |
| OutputPacket.Chain.Receive | ffmpeg/libavcodec/bsf.c:212-235 | the next output of a filter, made from the end of the stream or the buffered packet when none is left; nothing otherwise |
| OutputPacket.Chain.NextOutput | ffmpeg/libavcodec/bsf.c:212-235 | a filter without outputs left is called with the end of the stream if it was told of it, otherwise with its packet, and what it returns comes out, followed by the end in the first case |
| FilterMeaning.FeedAllRuns | ffmpeg/libavcodec/bsf.c:186-235 | one filter over a stream: its outputs are the packets it returned along the run of its states, the call for the end of the stream included, and the end after them |
| FilterMeaning.ThroughRuns | ffmpeg/fftools/ffmpeg.c:859-884 | a chain is the composition of those runs, packet by packet, and passes the end of the stream on |
| OutputPacket.Chain.PullPush | ffmpeg/fftools/ffmpeg.c:861-879 | one turn of the loop: the send is accepted, the outcome of the walk is unchanged and its length drops |
| OutputPacket.Chain.PullWrite | ffmpeg/fftools/ffmpeg.c:863-883 | one turn at the end of the chain: packets go to the muxer in order, the end of stream stops the walk with every filter drained |
| OutputPacket.Chain.OutputPacket | ffmpeg/fftools/ffmpeg.c:846-895 | the walk ends, every send in it is accepted, and the muxer receives exactly what the filters, run one after the other, return for the input, the end of the stream included; a packet after the end is refused and changes nothing |
| OutputPacket.Chain.OutputAll | ffmpeg/fftools/ffmpeg.c:846-895 | over a whole stream the muxer receives what the filters, run one after the other over all packets up to the end of the stream and over that end, return |
| PacketQueue.PacketList.PutPacket | ffmpeg/fftools/ffplay.c:427-454 | refused after an abort; a flush packet raises the serial, the entry carries it, and count, size and duration stay the sums over the entries |
| PacketQueue.PacketList.Get | ffmpeg/fftools/ffplay.c:543-577 | aborted, empty or the first entry, with the counters kept in step |
| PacketQueue.PacketList.Flush | ffmpeg/fftools/ffplay.c:498-514 | all entries and counters are cleared, the serial is kept |
| DecoderSerials.EveryRunWellSerialised | ffmpeg/fftools/ffplay.c:427-454 | under every interleaving of reader, seeks and decoder each packet sent and frame given carries the serial of the last codec flush, and at the decoder's own steps that is pkt_serial |
| DecoderSerials.FlushedFirst | ffmpeg/fftools/ffplay.c:590-677 | no packet of a serial reaches the codec and no frame comes out before that serial's flush, and none of another serial in between |
| DecoderLedger.NothingLost | ffmpeg/fftools/ffplay.c:427-677 | under every interleaving, with no seek under way: the serial counts the flush packets put, and the packets put since the last one are, in order, those the codec is done with, the one in hand and those that wait; before the codec is flushed for the serial all of them wait |
| DecoderSerials.PutKeeps | ffmpeg/fftools/ffplay.c:2950-2962 | putting a packet, or the flush of a seek, keeps serials rising along the queue with each serial opened by its flush packet |
| FrameQueue.FrameQueue.Next | ffmpeg/fftools/ffplay.c:787-801 | the first next of a keep-last queue only marks the frame shown; later ones free the slot and move on |
| FrameQueue.NextUnread | ffmpeg/fftools/ffplay.c:761-801 | peeking and moving on takes the first unread frame, and its slot still holds it if and only if the queue keeps the last frame |
| FrameQueue.FrameQueue.NextOfSerial | ffmpeg/fftools/ffplay.c:2341-2352 | the loop returns the first frame of the serial, having skipped only frames of other serials; the slot is intact if and only if keep_last is set |
| FrameRing.BoundedFifo | ffmpeg/fftools/ffplay.c:745-801 | with the index and size updates as separate steps of both threads, frames come out in the order they went in and at most max_size are stored |
| FrameRing.WriterAlone | ffmpeg/fftools/ffplay.c:745-785 | the slot being written is not the frame last shown, not the one the reader can peek and not the one after it |
| FrameRing.KeptFrameIntact | ffmpeg/fftools/ffplay.c:761-801 | with keep_last the frame delivered last stays in its slot on every run until the next peek |
| FrameRing.NextKeepsExactly | ffmpeg/fftools/ffplay.c:787-801 | a next leaves the frame just peeked at in its slot if and only if keep_last is set |
| CondVar.NoSpuriousWakeup | ffmpeg/compat/os2threads.h:148-182 | along every run of any number of threads, waits released equal events posted but for the one still pending, and then somebody waits |
| CondVar.SignalReleasesOne | ffmpeg/compat/os2threads.h:148-156 | a signal that found waiters returns having released exactly one since its post, who is no longer counted |
| CondVar.NeverStuck | ffmpeg/compat/os2threads.h:148-182 | while a signal or broadcast is under way some thread can step |
| CondVar.BroadcastEnds | ffmpeg/compat/os2threads.h:158-164 | whoever is scheduled, a signal or broadcast returns within seven steps for each waiter plus a constant |
| CondVar.BroadcastReleasesAll | ffmpeg/compat/os2threads.h:158-164 | when a broadcast returns no thread is left waiting or half released |
| Once.RunsOnce | ffmpeg/compat/os2threads.h:184-202 | on every run the routine starts at most once, and a caller that has returned sees it finished |
| Once.EveryoneReturns | ffmpeg/compat/os2threads.h:184-202 | every run is at most six steps per thread long, and no step is possible if and only if every caller has returned |
| MuxWriter.GuessIsMedian | ffmpeg/fftools/ffmpeg.c:764-775 | the repaired timestamp is the median of pts, dts and the last DTS plus one |
| MuxWriter.OutputStream.WritePacket | ffmpeg/fftools/ffmpeg.c:689-800 | frame limit, muxing queue with its growth and overflow, timestamp repair and hand-over, as the whole new state |
| MuxWriter.OutputStream.Open | ffmpeg/fftools/ffmpeg.c:2999-3012 | after the header everything queued goes to the muxer in order |
| MuxProperties.RepairOrders | ffmpeg/fftools/ffmpeg.c:763-798 | whatever the stamps, the repaired packet has DTS <= PTS and, on checked streams, a DTS above the last (not below it with the nonstrict flag) |
| MuxProperties.RepairOnlyWhatIsBroken | ffmpeg/fftools/ffmpeg.c:763-798 | a packet already in order passes unchanged and without complaint |
| MuxProperties.MuxerTimeline | ffmpeg/fftools/ffmpeg.c:689-800 | over any run of writes before and after the header, every packet the muxer has received keeps both orders |
| MuxProperties.DtsRises | ffmpeg/fftools/ffmpeg.c:776-798 | between any two packets of a stretch without undefined DTS the DTS rises, strictly unless the muxer is nonstrict |
| MuxProperties.GapForgets | ffmpeg/fftools/ffmpeg.c:776-798 | across an undefined DTS the order is not kept: on a checked stream the packet after it reaches the muxer with its own DTS, whatever the DTS before was |
| MuxProperties.DtsFallsAcrossGap | ffmpeg/fftools/ffmpeg.c:776-798 | the run with DTS 10, undefined and 5 hands exactly those to the muxer |
| MuxProperties.ExactlyOnceInOrder | ffmpeg/fftools/ffmpeg.c:703-733 | the muxer receives the accepted packets exactly once in order of arrival once the header is written; before that the queue holds them |
| MuxRules.RepairIs | ffmpeg/fftools/ffmpeg.c:735-798 | the packet that reaches the muxer, told from its stamps: rescaled or dropped, both set to the median if the DTS was after the PTS, and moved up to the first allowed DTS, the PTS with it no further than needed; that and nothing else |
| MuxRules.MuxedIs | ffmpeg/fftools/ffmpeg.c:735-820 | handing one packet over: exactly a late one stops the program, if errors are fatal; otherwise it is appended and its DTS remembered |
| MuxRules.EachBecomes | ffmpeg/fftools/ffmpeg.c:689-800 | whenever the header is written, the muxer receives the packets within the frame limit, each become what its stamps and the DTS before it make of it |
| MuxRules.QueueOverflowsExactly | ffmpeg/fftools/ffmpeg.c:709-733 | before the header the program stops if and only if more packets are accepted than the larger of 8 and the queue limit |
| VideoSync.MidPredIsMedian | ffmpeg/libavcodec/mathops.h:97-113 | mid_pred returns the median of its arguments |
| VideoSync.VideoOutput.PlanPicture | ffmpeg/fftools/ffmpeg.c:1095-1165 | drift, clipping and the rules of all five sync modes give the plan of the picture |
| VideoSyncRules.UnclockedPlan | ffmpeg/fftools/ffmpeg.c:1159-1162 | without a clock every picture is one frame at the time nearest to its start, of two the even one |
| VideoSyncRules.VariableRatePlan | ffmpeg/fftools/ffmpeg.c:1152-1158 | at a variable rate a picture is left out if it ends 0.6 frames or more before the clock, and moves the clock to the frame nearest to its start only if it ends more than 0.6 after it |
| VideoSyncRules.ConstantRatePlan | ffmpeg/fftools/ffmpeg.c:1119-1151 | at a constant rate: left out below the drop threshold or more than 1.1 frames behind, one frame up to 1.1, otherwise the nearest number of frames to its end, of which the nearest number to its start less 0.6 repeat the last picture if it starts more than 1.1 late |
| VideoSyncRules.ShiftedStartPlan | ffmpeg/fftools/ffmpeg.c:1128-1151 | a first picture half a frame or more after the clock moves the clock to its start and gets the frames of its duration |
| VideoSyncRules.PlanLimited | ffmpeg/fftools/ffmpeg.c:1167-1168 | the frame limit cuts the plan to exactly what is left, and the repeats with it |
| VideoSyncRules.OneCall | ffmpeg/fftools/ffmpeg.c:1170-1334 | one call: the planned frames are encoded in order up to the first that has no picture or is past the recording time, repeats of the last picture first, with consecutive timestamps; the picture is kept if all were; a rejected call encodes nothing |
| VideoSyncRules.OneCount | ffmpeg/fftools/ffmpeg.c:1175-1208 | what a call adds to pictures, duplicates and drops and whether it holds the picture back, case by case |
| VideoSyncRules.EndPlan | ffmpeg/fftools/ffmpeg.c:1089-1093 | at the end of the stream the last picture is repeated the median of the repeats of the last three calls |
| VideoSync.VideoOutput.DoVideoOut | ffmpeg/fftools/ffmpeg.c:1053-1335 | one call: plan, limits, counters, early exits, frames given to the encoder and the picture kept, as the whole new state |
| VideoSyncProofs.Ledger | ffmpeg/fftools/ffmpeg.c:1168-1334 | on every run, frames encoded minus (pictures + duplicates - drops) is exactly the sum of the per-call defects: frames cut off, rejected duplications that also drop, flushes without a picture, calls past the frame limit |
| VideoSyncProofs.CountersBalance | ffmpeg/fftools/ffmpeg.c:1756-1757 | with the last report's pending drop added the counters balance if and only if the defects sum to zero |
| VideoSyncProofs.Conservation | ffmpeg/fftools/ffmpeg.c:1168-1210 | in every sync mode, without those exits, frames encoded = pictures + duplicates - drops |
| VideoSyncProofs.CountersTruthful | ffmpeg/fftools/ffmpeg.c:1168-1195 | on plain runs the drops (with the pending one) are exactly the pictures never shown and the duplicates exactly the frames showing nothing new |
| VideoSyncProofs.StepTruthfulExactly | ffmpeg/fftools/ffmpeg.c:1168-1334 | a call keeps the counters truthful if and only if it is plain |
| VideoSyncProofs.LateStartMiscounts | ffmpeg/fftools/ffmpeg.c:1182-1208 | a first picture planned as two repeats is shown twice but counted as two duplicates and as held back: the case that plain excludes |
| VideoSyncProofs.LateStartPlan | ffmpeg/fftools/ffmpeg.c:1141-1147 | an empty first picture at 2.45 frames is planned that way |
| VideoSyncProofs.DriftBounded | ffmpeg/fftools/ffmpeg.c:1095-1151 | at a constant rate, on every run with end times that never go back and no cut-off, the end of the last picture minus the output clock lies in [-2.1, 0.5] ([-2.1, 1] when initial frames are not duplicated) |
| VideoSyncProofs.LagReached | ffmpeg/fftools/ffmpeg.c:1139-1147 | the lower bound is attained by a steady run: two empty pictures at 0 and one that ends at 0.9 leave the clock 2.1 frames ahead |
| VideoSyncProofs.LeadReached | ffmpeg/fftools/ffmpeg.c:1128-1147 | so are both upper bounds, by a single picture of 2.5 frames |
| VideoSyncProofs.OutputInOrder | ffmpeg/fftools/ffmpeg.c:1095-1334 | in the constant, variable and VSCFR modes output timestamps strictly rise and pictures never go back, on every run, with every limit and exit |
| CommandLine.Splitter.FindOptionIndex | ffmpeg/fftools/cmdutils.c:218-229 | the first option whose name is the argument up to its colon |
| CommandLine.Splitter.MatchGroupSeparator | ffmpeg/fftools/cmdutils.c:642-655 | the first group definition with that separator |
| CommandLine.Splitter.ReadWord | ffmpeg/fftools/cmdutils.c:783-845 | one option word: separator, known option with its argument rules, library option, negated boolean or the errors; what it consumes and the new context |
| CommandLine.Splitter.SplitCommandline | ffmpeg/fftools/cmdutils.c:753-857 | the loop ends in the context and status of the recursive reading of the arguments |
| CommandLineRules.FileWord | ffmpeg/fftools/cmdutils.c:773-782 | a word is a file exactly if it follows a double dash, is empty or a lone dash, or does not begin with one; otherwise it is read as an option |
| CommandLineRules.SeparatorWord | ffmpeg/fftools/cmdutils.c:794-801 | the first group with that separator takes the next argument, before any option of the name |
| CommandLineRules.OptionWord | ffmpeg/fftools/cmdutils.c:803-819 | the first option with the name up to the colon, with its rules for the argument |
| CommandLineRules.LibraryWord | ffmpeg/fftools/cmdutils.c:821-835 | an unknown option with an argument goes to the library, which takes both or fails with its code |
| CommandLineRules.UnknownWord | ffmpeg/fftools/cmdutils.c:837-849 | one that the library does not know negates a boolean option of the name behind no, otherwise it is an error |
| CommandLineRules.SplitMakes | ffmpeg/fftools/cmdutils.c:662-849 | on every command line, with an error at the end or not: the global options in order, for every file or separator one group of the options and library settings given since the group before, and what was left open |
| CommandLineProofs.SplitFolds | ffmpeg/fftools/cmdutils.c:753-857 | splitting is reading the arguments as items and applying the items in order |
| CommandLineProofs.EveryArgumentOnce | ffmpeg/fftools/cmdutils.c:763-845 | each argument is consumed in exactly one role: the texts of the items are the arguments, or a proper prefix of them before an error |
| CommandLineProofs.DashesNeverFile | ffmpeg/fftools/cmdutils.c:773-776 | no command line makes a double dash an output file |
| CommandLineProofs.RoundTrip | ffmpeg/fftools/cmdutils.c:642-857 | for every printable context, printing it and splitting the result gives it back if and only if no output file is named with a double dash |
| CommandLineProofs.PrintableExactly | ffmpeg/fftools/cmdutils.c:642-857 | the printable contexts without such a file are exactly those that a successful split without library options and trailing options gives; an exit option without argument, or a negation the library also knows, can only end the line |
| Charset.EntryBrackets | ffmpeg/libavcodec/a64multienc.c:117-129 | the table entry of a brightness is the one that brackets it |
| CharsetRenderer.Tables.Build | ffmpeg/libavcodec/a64multienc.c:116-129 | the loop fills both index tables and the dither table with their meaning for all 256 values |
| CharsetRenderer.Tables.Ramp | ffmpeg/libavcodec/a64multienc.c:120-122 | the steps between two neighbouring palette entries |
| Charset.OneRedo | ffmpeg/libavcodec/a64multienc.c:170-179 | a character adjusted once uses only one end of the palette, so it is not redone again |
| Charset.AdjustedCheapest | ffmpeg/libavcodec/a64multienc.c:172-178 | no character that leaves out one end of the palette differs less from the original than the adjusted one |
| CharsetPixels.SettledIs | ffmpeg/libavcodec/a64multienc.c:170-179 | the character that is drawn: one with pixels below the second and above the fourth entry loses the bright end if raising its dark pixels would change it more, otherwise the dark one; any other stays |
| Charset.DrawnNear | ffmpeg/libavcodec/a64multienc.c:148-158 | the drawn entry is one of the two around the brightness; the fifth entry is drawn only for what is brighter than the fourth |
| CharsetPixels.DrawnIs | ffmpeg/libavcodec/a64multienc.c:117-158 | a brightness d sevenths, rounded down, on the way from one entry to the next is drawn with the next one exactly where the pattern of step d has a dot for that row, field and column |
| CharsetPixels.DrawnOutside | ffmpeg/libavcodec/a64multienc.c:117-129 | brightness below or above the palette is drawn with the entry at that end |
| Charset.PatternsValid | ffmpeg/libavcodec/a64tables.h:90-145 | the interlaced pattern table has the shape the renderer needs and its first pattern is empty |
| CharsetPixels.PatternDots | ffmpeg/libavcodec/a64tables.h:90-145 | step d of the pattern table has 4 * d dots of 32: brightness rises evenly from empty to full |
| CharsetRenderer.Renderer.DrawRow | ffmpeg/libavcodec/a64multienc.c:134-169 | one row: the bytes of both fields and the sums of what is too dark and too bright |
| CharsetRenderer.Renderer.DrawChar | ffmpeg/libavcodec/a64multienc.c:131-169 | all rows of a character are stored in both fields and nothing else changes |
| CharsetRenderer.Renderer.RenderChar | ffmpeg/libavcodec/a64multienc.c:131-187 | a redo is asked for exactly if the character clashes; then it is adjusted in place, otherwise its flag is stored |
| CharsetRenderer.Renderer.RenderCharset | ffmpeg/libavcodec/a64multienc.c:131-188 | the loop ends with at most one redo per character; codebook, charset and flags are those of the settled characters |
| Charset.PixelRecovered | ffmpeg/libavcodec/a64multienc.c:131-187 | the palette entry of every pixel can be told from its two-bit code and the character's flag, although the darkest and the brightest share a code |
| CharsetRenderer.CharsetRecovered | ffmpeg/libavcodec/a64multienc.c:131-187 | the same from the bytes of the finished charset, for every character, row, column and field |
| CharsetPixels.CharsetBits | ffmpeg/libavcodec/a64multienc.c:131-169 | in the finished charset, for every character, row, column and field, the two bits of the pixel are three minus the drawn entry modulo four |
| CharsetPixels.FlagIs | ffmpeg/libavcodec/a64multienc.c:185-187 | the flag of a character is set exactly if a pixel of the settled character is above the fourth entry |

## Left out

- 4XM: reading the frequency runs from the bytes (`4xm.c:630-658`); `BuildTables` starts from any table of 256 byte frequencies with the end symbol set to 1. `init_vlc` and `get_vlc2` appear as the codes they stand for; I frames, the inverse DCT and the split of a P frame into its three streams are not modelled.
- PBlockDecoder.Decoder.DecodePBlock: bits read past the end of the bit stream are taken to be zero, as the padding of the buffer makes them; the motion vectors are any 256 offsets.
- TrellisCoder.CodebookTrellisRate: band costs are a given table of nonnegative reals instead of the float cost function, the points of a band are stored as one row value instead of being updated one by one in the two-dimensional array, and there is room below the sentinel 61450 (`RoomExactly` says what fails otherwise, `RoomSuffices` gives a simple condition): without it a barred point can be chosen, whose run of zero would leave the walk back where it is.
- TrellisProofs.TrellisOptimal: proved where runs cannot escape; from run_esc bands on it is false for some inputs (`NotOptimalWithEscapes`), and which inputs those are is not characterised.
- AdtsParser.Parser.Parse: only the framing fields; sample rate, channels, bit rate and service type copied to the codec context are left out, and so are allocation failures and the padding copied behind a unit.
- OutputPacket.Chain.OutputPacket: filters are functions from state and input to a new state and finitely many packets; filter errors are left out, a blank packet counts as the end of the stream, and the end of the stream is sent once, as its callers do.
- DecoderSerials.EveryRunWellSerialised: one stream; subtitles, hardware reordering of timestamps and the wait on the condition variable (a blocked step is simply not enabled) are left out.
- FrameRing.BoundedFifo: waiting and signalling are the enabling conditions of steps; resizing of video pictures and audio samples is left out.
- MuxWriter.OutputStream.WritePacket: one stream; the conversion of time bases is a given function that keeps undefined stamps undefined, and side data, statistics, logging and failures of the muxer are left out. `Open` is the flush of one stream when the last one becomes ready.
- VideoSync.VideoOutput.DoVideoOut: times are reals in frame periods, so float rounding is left out; the duration of a picture and the choice of the sync mode from the format are inputs; the global counters are those of one stream; forced keyframes and the encoder itself are left out.
- CondVar.BroadcastEnds: callers hold the mutex around wait, signal and broadcast; the semaphores are auto-reset flags.
- CommandLine.Splitter.SplitCommandline: the library's answer to an option is a given function of key and value; dictionaries are lists of pairs, and the platform's conversion of the argument list and logging are left out.
- CommandLineProofs.RoundTrip: whether the library knows an option is taken to depend on its name alone (`KnownByName`), as the lookups of `cmdutils.c:569-632` do.
- CharsetRenderer.Renderer.RenderCharset: codebook values are bytes, as averages of brightness values are; the clustering that makes them and the queueing of frames are left out, and so is the non-interlaced branch, which a constant switches off.
- SDL windows and audio, clocks, terminal handling, signals, logging, memory allocation failures and fixed-size string formatting are not modelled.
- `ffmpeg_opt.c`, `ffmpeg_filter.c`, hardware acceleration, help printing, and the small decoders `8svx.c`, `8bps.c`, `012v.c` would add only easier members.
