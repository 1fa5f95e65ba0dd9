# What this project proves

The tracer records every instruction a guest function runs, compresses the text with its own LZ4 block compressor and
ships it, to a file or over one shared TCP connection, as frames of `[compressed size][original size][thread id]` and a
compressed block. A Python tool takes the frames apart again. Around this core sit a memory dumper that must reproduce
memory as it was at function entry, two caches that must agree with something simpler, and three small parsers. The
project models these parts and proves what they are for:

- **Blocks.** Whatever the uncleared hash table holds, decompressing a compressed block gives the block back
  (`Lz4RoundTrip`), the block meets the end-of-block conditions of the LZ4 Block Format Description, every match is as
  long as it can be, and with the advertised bound the compressor never gives up. What it finds is exact: a round ends at
  the first of its probed positions that matches the position last entered under its hash, and nowhere else
  (`RoundExact`), so a run of equal bytes shrinks to its 255th part (`RunOfBytes`). The decoder is modelled on all byte
  sequences, with Python's slice and index rules. One guard of the compressor counts a byte too few; `LastGuard` says
  exactly when that shows, `LastGuardTooWeak` names an input, and with room for the bound it never shows.
- **Frames and files.** Decoding any beginning of a frame stream gives exactly the frames that are whole in it.
  Writing texts of any lengths through the buffer to a sink that accepts a few bytes at a time, then destroying it,
  leaves a file that decodes to the texts joined; so does a crash handler's salvage, and a second salvage adds
  nothing.
- **The connection.** A writer is a step machine of two threads with a mutex, a condition variable (spurious wake-ups
  included) and two buffers; any number of them, any number to a thread, share a socket. Over every run: what is in
  flight is never overwritten, frames do not interleave, each writer's frames carry its text in order, the connection
  is open exactly as long as a session holds a reference, nobody gets stuck before it is closed, and it always can be
  brought to its close, with all frames and then one end frame (`EndFollows`). A flush hands over all that is buffered
  before the next operation starts (`FlushHandsOver`). A stream that is cut, or ends without an end frame, is received as
  a lost connection with the frames that were whole (`ReceiveCut`). The receiver's file for a tid is the
  merge of its writers' texts. A session has one writer at a time on a thread, so with one session on it a thread's
  file is those texts in turn (`AloneInTurn`). With more sessions a writer starts while others of its thread are still
  there, since a writer ends only when its own function is called again or its session freed. The packets are then
  bound to stay in turn if and only if the new writer has nothing to write or every earlier one of the thread has sent
  all its text, but for a packet on its way (`StartExact`, `RunExact`); else the threads' own steps can put the later
  text first. Two traced functions on one thread, nested or one called after the other, are enough, in a run where
  nothing goes wrong (`TwoMix`).
- **The dump.** A session object taken through any entries, accesses, native code and finalizations (`Record`) leaves
  files that hold memory as it was at first entry, each selected page in one file, if no native code wrote. Every page that holds a byte
  of some access comes out, both pages of a straddling one (`TouchedExact`). One
  unannounced write by it is enough to break this (`NativeWriteShows`), and `DumpIsFrozen` says what a page holds
  then: entry memory if and only if the last native change before the page is fixed, if any, left it with that.
- **Caches.** The instruction cache is least-recently-used in each set and owns each instruction exactly once. All
  sessions share it, so an instruction that a session remembers may be freed before it is read: it is live if and only
  if, since it was used, no session was freed, no more than three other addresses of its set were used, and no more
  than one at any trim (`Survives`, `PrintAssemble`). A session alone on the cache is always safe; four addresses of
  another are enough to lose it, and such addresses exist (`OthersFree`, `SameSet`), as one run shows (`ReadsFreed`).
  Instructions of one aligned block of 64 KB each have a set of their own and never evict each other (`HashApart`,
  `BlockLasts`).
  A region tag agrees with a reading of the maps taken in the run since the generation it was asked under, if and only
  if there was such a reading (`TagExact`); so it always does when the maps can be opened, and one failure is enough
  that it does not (`FailedRebuildIsStale`).
- **Parsers.** Parsing the trace of a call tree gives the tree's calls, on every beginning those entered so far; the
  printed tree ends on every graph, refers back correctly, marks a repeated function as recursive exactly when it is on
  the chain above the row, and has each call of an expanded function once under it, in ascending order;
  pretty method and field texts give the descriptors they were printed from.

Code that changes state is written as methods over arrays, fields and loops, and tied to functions about which the
lemmas speak. Integers are unbounded; 32-bit words, the 64-bit wrap of the stack window and the hash's multiplication
are written out.

## Model

| member | source | states |
|---|---|---|
| Words.CtzFindsFirstDifference | trace/include/lz4_block.h:98-102 | the trailing zero count of two loaded words' exclusive or, divided by 8, is the index of the first byte that differs; the exclusive or is zero exactly when all eight agree |
| Lz4Parse.CommonLenExact | trace/include/lz4_block.h:95-103 | the length a match is extended to is exact: all bytes agree, and the next one differs or the limit is reached |
| Lz4Parse.CommonLenSplit | trace/include/lz4_block.h:98-102 | extending by a chunk that agrees and going on is extending from the start |
| Lz4Parse.Search | trace/include/lz4_block.h:53-72 | the accelerating search gives only positions at or after its start, at most 12 bytes before the end, with a candidate before them, at most 65535 back, and four equal bytes, whatever the table holds |
| Lz4Parse.HashFinder | trace/include/lz4_block.h:38-72 | the table-driven search is a sound finder for every table |
| Lz4Search.HashIs | trace/include/lz4_block.h:40-42 | the table index is the upper half of a 32-bit product of the four bytes as a word, wrap-around included |
| Lz4Search.ProbesAre | trace/include/lz4_block.h:53-62 | where each probe lies: 64 steps of each length, one longer after every 64 |
| Lz4Search.SearchExact | trace/include/lz4_block.h:49-72 | for every table: the search ends at the first probed position whose last entered candidate, among this search's own probes or else in the table, is earlier, in reach and equal in four bytes; or nowhere, and then no position it probed has one |
| Lz4Search.RoundExact | trace/include/lz4_block.h:49-124 | a round is that search, a maximal match from there, and an entry two bytes before its end; the loop goes on unless twelve bytes or fewer are left |
| Lz4Search.ParseRuns | trace/include/lz4_block.h:44-51 | the loop starts at position 1 with position 0 entered if there are 13 bytes, and runs until a round is the last |
| Lz4Search.RunOfBytes | trace/include/lz4_block.h:19-144 | a run of 14 or more equal bytes is one literal, one match at offset 1 and five literals, byte for byte, at most n/255 + 11 bytes, whatever the table holds |
| Lz4Parse.RoundAdvances | trace/include/lz4_block.h:49-124 | each round of the main loop moves on inside the input, so the loop ends |
| Lz4Parse.RoundsKeep | trace/include/lz4_block.h:49-124 | what one round keeps, the whole loop keeps |
| Lz4Parse.CopyRebuilds | trace/include/lz4_block.h:95-103 | copying a match back, overlapping its own output or not, rebuilds the input bytes it stands for |
| Lz4Parse.MatchedExpands | trace/include/lz4_block.h:74-120 | appending a found match's sequence to sequences that expand to the input so far gives sequences that expand to the input up to the match's end |
| Lz4Parse.ParseCovers | trace/include/lz4_block.h:49-124 | when the loop ends the sequences expand to the input up to the anchor, with matches that are well formed, far enough from the end, and maximal |
| Lz4Parse.BlockExpandsToInput | trace/include/lz4_block.h:19-144 | for every input, finder and table, the block expands to the input, offsets are 1 to 65535 inside the block, and every match stops where the next byte differs or five bytes before the end |
| Lz4Parse.BlockEndConditions | trace/include/lz4_block.h:25-62 | last five bytes literal, last match at least twelve bytes before the end, last sequence literals only; inputs under 13 bytes have no match |
| Lz4Parse.BlockSize | trace/include/lz4_block.h:7-9 | the encoded block is at most n + n/255 + 2 bytes |
| Lz4Format.EncodeRun | trace/include/lz4_block.h:126-141 | a literal run's bytes: token, length bytes, literals, with their exact number |
| Lz4Format.EncodeSequence | trace/include/lz4_block.h:74-117 | a sequence's bytes: token, literal length bytes, literals, offset, match length bytes, with their exact number |
| Lz4Format.SequenceCost | trace/include/lz4_block.h:74-117 | a sequence costs no more than the bytes it stands for plus their 255th part |
| Lz4Format.EncodeSize | trace/include/lz4_block.h:7-9 | the bound summed over all sequences of any well-formed block |
| Lz4Format.ExpandSnoc | tools/trace_receiver.py:103-106 | expanding one more sequence is expanding the others, adding its literals and copying back byte by byte |
| Lz4Compress.Enter | trace/include/lz4_block.h:122-123 | the position is the entry under the hash of the four bytes there, and every other entry is as before |
| Lz4Compress.FindMatch | trace/include/lz4_block.h:49-72 | the loop with its growing step finds what the search function finds and leaves the table it leaves |
| Lz4Compress.ExtendMatch | trace/include/lz4_block.h:95-103 | the word-at-a-time loop and the byte loop together stop exactly where byte-by-byte extension stops |
| Lz4Compress.PutExt | trace/include/lz4_block.h:81-83 | length bytes stored in place, the rest of the buffer unchanged |
| Lz4Compress.PutRun | trace/include/lz4_block.h:130-140 | token, length bytes and literals of a run, stored in place |
| Lz4Compress.PutSequence | trace/include/lz4_block.h:74-120 | stores exactly the sequence's bytes, or gives up only when fewer than 14 bytes would be left after it |
| Lz4Compress.AppendSequence | trace/include/lz4_block.h:74-120 | the output grows from the encoding of the sequences so far to that with one more |
| Lz4Compress.PutNext | trace/include/lz4_block.h:49-124 | one round of the loop: output, cursors and table are those of the round function |
| Lz4Compress.PutSequences | trace/include/lz4_block.h:44-124 | the whole loop: output, anchor and table are those of the parse, or it gives up when the block would not fit with 8 bytes to spare |
| Lz4Compress.NoRoom | trace/include/lz4_block.h:78-111 | giving up inside the loop means the finished block would be within 8 bytes of the limit or beyond it |
| Lz4Compress.PutLast | trace/include/lz4_block.h:126-143 | the last literals; it gives up only if they do not fit, and passes the limit by one byte at most, only for a run that leaves 15 or more over when divided by 255 |
| Lz4Compress.LastGuard | trace/include/lz4_block.h:128-129 | when the guard lets a run through, the run fits if and only if it leaves less than 15 over or there was a byte to spare; it misses by one byte at most |
| Lz4Compress.LastGuardTooWeak | trace/include/lz4_block.h:128-129 | fifteen different bytes with room for sixteen pass the guard and take seventeen |
| Lz4Compress.NothingToMatch | trace/include/lz4_block.h:53-72 | input without two equal bytes is encoded as literals only, whatever the table holds |
| Lz4Compress.Compress | trace/include/lz4_block.h:19-144 | for every table: the output is the encoding of the block parsed with it; 0 only for no input, no room, or a block that would not fit with 8 bytes to spare; with room for n + n/255 + 16 never 0, never past the limit, and at most n + n/255 + 2 |
| Lz4Decompress.DecodeOne | tools/trace_receiver.py:70-106 | one turn of the decoder's loop, on any bytes, errors of Python's indexing included |
| Lz4Decompress.DecompressBlock | tools/trace_receiver.py:65-108 | the decoder's loops compute the decoding function on every byte sequence and size |
| Lz4Decompress.ReadExtIs | tools/trace_receiver.py:74-80 | length bytes are read up to the first that is not 255, or the end of the input, and summed |
| Lz4Decompress.SlicesAre | tools/trace_receiver.py:81-82 | a slice past either end is cut short and a slice assignment past the end grows the buffer, as in Python |
| Lz4Decompress.MatchCopies | tools/trace_receiver.py:90-106 | a turn with a match copies it from the offset behind the literals |
| Lz4Decompress.ZeroOffsetFails | tools/trace_receiver.py:90-92 | a match with offset 0 is an error |
| Lz4Decompress.HalfOffsetFails | tools/trace_receiver.py:86-90 | an input that ends inside the offset is an error |
| Lz4Decompress.LiteralMissing | tools/trace_receiver.py:81-87 | an input that ends inside its literals decodes to those there are |
| Lz4Decompress.OffsetBeforeStart | tools/trace_receiver.py:103-106 | an offset that reaches before the start reads from the end of the buffer, as a negative index does |
| Lz4Decompress.ReadLenBack | tools/trace_receiver.py:74-80 | length bytes read back as the length they were written for |
| Lz4Decompress.CopyBackIsCopyMatch | tools/trace_receiver.py:103-106 | copying inside the preallocated buffer is the format's overlapping copy |
| Lz4Decompress.DecodeSequence | tools/trace_receiver.py:70-106 | a turn on an encoded sequence appends exactly its literals and its copied bytes |
| Lz4Decompress.DecodeEncode | tools/trace_receiver.py:65-108 | decoding the encoding of any well-formed block into a buffer of at least its size gives its expansion |
| Lz4RoundTrip.DecodeCompressed | trace/include/lz4_block.h:19-144 | decoding what the compressor makes of an input gives the input, for every table, every sound finder and every original size not below the input's |
| Lz4RoundTrip.CompressAndDecompress | tools/trace_receiver.py:65-108 | running the compressor with room for the bound and the decoder on its output returns the input |
| Frames.ReadOne | tools/trace_receiver.py:116-144 | reading one frame from a position: the frame, or why it stops there |
| Frames.DecodeFrames | tools/trace_receiver.py:111-144 | the loop yields the frames of the stream and the reason it stopped |
| Frames.ReadStream | tools/trace_receiver.py:111-144 | a stream of good frames decodes to their tids and texts, in order, to its end |
| Frames.ReadCutFrame | tools/trace_receiver.py:117-134 | a frame cut anywhere yields nothing, with the reason that fits the cut |
| Frames.ReadPrefix | tools/trace_receiver.py:111-144 | any beginning of a stream of good frames decodes to exactly the frames that are whole in it |
| Frames.WholeFramesExact | tools/trace_receiver.py:111-144 | the number of frames whole in the first k bytes, pinned from both sides |
| Frames.HeaderLayout | trace/include/DirectWriteBuf.h:263-263 | compressed size, original size and tid, in this order, each in four bytes, lowest first |
| Frames.CorruptStops | tools/trace_receiver.py:135-144 | good frames in front of a corrupt one are decoded, then reading stops as corrupt, whatever follows |
| Receiver.Socket.RecvExact | tools/trace_receiver.py:266-273 | exactly the next n bytes however the socket cuts them up, or lost if it closes before |
| Receiver.ReceiveFrame | tools/trace_receiver.py:320-334 | one frame taken from the socket, as reading it from the rest of the stream gives it, and no byte beyond it; corrupt or the end frame exactly when reading says so |
| Receiver.DemultiplexNext | tools/trace_receiver.py:336-351 | one more frame goes to the end of its own tid's file |
| Receiver.Receive | tools/trace_receiver.py:319-371 | each tid's file is the texts of its frames in order, no other files, with the number of frames; it ends with the end frame exactly when reading stops there, as corrupt exactly at a corrupt frame, and as lost exactly when the stream ended or was cut |
| Receiver.ReceiveCut | tools/trace_receiver.py:266-371 | good frames cut off anywhere, or ended without an end frame: a lost connection, with the files of exactly the frames that were whole |
| FileBuffer.File.WriteAll | trace/include/DirectWriteBuf.h:68-76 | with a sink that accepts something each time all of it is written; otherwise a beginning of it |
| FileBuffer.ReadOn | tools/trace_receiver.py:111-144 | what follows a clean stream is read as if alone, after its frames |
| FileBuffer.AppendFrameText | trace/include/DirectWriteBuf.h:260-266 | a frame behind a clean stream adds exactly its text under its tid |
| FileBuffer.FrameForGood | trace/include/DirectWriteBuf.h:260-266 | the frame made of a buffer is one the decoder takes back to the buffer's text |
| FileBuffer.InlineCopy | trace/include/DirectWriteBuf.h:297-305 | the eight-byte loop and the byte loop copy exactly the source |
| FileBuffer.DirectWriteBuf.Flush | trace/include/DirectWriteBuf.h:247-269 | what decoding the file plus the buffer gives is unchanged, the buffer is empty, and the file has one frame more, of what was buffered, or none if nothing was |
| FileBuffer.DirectWriteBuf.Write | trace/include/DirectWriteBuf.h:308-332 | for data of any length and a sink that accepts something each time, what decoding the file plus the buffer gives grows by exactly the data; data that fits leaves the file alone; else it gets one frame of what was buffered, and data longer than the buffer goes out in frames of full buffers, the last excepted |
| FileBuffer.DirectWriteBuf.Destroy | trace/include/DirectWriteBuf.h:230-239 | the file decodes to all that was written, under this tid alone |
| FileBuffer.DirectWriteBuf.FlushFromSignal | trace/include/DirectWriteBuf.h:275-285 | as flush, and without effect once the descriptor is gone |
| FileBuffer.DirectWriteBuf.CloseFromSignal | trace/include/DirectWriteBuf.h:289-293 | the descriptor is given up and the file closed |
| FileBuffer.TraceClone.Salvage | trace/src/EastTrace.cpp:1576-1582 | afterwards the file decodes to all bytes written plus the pending line |
| FileBuffer.SalvagedTwice | trace/src/EastTrace.cpp:1574-1584 | a second salvage adds nothing |
| FileBuffer.SalvageAll | trace/src/EastTrace.cpp:1574-1584 | every clone's file is salvaged, whatever the others are |
| FileBuffer.TraceToFile | trace/include/DirectWriteBuf.h:230-332 | end to end: any writes, a sink with any short writes, destroy, then joining the payloads of the decoded file gives the writes joined |
| TcpWriter.ProducerKeepsControl | trace/include/DirectWriteBuf.h:210-269 | every step of the tracing thread keeps the protocol's invariant: who holds the mutex, what is pending, which buffer is whose, who must still be woken |
| TcpWriter.ProducerKeepsText | trace/include/DirectWriteBuf.h:247-332 | every step of the tracing thread keeps sent, in-flight, pending, buffered and unwritten text in one unchanging order |
| TcpWriter.WorkerKeepsControl | trace/include/DirectWriteBuf.h:106-135 | the worker's steps keep the invariant |
| TcpWriter.WorkerKeepsText | trace/include/DirectWriteBuf.h:106-135 | and the text |
| TcpWriter.SendingKeeps | trace/include/DirectWriteBuf.h:117-125 | compressing, taking the send mutex and sending any part keep both |
| TcpWriter.DroppedKeeps | trace/include/DirectWriteBuf.h:121-129 | a packet sent whole moves from in flight to sent, once |
| TcpWriter.SpuriousKeeps | trace/include/DirectWriteBuf.h:109-109 | a wake-up without a reason changes nothing that matters |
| TcpWriter.InFlightUntouched | trace/include/DirectWriteBuf.h:247-258 | while a buffer is pending or in flight, the tracing thread neither has it active nor changes it |
| TcpWriter.DoneSentAll | trace/include/DirectWriteBuf.h:210-220 | destroy is over only when every byte written has been sent |
| TcpWriter.NeverStuck | trace/include/DirectWriteBuf.h:106-269 | before that, one of the two threads can move or is sending |
| TcpWriter.ProducerProgress | trace/include/DirectWriteBuf.h:210-332 | every step of the tracing thread lowers a well-founded measure |
| TcpWriter.WorkerProgress | trace/include/DirectWriteBuf.h:106-135 | so does every step of the worker |
| TcpFlush.FlushHandsOver | trace/src/EastTrace.cpp:1087-1090 | a flush asked for with text buffered, whatever the worker does meanwhile: before the next operation starts all of it is pending, in flight or sent, behind what was so before, and the buffer is empty |
| TcpFlush.WriteFits | trace/include/DirectWriteBuf.h:310-312 | data that fits goes behind what is buffered and nothing is handed over |
| TcpFlush.WriteWaits | trace/include/DirectWriteBuf.h:313-314 | data that does not fit waits for a flush of what is buffered, if anything is |
| TcpFlush.PutOrPieces | trace/include/DirectWriteBuf.h:316-330 | after it, data no longer than the buffer is buffered, and only longer data goes out in pieces |
| TcpFlush.ChunksFill | trace/include/DirectWriteBuf.h:320-329 | each piece fills the buffer, or is the rest, and is flushed |
| TcpSocket.TakeKeeps | trace/include/DirectWriteBuf.h:122-122 | at most one writer is inside the send lock |
| TcpSocket.SendKeeps | trace/include/DirectWriteBuf.h:123-124 | the holder's next bytes follow its earlier ones directly, however short the sends |
| TcpSocket.DropKeeps | trace/include/DirectWriteBuf.h:121-125 | a packet out whole is next in the order of the wire, as its writer's |
| TcpSocket.FreeKeeps | trace/src/EastTrace.cpp:1540-1557 | giving up a reference keeps count and connection in step |
| TcpSocket.EndKeeps | trace/include/DirectWriteBuf.h:241-245 | sending the end frame under the send mutex keeps the invariant |
| TcpSocket.SpawnKeeps | trace/src/EastTrace.cpp:402-417 | so does a new writer, whether or not other sessions' writers on its thread have ended; its own session's have |
| TcpSocket.OpenKeeps | trace/src/EastTrace.cpp:1409-1422 | and a new session on the shared connection |
| TcpSocket.StepKeeps | trace/include/DirectWriteBuf.h:106-269 | every step of every thread keeps the invariant of the whole |
| TcpSocket.RunInv | trace/include/DirectWriteBuf.h:106-269 | it holds after every interleaving |
| TcpSocket.NeverInterleaved | trace/include/DirectWriteBuf.h:121-125 | the wire is whole frames in order, then at most a beginning of one frame or of the end frame |
| TcpSocket.NothingLost | trace/include/DirectWriteBuf.h:106-269 | at any moment of any run a buffer pending or in flight is not the one being filled, and the tracing thread's next step leaves it alone; a writer at its end has sent all its text |
| TcpSocket.SentByWriter | trace/include/DirectWriteBuf.h:106-135 | a writer's packets are on the wire in the order it sent them, and carry all its text once it is done |
| TcpSocket.ClosedWire | trace/src/EastTrace.cpp:1540-1557 | a closed connection carried whole frames only and then the end frame, once, and of each writer exactly what it was asked to write |
| TcpSocket.OpenWhileHeld | trace/src/EastTrace.cpp:1409-1557 | in every state of every run the connection is open if and only if a session holds a reference, and the count is the number of those |
| TcpSocket.TraceAgain | trace/src/EastTrace.cpp:1229-1245 | tracing a function again gives its reference back and takes a new one: with another session there the count is unchanged, else the connection ends first |
| TcpSocket.NobodyStuck | trace/include/DirectWriteBuf.h:106-269 | in every reachable state until the connection is closed some thread can move by itself |
| TcpSocket.StepProgress | trace/include/DirectWriteBuf.h:106-269 | and each such move lowers a well-founded measure |
| TcpSocket.EndFollows | trace/src/EastTrace.cpp:1540-1557 | so from every reachable state the threads bring the connection to its close by their own steps, with every frame and then one end frame |
| TcpTurns.TurnsAreTurns | trace/include/DirectWriteBuf.h:119-124 | if no packet of a thread's writer comes behind one of a later writer, the thread's packets are its writers' packets, one writer after another |
| TcpTurns.SessionRun | trace/src/EastTrace.cpp:402-417 | in every state of every run the packets of one session on one thread are in turn, and only its last writer there is unfinished |
| TcpTurns.AloneInTurn | trace/src/EastTrace.cpp:444-500 | a thread with one session's writers only has its packets in turn, however often the function is called |
| TcpTurns.TurnsStep | trace/include/DirectWriteBuf.h:106-269 | where no later writer can overtake an earlier one, no step but the start of a writer changes that |
| TcpTurns.SpawnSafe | trace/src/EastTrace.cpp:467-500 | the start of a writer leaves that so if and only if it has nothing to write, or all earlier writers of its thread have sent all but a packet being sent |
| TcpOvertake.Overtakes | trace/include/DirectWriteBuf.h:106-135 | from any reachable state in which a later writer of a thread can overtake an earlier one, own steps lead to the proper end with a packet of the later before one of the earlier |
| TcpOvertake.StateExact | trace/src/EastTrace.cpp:444-500 | a thread's packets stay in turn however the run goes on without new writers, if and only if they are in turn now and no pair of its writers can overtake |
| TcpOvertake.StartExact | trace/src/EastTrace.cpp:467-500 | the start of a writer keeps them bound to stay in turn if and only if that start is clear |
| TcpOvertake.RunExact | trace/src/EastTrace.cpp:402-500 | over whole runs: they were bound to stay in turn at every moment if and only if every start on the thread was clear |
| TcpOvertake.ClearEnd | trace/src/EastTrace.cpp:402-500 | at the end of such a run, or of any with one session on the thread, they carry the writers' texts, one after another |
| TcpOvertake.TwoMix | trace/src/EastTrace.cpp:444-500 | two sessions on one thread: a run to the proper end in which the second function's text comes before the first's |
| TcpEndToEnd.CompressorIsGood | trace/include/DirectWriteBuf.h:117-120 | what the compressor makes of a buffer is a form the decoder takes back |
| TcpEndToEnd.WireIsStream | trace/include/DirectWriteBuf.h:119-124 | the packets on the wire are a frame stream of those packets |
| TcpEndToEnd.ReadClosedWire | tools/trace_receiver.py:319-347 | decoding a closed connection's bytes ends at the end frame and gives, under each tid, the merge of what its writers were asked to write; no other tid is heard |
| TcpEndToEnd.WriterHeard | tools/trace_receiver.py:336-351 | a writer that wrote anything is heard under its tid |
| TcpEndToEnd.ReceiveRun | tools/trace_receiver.py:276-371 | end to end: after any run of any writers on any threads that closed the connection, there is a file for the tid of every writer that wrote anything and for no other, holding the merge of its writers' texts; if all are of one session or all their starts were clear, those texts joined |
| DumpModel.TouchedExact | trace/src/TraceUnidbgDump.cpp:243-249 | an access of some bytes touches exactly the pages these lie in; of none, the page of its address |
| DumpModel.PlayWrites | trace/src/TraceUnidbgDump.cpp:240-513 | over any run from any state: which pages come out, and with which bytes |
| DumpModel.DumpIsFrozen | trace/src/TraceUnidbgDump.cpp:240-513 | a page comes out if and only if it is selected, with its bytes just before its first announced write or at the first selection, whichever is earlier; they are entry memory if and only if the last native change before that moment, if any, left the page so |
| DumpModel.DumpIsEntry | trace/src/TraceUnidbgDump.cpp:240-513 | a page native code leaves alone until then is dumped as at entry |
| DumpModel.WholeDumpIsEntry | trace/src/TraceUnidbgDump.cpp:240-513 | if memory changes only in bytes that announced writes are about, the whole dump is entry memory after any accesses, straddling ones included, and any number of finalizations |
| DumpModel.NativeWriteShows | trace/src/TraceUnidbgDump.cpp:17-19 | an unannounced native write before the first finalization shows in the dump |
| DumpSession.FindLine | trace/src/TraceUnidbgDump.cpp:474-475 | the line an address is in, or that it is in none |
| DumpSession.ExpandLines | trace/src/TraceUnidbgDump.cpp:465-484 | the loop with its last line and its expanded starts pushes exactly the pages of the short lines seen |
| DumpSession.ExpansionIsNaive | trace/src/TraceUnidbgDump.cpp:465-484 | in any order of the touched pages that is what the naive rule selects |
| DumpSession.SelectPages | trace/src/TraceUnidbgDump.cpp:451-484 | touched pages, stack window in 64-bit arithmetic, library, expanded lines, and nothing else |
| DumpBytes.StackExact | trace/src/TraceUnidbgDump.cpp:453-456 | where the 64-bit sums do not wrap, the stack window is the pages with an address from 64 KB below the stack pointer to 8 KB above it |
| DumpBytes.LibraryExact | trace/src/TraceUnidbgDump.cpp:457-459 | and the library is the pages with an address in it |
| DumpBytes.LineExact | trace/src/TraceUnidbgDump.cpp:465-484 | the expanded lines are the pages of lines of at most 64 MB in which some page was touched |
| DumpBytes.SelectionExact | trace/src/TraceUnidbgDump.cpp:451-484 | so the selection is, by addresses, exactly touched pages, stack, library and these lines |
| DumpSession.AbsorbSeparated | trace/src/TraceUnidbgDump.cpp:312-319 | a step of the coalescing keeps the ranges sorted, aligned and apart |
| DumpSession.AbsorbCovers | trace/src/TraceUnidbgDump.cpp:312-319 | and adds exactly its page |
| DumpSession.Coalesce | trace/src/TraceUnidbgDump.cpp:309-321 | the ranges are sorted, page-aligned, do not touch, and cover exactly the given pages |
| DumpSession.FiledNext | trace/src/TraceUnidbgDump.cpp:496-513 | one more file of new pages leaves every page out in exactly one file that holds it |
| DumpSession.DumpSession.OnEntry | trace/src/TraceUnidbgDump.cpp:223-236 | the first entry's registers are kept, later entries change nothing |
| DumpSession.DumpSession.OnMem | trace/src/TraceUnidbgDump.cpp:240-253 | every page from that of the first byte to that of the last is noted and, before a first write, copied |
| DumpSession.DumpSession.TakeFresh | trace/src/TraceUnidbgDump.cpp:485-489 | pages not dumped yet are registered and kept |
| DumpSession.DumpSession.RangeBytes | trace/src/TraceUnidbgDump.cpp:502-510 | a range's bytes, snapshot or live page by page |
| DumpSession.DumpSession.WriteRanges | trace/src/TraceUnidbgDump.cpp:494-513 | one file for each range of new pages, the earlier files as they were |
| DumpSession.DumpSession.Finalize | trace/src/TraceUnidbgDump.cpp:450-513 | the selected pages that were not out come out, nothing out is written again, and every page out is in exactly one file |
| DumpSession.FilesAreEntry | trace/src/TraceUnidbgDump.cpp:240-513 | files that hold the pages of a run of announced accesses have each page ever selected in one file only, no other page, and in every file what its addresses held at first entry |
| DumpRun.ServeAll | trace/src/TraceUnidbgDump.cpp:223-513 | a session object taken through any requests ends in the state of their run, each finalization selecting by the pages touched until then and the stack of the first entry |
| DumpRun.AccessIsSelected | trace/src/TraceUnidbgDump.cpp:240-484 | any page that holds a byte of an access is selected by any later finalization |
| DumpRun.Record | trace/src/TraceUnidbgDump.cpp:223-513 | a new session through any requests: every page that holds a byte of an access made before a finalization is in a file; each page ever selected is in one file only, no other page is, with the bytes it had when it was fixed; with no native code among them every file holds what its addresses held at the first moment |
| DisasmModel.LookupOwns | trace/src/EastTrace.cpp:166-183 | a lookup moves entries and neither loses nor copies an instruction |
| DisasmModel.InsertOwns | trace/src/EastTrace.cpp:186-200 | an insertion takes one instruction in and lets the last way's out, once |
| DisasmModel.TrimOwns | trace/src/EastTrace.cpp:153-163 | a trim lets ways 2 and 3 out |
| DisasmModel.UseKeepsOk | trace/src/EastTrace.cpp:593-602 | get, and put on a miss, keep a set hole-free, without an address twice, each instruction at its own address |
| DisasmModel.UseOrders | trace/src/EastTrace.cpp:166-200 | a use puts its address first, keeps the order of the others, and of five drops the last |
| DisasmModel.TrimOrders | trace/src/EastTrace.cpp:153-163 | a trim keeps the first two addresses |
| DisasmModel.RunIsRecent | trace/src/EastTrace.cpp:153-200 | after any uses and trims a set holds a beginning of the list of distinct addresses by last use |
| DisasmModel.RunIsLastFour | trace/src/EastTrace.cpp:166-200 | with no trim it holds exactly the last four, or all there were |
| DisasmModel.RunSurvives | trace/src/EastTrace.cpp:142-200 | after any uses, trims and clearings an instruction is still in its set if and only if never more than three other addresses were used since its own last use, no more than one of them at a trim, and nothing was cleared; and then it stands right behind those |
| DisasmModel.OthersEvict | trace/src/EastTrace.cpp:153-200 | any four other addresses put it out, and so do any two and a trim |
| DisasmCache.HashAddr | trace/src/EastTrace.cpp:126-130 | every address has one of the 16384 sets |
| DisasmCache.HashApart | trace/src/EastTrace.cpp:126-130 | two instructions of one aligned block of 64 KB have different sets |
| DisasmCache.TotalUpdate | trace/src/EastTrace.cpp:105-200 | what all sets own changes by what one set's change takes in and lets out |
| DisasmCache.DisasmCache.Get | trace/src/EastTrace.cpp:166-183 | the instruction of this address and no other's, moved to the front by shifting in place; on a miss nothing moves |
| DisasmCache.DisasmCache.Put | trace/src/EastTrace.cpp:186-200 | the instruction is first of its set, the last way's is freed, all others stay; everything handed over is in one slot or freed once |
| DisasmCache.DisasmCache.TrimCold | trace/src/EastTrace.cpp:153-163 | ways 2 and 3 of every set are freed, ways 0 and 1 stay |
| DisasmCache.DisasmCache.Clear | trace/src/EastTrace.cpp:142-149 | every set is empty and everything ever handed over has been freed exactly once |
| DisasmCache.DisasmCache.PutRegAccess | trace/src/EastTrace.cpp:223-236 | the first eight registers of each list are kept with the first entry and nothing else changes |
| DisasmCache.DisasmCache.Visit | trace/src/EastTrace.cpp:512-560 | on a hit and on a miss the same registers are printed: the first eight of each list of this instruction |
| DisasmTracer.TracksLru | trace/src/EastTrace.cpp:142-200 | for the whole cache and all sessions on it: every set holds the addresses used last, most recent first |
| DisasmTracer.FreedIffAbsent | trace/src/EastTrace.cpp:142-200 | an instruction handed to the cache has been freed if and only if its set does not hold it |
| DisasmTracer.RememberedNext | trace/src/EastTrace.cpp:593-602 | whatever any session does next, a remembered instruction stands where what happened since says |
| DisasmTracer.LiveIff | trace/src/EastTrace.cpp:623-633 | a remembered instruction is live if and only if it survives what happened to its set since |
| DisasmTracer.AloneLasts | trace/src/EastTrace.cpp:593-633 | with trims only in between, it lasts to the session's own next read |
| DisasmTracer.BlockLasts | trace/src/EastTrace.cpp:126-200 | as long as all sessions stay inside such a block and none is freed, what is remembered is live, trims or not |
| DisasmTracer.OthersFree | trace/src/EastTrace.cpp:593-633 | four addresses of its set that another session uses, or two and a trim, and it is freed before that read |
| DisasmTracer.SameSet | trace/src/EastTrace.cpp:126-130 | five addresses that share a set |
| DisasmTracer.ReadsFreed | trace/src/EastTrace.cpp:593-633 | one run on a new cache with two sessions that ends in reading a freed instruction |
| DisasmTracer.Tracer.PrintAssemble | trace/src/EastTrace.cpp:593-755 | the instruction remembered from the step before is read only for a store with an address, and is live then if and only if it has lasted through what all sessions did since, this step's own use of the cache included; a failed decoding changes nothing |
| DisasmTracer.Tracer.CleanUp | trace/src/EastTrace.cpp:1092-1096 | ways 2 and 3 of every set go, and where each session's remembered instruction stands is still what was done since says |
| DisasmTracer.Tracer.FreeTrace | trace/src/EastTrace.cpp:1530-1536 | freeing some sessions clears the one cache: what the others remember has been freed |
| DisasmTracer.Tracer.TraceCode | trace/src/EastTrace.cpp:985-1219 | one callback: the step before is read only for a store with an address and not after a JNI return, live if and only if it has lasted; a trim that is due has emptied ways 2 and 3 of every set; the branch checks after a printed line read that line's instruction, live even after a trim; after a failed decoding they read an older one, live if and only if it has lasted |
| RegionCache.FindPtrRegion | trace/src/FuncCallTrace.cpp:421-431 | binary search finds a region if and only if the address is in one, and then that one |
| RegionCache.ScanUnique | trace/src/FuncCallTrace.cpp:421-431 | in sorted regions at most one contains an address |
| RegionCache.RegionTable.EnsureFresh | trace/src/FuncCallTrace.cpp:436-442 | the table is read again exactly if it is empty or stamped otherwise, and stamped even if it could not be read |
| RegionCache.ThreadTag.AppendRegionTag | trace/src/FuncCallTrace.cpp:482-508 | alone, it makes the steps of the machine and writes their tag; small addresses get none |
| RegionCache.StepKeeps | trace/src/FuncCallTrace.cpp:436-508 | every step of every thread, failed readings included, keeps the readings sorted and in order of their generations, one thread in the lock, each kept region from a reading, and, for a region kept under the current generation but read under an older one, that this generation will not be read any more |
| RegionCache.ReadsHappened | trace/src/FuncCallTrace.cpp:380-417 | every reading is the maps of some moment of the run, under the generation of that moment |
| RegionCache.TagExact | trace/src/FuncCallTrace.cpp:482-508 | over all interleavings a tag is what some reading of the run since the generation it was asked under gives, if and only if the maps have been read since that generation |
| RegionCache.HitExact | trace/src/FuncCallTrace.cpp:495-498 | the same for an answer from the thread's kept region, taken without the lock |
| RegionCache.FinishExact | trace/src/FuncCallTrace.cpp:436-508 | and for one from the table |
| RegionCache.RunCoherent | trace/src/FuncCallTrace.cpp:482-508 | if the maps could be opened whenever they were to be read, every tag of every run is such an answer |
| RegionCache.FailedRebuildIsStale | trace/src/FuncCallTrace.cpp:380-442 | in a run from the start in which nothing failed before, one failed rebuild lets a region that is gone answer for the new generation, which no reading since gives |
| CallGraph.ParseFile | tools/build_calltree.py:29-51 | tables, total, entry and line count are those of the stack machine on the lines that count, up to the maximum, and the library is that of the first line that counts; total, the sum of edge counts and the sum of function counts are equal on every input |
| CallGraph.CountedParts | tools/build_calltree.py:33-37 | lines count one by one, part by part |
| CallGraph.FirstSoIs | tools/build_calltree.py:37-38 | the library is that of the first line that counts, whatever follows |
| CallGraph.FirstLinesAre | tools/build_calltree.py:49-50 | of the lines that count the first ones up to the maximum are taken, and at least one |
| CallGraph.Book | tools/build_calltree.py:42-45 | one more call in the tables: its edge and its callee count one more, nothing else changes |
| CallGraph.EdgesNext | tools/build_calltree.py:42-43 | the edge table stays the multiset of calls made |
| CallGraph.SumEdgesGrows | tools/build_calltree.py:42-45 | the sum of all edge counts grows by one with each call |
| TraceTree.BodyRuns | tools/build_calltree.py:40-48 | a whole body adds its calls and leaves the stack as it was |
| TraceTree.CallRuns | tools/build_calltree.py:41-48 | a call and its callee's whole run, return included, do too |
| TraceTree.ParsePrefix | tools/build_calltree.py:29-51 | of any beginning of a call tree's trace, exactly the calls whose callee was entered in it, in order |
| TraceTree.ParseInverts | tools/build_calltree.py:29-51 | of the whole trace, the tree's calls as a multiset |
| TraceTree.TableOfTree | tools/build_calltree.py:29-51 | the tables of a tree's trace count each of its calls, and the total is their number |
| CallTree.Printer.Pr | tools/build_calltree.py:78-91 | it ends on every graph, with the functions not yet expanded as measure; rows are only added and lines only entered; of a function expanded outside the current chain each call stands once directly under its first row, and no later row can come there, unless it was too deep; a row is marked recursive exactly when its function is on the chain above it |
| CallTree.GoodFirsts | tools/build_calltree.py:86-87 | each function has one first row, at the line kept for it, above all its other rows |
| CallTree.GoodRefs | tools/build_calltree.py:83-85 | every back-reference names that line |
| CallTree.GoodMarks | tools/build_calltree.py:81-85 | a repeated function has a reference, unless it calls nothing or is on the chain above the row, which is marked recursive then and only then |
| CallTree.GoodNested | tools/build_calltree.py:79-91 | every indented row stands under the row of a function that calls it |
| CallTree.PrintTree | tools/build_calltree.py:59-92 | all of this for the whole tree: under the first row of each function above depth 60 there is exactly one row for each of its calls, in ascending order; what is printed is reachable from the entry, and if nothing was too deep all that is reachable is printed |
| PrettySig.ClassNameToSig | trace/src/JniTrace.cpp:374-406 | the recursion and its loops compute the descriptor function on every string |
| PrettySig.TypeBack | trace/src/JniTrace.cpp:374-406 | a type of any depth comes back from its text as its descriptor |
| PrettySig.KeywordLetters | trace/src/JniTrace.cpp:375-383 | each primitive's keyword has the letter the Java Virtual Machine Specification gives it |
| PrettySig.ArrayKept | trace/src/JniTrace.cpp:384-389 | a name that starts with a bracket keeps its characters, dots turned into slashes |
| PrettySig.ParseParams | trace/src/JniTrace.cpp:486-509 | the parameter loop on every string |
| PrettySig.ListBack | trace/src/JniTrace.cpp:486-509 | a printed parameter list gives the parameters' descriptors |
| PrettySig.SpacesAround | trace/src/JniTrace.cpp:486-509 | spaces before and after a parameter do not matter |
| PrettySig.ParsePrettyMethod | trace/src/JniTrace.cpp:452-515 | the parser on every string, rejected ones included |
| PrettySig.Refused | trace/src/JniTrace.cpp:452-544 | a text without a parenthesis, a space or a dot gives empty names; a field without a space or a dot gives question marks |
| PrettySig.MethodBack | trace/src/JniTrace.cpp:452-515 | a method's pretty text gives its slash class name, its name and its descriptor |
| PrettySig.FieldBack | trace/src/JniTrace.cpp:522-544 | a field's does too |
| PrettySig.WalkArgs | trace/src/JniTrace.cpp:1571-1656 | the walk's places on every signature |
| PrettySig.StepPasses | trace/src/JniTrace.cpp:1613-1655 | one step passes exactly one parameter's descriptor |
| PrettySig.WalkCounts | trace/src/JniTrace.cpp:1608-1656 | over a method's descriptor the walk takes one argument for each parameter, where its descriptor begins |
| SymbolTable.FindExact | trace/Utils/SymbolTable.cpp:261-271 | a name if and only if some entry starts at the address, and then the first such entry's |
| SymbolTable.FindContaining | trace/Utils/SymbolTable.cpp:280-301 | the nearest entry at or below, and no other, if and only if it covers the address by size or within 4 KB; without overlap that is what a linear scan finds |
| Sorting.SortSorts | trace/src/TraceUnidbgDump.cpp:311-311 | ascending, with the same elements as often |
| Sorting.SortedSet | tools/build_calltree.py:80-80 | the keys in strictly ascending order |

## Left out

- Sockets, files, mmap, /proc, signals and thread creation: a file is a byte sequence with scripted short writes, a socket a byte sequence cut up at will, maps a sorted list.
- The virtual machine, the disassembler and the Java runtime: instructions and memory changes are given.
- The receiver's optional C decompressor, its progress output, timeouts and file naming.
- TcpSocket.StepKeeps and the rest of TCP mode: one writer and one connection are values with steps, not an object with locks; what is not captured is a data race inside a step.
- TcpSocket.TraceAgain: an earlier session is found by its function and freed first, so tracing again never takes a second reference; the branch of trace() that keeps an entry (trace/src/EastTrace.cpp:1474-1497) is entered only if a new handle has the value of one still in the map for another function, which is not part of this model.
- TcpOvertake.Overtakes: when a thread writes to which of its writers is left free, as the program it traces decides that; a writer may also end as soon as it has nothing more to write.
- FileBuffer.TraceToFile: the sink accepts at least one byte each time; a sink that fails loses text, as `WriteAll` states.
- TcpWriter.SendingKeeps: a send takes at least one byte; a connection that breaks in the middle of a frame is only covered by the receiver's handling of cut frames.
- Lz4Compress.Compress: inputs below 2 GB, as its int sizes demand; for room below the bound, the destination has one byte more than the room, since the last guard may pass it by one.
- Lz4Compress.LastGuard: every caller in the repository gives room for the bound, so the byte is never missed there.
- DumpSession.DumpSession.OnMem: pages about to be written are mapped, and address plus size stays below 2 to the 64; symbols, opened files and JNI tables of the dump are left out, as are files that cannot be opened.
- DumpSession.DumpSession.OnEntry: floating-point and status registers.
- DumpModel.NativeWriteShows: the header of trace/src/TraceUnidbgDump.cpp says external jumps do not matter because a replay repeats them; the code writes their effects into the dump whenever they come before the first finalization of an unwritten page, and the model follows the code.
- DisasmCache.DisasmCache.Put: instructions are told apart by allocation, so a freed one is never handed over again; lengths of mnemonic and operand text are left out.
- DisasmTracer.Tracer.PrintAssemble: the sessions' uses of the cache come one after another; it has no lock, and threads inside it at once are not captured. Whether the read crashes on a freed instruction is outside; the text printed is left out but for its registers.
- RegionCache.StepKeeps: the generation does not wrap; a thread's symbol table and its shortened label are left out.
- CallGraph.ParseFile: matching a line against the two patterns is given.
- TraceTree.ParseInverts: every callee appears in the trace and ends in a return; calls into libraries the tracer hides are outside the inverse.
- CallTree.Printer.Pr: at depth 60 a function is entered as expanded although its calls are not printed, as the code does, so a later reference can name a row without them; the summary below the tree is left out.
- PrettySig.WalkArgs: argument values, whose floating-point part the code does not read, and strings with a NUL inside.
- SymbolTable.FindContaining: no symbol reaches past the end of the address space; loading the table is left out.
- Register and syscall printing, string builders, hex dumps, ELF and library helpers: finite tables and formatting.
