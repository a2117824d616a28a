# A model of nxdb in Dafny

nxdb draws a debugger's windows on a console and shows them in a desktop client. This project models the parts
of it in which two sides, or two moments, must agree, and proves that they do, or exactly when.

- **The draw-data codec.** The server keeps one hash per draw-list slot and sends a list either in full, quantised to
  12 bits, or as three zero counts when its hash is the one remembered. The client rebuilds each frame from the bytes
  and a copy of its previous frame. `Quantise`, `Wire` and `Codec` give one frame, `DeltaRun` whole runs,
  `DrawDataPack` and `DrawDataUnpack` the imperative code.
- **The hash.** `Bits` and `Hash` model the 32-bit Murmur hash with its inverses, `HashVectors` gives values of it,
  `DrawLists` what is hashed.
- **The send-or-skip decision** of `render`, in `ImGuiLoop`.
- **The transport.** `Packets` are the senders, `Receiver` the two receiving loops with their buffers, `Framing` what
  holds over every way the network may cut the stream. `EndToEnd` puts packer, transport and unpacker together.
- **The memory map.** `Regions` is the debugged process as the kernel reports it, with the walks over it. `MemoryMap`
  maps runs of it, `MemoryUnmap` undoes that, `Translate` looks addresses up.
- **Reaping components**, in `Components`.

## How the model reads the code

- Integers are unbounded; words of 8, 12, 16 and 32 bits are numbers in range, and every wrap is written out. An or
  of disjoint bit ranges is a sum; exclusive or is defined bit by bit.
- A float is its binary32 word, and `FloatValue` is the number it denotes. The hash and the clamp work on words, the
  clamp with infinities and NaN as C++ compares them; divisions and products are exact, over the reals.
- The client's lists hold real coordinates. Fields that unpacking sets to constants (texture, callbacks, flags) are
  not kept.
- `recv` takes a parameter `want` that stands for the network: any prefix of what is under way that fits may arrive,
  or nothing. A list of `want`s is one cutting of the stream. `recv` into no space returns 0, as a closed peer does.
- `virtmemFindAslr` takes the address it tries as a parameter and fails, which aborts, if there is no room there.
  `svcQueryMemory` on a mapped address returns any mapped stretch from there on, merged with its neighbours or not.
- Preconditions are what the code relies on without checking: at most 128 draw lists, a frame that fits the output
  buffer, distinct list objects, payload entries that lie inside the payload, runs of at most 256 regions, at most 13
  modules, an address space that ends at 0x8000000000.

## What turned out not to hold

The code falls short of what one would expect of it in these ways. Each is stated for every run with the shape
described, beside a theorem that says exactly when the expectation is met.

- A client that joins later sees blank slots until they change (`LateJoinerSeesBlank`), and so does every client when
  a slot goes away and comes back unchanged (`RegrownSlotIsBlank`). A list that becomes empty keeps showing
  (`EmptiedListLingers`). `ShowsCurrentIff` says exactly when a slot is right: when it is fresh and its list is not
  empty, or stale and its list is empty.
- A frame that only reorders its lists is not sent (`ReorderedFrameIsSkipped`), and slots that look different in it
  are wrong (`ReorderedSlotIsWrong`). `GatingShows` and `GatingShowsIff` say exactly which slots are right.
- A packet that does not fit its receiver blocks the connection, and the server reads its own full buffer as a close:
  everything is handled exactly when every packet fits (`DeliveredIffFits`, `HangsUpIffTooLong`).
- Packets complete in the server's buffer when the client closes are lost (`BurstLoses`, `TwoEmptyPacketsLoseOne`):
  everything is handled exactly when some call finds all bytes in and at most one packet left (`ClosedDeliveredIff`).
- Unmapping stops at the first region that mapping skipped (`RestoredIff`).
- The client's reset when more than a buffer is left to move cannot be reached; `Receiver.PacketReceiver.DropFront`
  asserts why.

## Model

| member | source | states |
|---|---|---|
| DeltaRun.ClientShows | sysmodule/source/nxdb/DrawDataPack.cpp:33-81 | After every frame of every run, for any client whenever it joined: each slot shows the list that last refreshed it since the join, quantised, if every frame since reached the slot, and is blank otherwise. No assumption on hashes, counts, empty lists or display sizes |
| DeltaRun.ShowsCurrentIff | client/Source/pe/DrawData.cpp:34-114 | With one display size and no same-slot collision, empty lists or not: a slot shows the current quantised list if and only if it is fresh and its list is not empty, or stale and its list is empty; a stale slot is blank |
| DeltaRun.ShowsCurrentIffFresh | client/Source/pe/DrawData.cpp:34-114 | The case of runs without empty lists: a slot shows the current quantised list if and only if it is not stale |
| DeltaRun.FreshMeans | sysmodule/source/nxdb/DrawDataPack.cpp:35-45 | "Not stale" spelled out: some frame since the join refreshed the slot and every frame from then on reached it |
| DeltaRun.LastRefreshIsLast | sysmodule/source/nxdb/DrawDataPack.cpp:35-45 | The frame that explains a slot is the last one that refreshed it, with no gap after it |
| DeltaRun.TableHoldsPrevHash | sysmodule/source/nxdb/DrawDataPack.cpp:11-12 | The remembered hash of a slot is the hash of the last list seen there, through any number of frames that did not reach it, or 0 |
| DeltaRun.KeptSinceRefresh | sysmodule/source/nxdb/DrawDataPack.cpp:38-45 | Between refreshes, without collisions, a list that is not empty now has not changed in its slot |
| DeltaRun.AlwaysShowsCurrent | client/Source/pe/DrawData.cpp:34-114 | From the first frame on, if the list count never shrinks and no list hashes to 0, the client always shows the quantised server frame |
| DeltaRun.LateJoinerSeesBlank | sysmodule/source/nxdb/DrawDataPack.cpp:38-43 | A client that joins before a frame that repeats the previous lists is shown nothing, right only for empty lists: joining does not reset the hashes |
| DeltaRun.RegrownSlotIsBlank | client/Source/pe/DrawData.cpp:45-52 | A list that is gone for one frame and returns unchanged is blank on every client, right only if it is empty |
| DeltaRun.EmptiedListLingers | client/Source/pe/DrawData.cpp:45-52 | A list that becomes empty keeps showing its old content, because a full send of it is the same bytes as "unchanged"; the slot is right if and only if it was stale before |
| DeltaRun.OneBlockChangeRefreshes | sysmodule/source/nxdb/DrawDataPack.cpp:35-45 | A list changed inside one aligned block since the previous frame is never marked unchanged; it is sent in full |
| DeltaRun.FreshShowsClose | client/Source/pe/DrawData.cpp:34-114 | On the server display size, a fresh slot shows the current list part by part: each command, vertex and index in its place, exact or within one step |
| DeltaRun.ClientUnpacks | client/Source/pe/DrawData.cpp:10-117 | Unpacking the payload bytes of each frame in turn is the client of the run theorems |
| DeltaRun.PayloadsFromSnoc | sysmodule/source/nxdb/DrawDataPack.cpp:33-81 | A later frame changes no earlier payload and adds its own, packed from the table the run has left |
| Codec.UnpackUndoesPack | client/Source/pe/DrawData.cpp:22-95 | For any table, frame, client state and display: unpacking the packed bytes succeeds, yields the cursor and the slots the delta rule says, and stops exactly where packing stopped |
| Codec.FullFrameRoundTrip | sysmodule/source/nxdb/DrawDataPack.cpp:25-79 | If every list is sent in full, the client shows the quantised form of every list, whatever it showed before |
| Codec.ListIsClose | sysmodule/source/nxdb/DrawDataPack.cpp:47-78 | A list sent in full comes back with as many commands, vertices and indices, each the one in its place: command k and vertex i within one step, indices exact |
| Codec.VertIsClose | sysmodule/source/nxdb/DrawDataPack.cpp:63-75 | A vertex comes back with its exact colour, positions other than NaN low by less than one step of the clamped ones, texture coordinates in [0,1] likewise |
| Codec.ListIsCounted | sysmodule/source/nxdb/DrawDataPack.cpp:51-75 | What is sent, exactly: for every k and i, clip edges of command k counted in 4095ths of the display as they are, positions of vertex i after the clamp, texture coordinates as they are, colour, low halves of offsets and count |
| Codec.CmdIsClose | sysmodule/source/nxdb/DrawDataPack.cpp:51-61 | Clip edges inside the display come back within one step; an offset or element count comes back modulo 65536, exactly if and only if it is below 65536 |
| Codec.ClampWordValue | sysmodule/source/nxdb/DrawDataPack.cpp:68-69 | A NaN passes the clamp unchanged; for every other word, infinities included, clamping the word is clamping its number |
| Codec.ClampedVert | sysmodule/source/nxdb/DrawDataPack.cpp:66-69 | Vertex i of a packed list keeps colour and texture coordinates; of its position words NaN and -0.0 stay, other words with the sign bit become 0, those without become the smaller of themselves and the display size |
| Codec.PayloadHeader | sysmodule/source/nxdb/DrawDataPack.cpp:25-29 | Every payload starts with the cursor, the list count and the two totals, as four ints in that order |
| Codec.FullFrameIsClose | sysmodule/source/nxdb/DrawDataPack.cpp:25-79 | If every list is sent in full, list i shown is list i of the frame, part by part |
| Wire.FrameRoundTrip | client/Source/pe/DrawData.cpp:15-20 | Header and lists are read back as written, list by list, and reading ends at the last byte written |
| Wire.ReadListBack | client/Source/pe/DrawData.cpp:41-94 | One entry anywhere in the data: counts, commands, vertices and indices are read back, and the cursor moves past exactly that entry |
| Wire.CmdRoundTrip | common.h:26-37 | The packed command: four 12-bit clip fields and three 16-bit fields come back unchanged |
| Wire.VertRoundTrip | common.h:39-50 | The packed vertex: four 12-bit fields and the colour come back unchanged |
| Wire.HeaderRoundTrip | common.h:5-10 | The header: four ints, negative ones included, come back unchanged |
| Wire.CmdLayout | common.h:26-37 | Where each field of a packed command lies, byte by byte, low bits first |
| Wire.VertLayout | common.h:39-50 | Where each field of a packed vertex lies, byte by byte, low bits first |
| Wire.IntLayout | common.h:5-10 | An int is four bytes, the lowest first, the top bit counting as minus 2^31 |
| Wire.FrameBytes | sysmodule/source/nxdb/DrawDataPack.cpp:20-23 | The size of a frame: 16 bytes, then 12 per list plus 12 per command, 10 per vertex and 2 per index of the lists sent |
| Quantise.ClampedCodeLoss | sysmodule/source/nxdb/DrawDataPack.cpp:66-71 | For every input and positive display size, the clamp, scale, truncate and rescale path loses at least 0 and less than one step |
| Quantise.CodeMonotone | sysmodule/source/nxdb/DrawDataPack.cpp:68-71 | Codes are monotone in the coordinate |
| Quantise.CodeStable | client/Source/pe/DrawData.cpp:83-86 | Encoding a decoded coordinate gives the same code: quantising twice is quantising once |
| Quantise.UvCodeLoss | sysmodule/source/nxdb/DrawDataPack.cpp:72-73 | Texture coordinates in [0,1] lose less than one step and are stable |
| Quantise.Pack48RoundTrip | common.h:40-45 | Four 12-bit fields share six bytes, low bits first, and each comes back unchanged |
| Quantise.FieldLayout | common.h:27-32 | Where the four 12-bit fields lie in any six bytes |
| Quantise.CodeCounts | sysmodule/source/nxdb/DrawDataPack.cpp:51-71 | The code of a value is its whole number of 4095ths of the display, low 12 bits kept, and 0 within one step below zero |
| Quantise.DecodedCountsSteps | client/Source/pe/DrawData.cpp:63-86 | A code comes back as that many 4095ths of the display |
| Quantise.SignBitNegates | sysmodule/source/nxdb/DrawDataPack.cpp:68-69 | A float word and the word with its sign bit set denote a number and its opposite |
| Quantise.ExponentDoubles | sysmodule/source/nxdb/DrawDataPack.cpp:68-69 | One more in the exponent of a normal float word doubles its number |
| Quantise.EvenSteps | sysmodule/source/nxdb/DrawDataPack.cpp:68-69 | Float words of one exponent are evenly spaced, up to and including the step to the next exponent |
| Quantise.OneIsOne | sysmodule/source/nxdb/DrawDataPack.cpp:68-69 | The float word of 1.0 denotes 1.0 |
| Quantise.WordOrder | sysmodule/source/nxdb/DrawDataPack.cpp:68-69 | Float words without sign are in the order of their numbers, the infinity last |
| Quantise.NegativeClampsToZero | sysmodule/source/nxdb/DrawDataPack.cpp:68-69 | Every number with the sign bit set but -0.0 is clamped to the word 0 |
| Quantise.ClampIsMinimum | sysmodule/source/nxdb/DrawDataPack.cpp:68-69 | Without sign the clamp is the smaller of the two words |
| DrawDataPack.DrawDataPacker.PackImDrawData | sysmodule/source/nxdb/DrawDataPack.cpp:14-84 | The packer itself: the buffer holds exactly the frame bytes, header ints named one by one, the rest of it is untouched, the table is the next one, sent lists are clamped in place and the others untouched |
| DrawDataPack.PackedMeans | sysmodule/source/nxdb/DrawDataPack.cpp:38-45 | A list that is sent has its positions clamped, one that is not stays as it was; nothing else of either changes |
| DrawDataPack.DrawDataPacker.PackSlot | sysmodule/source/nxdb/DrawDataPack.cpp:34-45 | One slot: three zero counts and nothing changed when the hash matches; else the full list, and its hash remembered |
| DrawDataPack.WriteList | sysmodule/source/nxdb/DrawDataPack.cpp:47-78 | A full list is written as counts, commands, vertices, indices |
| DrawDataPack.WriteVerts | sysmodule/source/nxdb/DrawDataPack.cpp:63-75 | Each vertex is clamped in the list, and the ten bytes at place i are vertex i, clamped and packed |
| DrawDataPack.WriteCmds | sysmodule/source/nxdb/DrawDataPack.cpp:51-61 | The twelve bytes at place k are command k, packed |
| DrawDataPack.HashList | sysmodule/source/nxdb/DrawDataPack.cpp:86-92 | The hash of a list is the wrapped sum of the hashes of its three memory images |
| DrawDataUnpack.DrawDataUnpacker.UnpackDrawData | client/Source/pe/DrawData.cpp:22-116 | The unpacker itself: from a payload whose entries lie inside it, the cursor and as many lists as the header says, slot k the previous list again or, field by field, what entry k says; kept for the next call |
| DrawDataUnpack.UnpacksIffEntriesFit | client/Source/pe/DrawData.cpp:22-43 | A payload can be unpacked if and only if it has a header with a count not negative and that many entries lie inside it one after the other |
| DrawDataUnpack.EntryPositions | client/Source/pe/DrawData.cpp:41-94 | Entries follow one another from byte 16, each 12 bytes plus 12 per command, 10 per vertex and 2 per index |
| DrawDataUnpack.DrawDataUnpacker.UnpackList | client/Source/pe/DrawData.cpp:41-94 | One entry: a copy of the slot of the previous frame, or the list read in full: as many parts as the counts say, command k, vertex k and index k from their own bytes; the cursor ends behind the entry |
| Hash.ScrambleBijective | sysmodule/include/hash.h:74-76 | Odd multiply, rotate by 15, odd multiply: a bijection on words with an explicit inverse |
| Hash.MixBlockBijective | sysmodule/include/hash.h:78-80 | For a fixed block the state step is a bijection on words with an explicit inverse |
| Hash.MixBlockInjectiveInBlock | sysmodule/include/hash.h:88-94 | For a fixed state the step separates blocks |
| Hash.FinalMixBijective | sysmodule/include/hash.h:34-41 | The final mix is a bijection on words with an explicit inverse |
| Hash.OneBlockChangeIsSeen | sysmodule/include/hash.h:84-122 | Buffers that differ at most inside one aligned block, or the tail, hash alike if and only if they are equal |
| Hash.SeedsAreSeparated | sysmodule/include/hash.h:62-68 | One buffer under two seeds hashes alike if and only if the seeds are equal |
| Hash.LengthIsSeen | sysmodule/include/hash.h:119 | From one state and one tail, buffers finish alike if and only if they are equally long |
| HashVectors.MeowMeowMeow | sysmodule/include/hash.h:150 | The hash of "meow meow meow" is 0x1a1888b6 |
| HashVectors.Haiiiiiiiiiiii | sysmodule/include/hash.h:151 | The hash of "Haiiiiiiiiiiii" is 0x6726fccb |
| HashVectors.SeededThrees | sysmodule/include/hash.h:152 | The hash of ":333333333" under the seed 0xB00B1E5 is 0x4f39bed5 |
| HashVectors.NoTailMeow | sysmodule/include/hash.h:98-122 | A value without a tail |
| HashVectors.TailOfOne | sysmodule/include/hash.h:98-122 | A value with a tail of one byte |
| HashVectors.TailOfThree | sysmodule/include/hash.h:98-122 | A value with a tail of three bytes |
| Bits.XorBit | sysmodule/include/hash.h:34-41 | Bit k of an exclusive or is set if and only if it is set in exactly one of the two |
| Hash.StreamingEqualsOneShot | sysmodule/include/hash.h:70-96 | Feeding pieces cut at multiples of four, then finishing over the whole buffer, gives the one-shot hash |
| Hash.HashMurmurImpl.Feed | sysmodule/include/hash.h:70-82 | Feeding mixes in the whole blocks of the piece and drops the rest |
| Hash.HashMurmurImpl.CalculateWithCallback | sysmodule/include/hash.h:84-96 | The one-shot loop mixes in the whole blocks of the buffer |
| Hash.HashMurmurImpl.Finalize | sysmodule/include/hash.h:98-122 | The fall-through gathering of the tail, byte by byte with exclusive or, is its little-endian word |
| Hash.HashMurmur | sysmodule/include/hash.h:125-142 | The one-shot hash of a buffer |
| DrawLists.ListHashSeesOneBlock | sysmodule/source/nxdb/DrawDataPack.cpp:86-92 | Lists that differ at most inside one aligned block, or the tail, of one buffer hash alike if and only if they are the same list |
| DrawLists.IndexChangeIsSeen | sysmodule/source/nxdb/DrawDataPack.cpp:86-92 | Replacing one index changes the list hash unless the index is the same |
| DrawLists.ColourChangeIsSeen | sysmodule/source/nxdb/DrawDataPack.cpp:86-92 | Replacing the colour of one vertex changes the list hash unless the colour is the same |
| DrawLists.FrameHashSeesOneBlock | sysmodule/source/nxdb/ImGuiLoop.cpp:30-35 | The frame hash differs when one list changes inside one block |
| DrawLists.FrameHashIgnoresOrder | sysmodule/source/nxdb/ImGuiLoop.cpp:30-35 | The frame hash does not depend on the order of the lists |
| DrawLists.FrameHashAdds | sysmodule/source/nxdb/ImGuiLoop.cpp:30-35 | Frame hashes add up modulo 2^32, and the hash of a frame of one list is the hash of the list |
| DrawLists.ListHashAdds | sysmodule/source/nxdb/DrawDataPack.cpp:86-92 | The hash of a list is the sum of the three buffer hashes under the seed 0, modulo 2^32 |
| DrawLists.EmptyListHash | sysmodule/source/nxdb/DrawDataPack.cpp:38-43 | An empty list hashes to 0, as a slot that remembers nothing does |
| DrawLists.VertImageParts | sysmodule/source/nxdb/DrawDataPack.cpp:88 | The memory image of a vertex: five words, position, texture coordinate, colour |
| DrawLists.CmdImageParts | sysmodule/source/nxdb/DrawDataPack.cpp:90 | The memory image of a command: clip rectangle, texture id, offsets and count, the rest |
| ImGuiLoop.Renderer.Render | sysmodule/source/nxdb/ImGuiLoop.cpp:113-162 | The frame is packed if and only if a redraw is pending or the frame hash moved; the hash is remembered and the redraw cleared either way |
| ImGuiLoop.HashDrawData | sysmodule/source/nxdb/ImGuiLoop.cpp:30-35 | The frame hash loop |
| ImGuiLoop.LastSentHashesAlike | sysmodule/source/nxdb/ImGuiLoop.cpp:113-116 | Along any run of calls the frame last packed hashes like the frame last drawn |
| ImGuiLoop.CallSnoc | sysmodule/source/nxdb/ImGuiLoop.cpp:113-162 | One more call: whether it packs, and the frame hash, packed frames and hash table it leaves |
| ImGuiLoop.GatingShows | sysmodule/source/nxdb/ImGuiLoop.cpp:113-162 | After every call, packed or skipped, with no assumption on hashes or empty lists: a slot shows the latest frame if and only if the last packed frame has it and the list that last refreshed it looks like the latest one, or it is stale and the latest list is empty |
| ImGuiLoop.GatingShowsIff | sysmodule/source/nxdb/ImGuiLoop.cpp:113-162 | With no same-slot collision and nothing empty in the slot, whatever frames hash alike: the slot shows the latest frame if and only if it is not stale and the last packed frame looks the same there |
| ImGuiLoop.GatingKeepsCurrent | sysmodule/source/nxdb/ImGuiLoop.cpp:113-162 | If frames that hash alike are alike: a slot shows the latest frame if and only if it is not stale, and an emptied one if and only if it is stale |
| ImGuiLoop.ReorderedFrameIsSkipped | sysmodule/source/nxdb/ImGuiLoop.cpp:115-116 | A frame that only reorders its lists is never sent unless a redraw is queued |
| ImGuiLoop.ReorderedSlotIsWrong | sysmodule/source/nxdb/ImGuiLoop.cpp:115-116 | After a packed frame is reordered, no client shows a slot whose list now looks different |
| ImGuiLoop.OneBlockChangeIsSent | sysmodule/source/nxdb/ImGuiLoop.cpp:115-116 | A frame in which one list changed inside one block is always sent |
| Packets.Connection.SendWhole | sysmodule/source/net/Server.cpp:21-35 | The server sends the 8-byte header and then the payload, in two writes |
| Packets.Connection.SendChunked | client/Source/pe/Client.cpp:83-106 | The client sends the header and then pieces of 0x3000 bytes and the rest; the stream is the same as from sending whole |
| Packets.DrawDataHeader | common.h:12-24 | The header of a DrawData packet of three bytes, byte by byte |
| Packets.HeaderReadsBack | sysmodule/source/net/Server.cpp:172-173 | The length and type read from a header are those written |
| Receiver.PacketReceiver.HandleNext | sysmodule/source/net/Server.cpp:171-187 | Parse a header if none is held, handle the packet if complete, move the rest to the front |
| Receiver.PacketReceiver.HandleEvent | sysmodule/source/net/Server.cpp:170-205 | One call of the server: the buffer, the socket, the packets handled and the hang-up move as one step of the value model |
| Receiver.PacketReceiver.RunOnce | client/Source/pe/Client.cpp:164-202 | One turn of the desktop client: the same step, except that a zero from recv is ignored |
| Receiver.RecvCutsAnywhere | sysmodule/source/net/Server.cpp:189 | The network of the model may cut the stream anywhere: every nonempty prefix that fits can arrive, or nothing |
| Framing.HandledInOrder | sysmodule/source/net/Server.cpp:170-204 | For every packet list, cutting of the stream and capacity, after every call: the packets handled are a prefix of those sent, type and bytes exact, and the buffer holds exactly the bytes received after it |
| Framing.StepKeepsOrder | client/Source/pe/Client.cpp:164-202 | One call keeps that invariant, and never takes back a packet |
| Framing.TakesFront | client/Source/pe/Client.cpp:164-192 | A call handles exactly the front packet when all of it is buffered, and otherwise nothing |
| Framing.NeverStalls | sysmodule/source/net/Server.cpp:189-203 | If every packet fits the buffer with its header, recv is never called with no free space and nobody hangs up, except the server on a closed connection |
| Framing.StepProgresses | client/Source/pe/Client.cpp:169-202 | Every call that may receive a byte makes progress until all packets are handled |
| Framing.DrainsOneByOne | sysmodule/source/net/Server.cpp:176-187 | Once all bytes have arrived, each call of a receiver that has not hung up handles exactly the next packet |
| Framing.DeliveredIffFits | client/Source/pe/Client.cpp:169-202 | With enough calls that receive, on an open connection or at the desktop client on any, all packets are handled if and only if each fits the buffer with its header |
| Framing.HangsUpIffTooLong | sysmodule/source/net/Server.cpp:189-195 | With enough such calls on an open connection, the server hangs up if and only if some packet does not fit its buffer |
| Framing.CloseLosesBuffered | sysmodule/source/net/Server.cpp:189-195 | When the client has closed and all bytes are in, the server handles one more packet and hangs up: it has handled all packets if and only if at most one was left |
| Framing.ClosedDeliveredIff | sysmodule/source/net/Server.cpp:170-205 | On every run of the server on a connection the client has closed: all packets are handled if and only if some call finds it connected, with every byte in and at most one packet left |
| Framing.BurstLoses | sysmodule/source/net/Server.cpp:176-195 | Of several packets that arrive in one recv before a close only the first is handled |
| Framing.TwoEmptyPacketsLoseOne | sysmodule/source/net/Server.cpp:176-195 | A run of two calls on the 4 KB buffer that loses the second of two empty packets |
| EndToEnd.RenderToClients | sysmodule/source/nxdb/ImGuiLoop.cpp:113-162 | The frame is packed if and only if a redraw is pending or the frame hash moved; packed, it goes to every client as one DrawData packet and the table moves on; skipped, nothing is sent and the table stays |
| EndToEnd.RenderInStep | sysmodule/source/nxdb/ImGuiLoop.cpp:113-162 | An invariant of every call: if the state is the one the calls so far leave and every connection has been sent the frames packed since it was made, so it is with this call added |
| EndToEnd.SendOther | sysmodule/source/net/Server.cpp:21-35 | Packets of other kinds keep a connection in step |
| EndToEnd.ConnectInStep | sysmodule/source/net/Server.cpp:232-245 | A client that connects is in step from the next call on |
| EndToEnd.PacketsCarryRun | sysmodule/source/nxdb/ImGuiLoop.cpp:115-129 | The packets emitted to a client by any calls of render are exactly the payloads of the frames packed since it connected, in order |
| EndToEnd.ShownIsClient | client/Source/pe/Client.cpp:70-73 | Unpacking the DrawData packets handled, with others in between, is the client of the run theorems |
| EndToEnd.TransportPreservesFrames | client/Source/pe/Client.cpp:164-202 | At every moment, for every cutting of the stream, the desktop client shows what unpacking some number of the packed frames directly would show |
| EndToEnd.AllDelivered | client/Source/pe/Client.cpp:164-202 | With enough calls, open or closed, the desktop client handles every packet and shows the client of the run theorems; frames within the 512 KB buffer fit the 1 MB one |
| EndToEnd.PathShows | sysmodule/source/nxdb/ImGuiLoop.cpp:113-162 | From the calls of render to the screen: whenever the client connected, whatever was skipped, other packets in between, any cutting: the screen shows a slot of the latest frame if and only if the run of packed frames says so |
| EndToEnd.ClientShowsLatestIff | sysmodule/source/nxdb/ImGuiLoop.cpp:113-162 | Along that path, with nothing empty in the slot: it shows the latest frame if and only if it is not stale and the last packed frame looks the same there |
| EndToEnd.ClientShowsLatestIffFresh | sysmodule/source/nxdb/ImGuiLoop.cpp:113-162 | Along that path, if frames that hash alike are alike: it shows the latest frame if and only if it is not stale, and an emptied one if and only if it is stale |
| EndToEnd.ClientShowsQuantisedServerFrame | client/Source/pe/Client.cpp:164-202 | From the first frame on, with counts that never shrink and no list that hashes to 0: packed, sent, cut arbitrarily, reassembled and unpacked, the last packed frame is shown quantised in every slot |
| MemoryMap.MemoryMapMgr.MapBlocks | sysmodule/source/nxdb/MemoryMapMgr.cpp:37-100 | The walk aborts if and only if some run has no address to try with room, beside what was mapped and reserved and apart from the other runs; else one block per closed run at its address, and the kernel table and reservations extended by exactly these |
| MemoryMap.MapRun | sysmodule/source/nxdb/MemoryMapMgr.cpp:43-81 | One run succeeds if and only if there is room for its whole extent at the address tried; then all of it is reserved, and each region but the skipped types mapped at its offset |
| MemoryMap.RoomForOneMore | sysmodule/source/nxdb/MemoryMapMgr.cpp:50-54 | Room for one more run beside the blocks placed so far is room in the kernel as it was, apart from each of them |
| MemoryMap.OneRunHasRoom | sysmodule/source/nxdb/MemoryMapMgr.cpp:83-97 | A process of one run, an empty kernel and one address to try: the run has room |
| MemoryMap.SkippedKinds | sysmodule/source/nxdb/MemoryMapMgr.cpp:71-73 | Shared memory, mapped memory and thread-local regions are skipped, no others |
| MemoryMap.WindowGrows | sysmodule/source/nxdb/MemoryMapMgr.cpp:59-78 | Mapping a region adds its bytes at the right offset; a skipped one adds nothing |
| MemoryMap.Unmap | sysmodule/source/nxdb/MemoryMapMgr.cpp:21-35 | Unmapping terminates, releases exactly what is mapped up to the first hole, and every call names the original address |
| MemoryUnmap.Destroy | sysmodule/source/nxdb/MemoryMapMgr.cpp:102-105 | The destructor leaves exactly what lies beyond the first hole of each block, and no call is refused |
| MemoryUnmap.RestoredIff | sysmodule/source/nxdb/MemoryMapMgr.cpp:21-35 | Mapping and destroying restores the kernel table if and only if in every recorded run no mapped region comes after a skipped one |
| MemoryUnmap.LeftBehindHole | sysmodule/source/nxdb/MemoryMapMgr.cpp:21-35 | What stays mapped of a block is exactly what was mapped behind a byte of it that was not |
| Regions.SpansExact | sysmodule/source/nxdb/MemoryMapMgr.cpp:83-97 | The recorded runs are exactly the maximal runs of regions in use that a free region closes before the walk stops |
| Regions.SpansOrdered | sysmodule/source/nxdb/MemoryMapMgr.cpp:83-97 | They come in address order with a free region between |
| Translate.CoalescingExact | sysmodule/source/nxdb/MemoryMapMgr.cpp:43-46 | Each closed run is a block, starting at its first region and as long as its regions together, and conversely |
| Translate.BlocksSeparated | sysmodule/source/nxdb/MemoryMapMgr.cpp:88-96 | Blocks are disjoint even as closed intervals |
| Translate.GetKeepsOffset | sysmodule/source/nxdb/MemoryMapMgr.h:23-25 | Any address a block holds, its end included, is found in that block and keeps its offset |
| Translate.GetMissesIffNoBlock | sysmodule/source/nxdb/MemoryMapMgr.h:67-74 | get and findBlock miss the same addresses: those no block holds |
| Translate.GetIsSound | sysmodule/source/nxdb/MemoryMapMgr.h:48-55 | At the translated address the kernel shows exactly the byte asked for, if that byte was mapped, and otherwise nothing |
| Translate.GetInjective | sysmodule/source/nxdb/MemoryMapMgr.h:48-55 | Different addresses in blocks translate to different addresses |
| Translate.ModulesAreMapped | sysmodule/source/nxdb/windows/DebuggingSession.cpp:76-91 | A module in a closed run lies wholly in one block: its addresses translate contiguously and each shows its own byte |
| Regions.ModuleTable.FindModules | sysmodule/source/nxdb/windows/DebuggingSession.cpp:68-102 | The walk ends at the first reserved region with exactly the modules before it |
| Regions.ModulesExact | sysmodule/source/nxdb/windows/DebuggingSession.cpp:76 | What is recorded is exactly the read-execute static-code regions |
| Regions.ModulesOrdered | sysmodule/source/nxdb/windows/DebuggingSession.cpp:71-101 | They are recorded in address order, without overlap |
| Regions.ModuleKinds | sysmodule/source/nxdb/windows/DebuggingSession.cpp:76 | A module is static code, of the program or a module, with exactly the permissions to read and run |
| Components.SharedData.HandleDeadComponents | sysmodule/source/nxdb/Component.cpp:11-20 | The loop: what it leaves and what it deletes, in order |
| Components.OnePassHalvesRuns | sysmodule/source/nxdb/Component.cpp:11-20 | One pass keeps every live component in order and turns each maximal run of k dead ones into floor(k/2) |
| Components.DeletedOnce | sysmodule/source/nxdb/Component.cpp:15-18 | Every component either survives the pass or is deleted, once |
| Components.OnlyDeadDeleted | sysmodule/source/nxdb/Component.cpp:15-18 | Only dead components are deleted |
| Components.RunAlternates | sysmodule/source/nxdb/Component.cpp:11-20 | Of a whole run of dead components the first, third, ... are deleted and the second, fourth, ... stay |
| Components.LivePasses | sysmodule/source/nxdb/Component.cpp:11-20 | A live component stays, and the pass goes on behind it |
| Components.PassesNeeded | sysmodule/source/nxdb/Component.cpp:11-20 | p passes leave exactly the live components if and only if every run of dead ones is shorter than 2^p |

## Left out

- Rendering, fonts, cursors, keys, clipboard and windows: user interface and libraries that are not part of the repository.
- Connecting, reconnecting, accepting, timeouts and the server's loop over its clients: one connection at a time; other packets may come between the frames, so the font texture needs no model of its own.
- Short writes and errors of `write`, `send` and `recv` other than "would block" and "closed": the senders ignore the count, and the model lets every write take all its bytes.
- Packets.Connection.SendWhole: payloads of 2^32 bytes and more, whose length the header would cut off, are excluded by the payload type.
- Floating-point rounding, and the conversion to an integer of NaN and of values out of range, which C++ leaves undefined: the model gives some 12-bit code and claims nothing of it.
- Allocation and freeing of the client's lists: the two copies it keeps are values, so that neither can alias the other is by construction.
- The instance of the hash on `char` and the compile-time checks on string literals, which the project does not evaluate.
- Path names in `findModules`; failing queries there, which leave the region uninitialised; the check for an address that wraps around, which cannot succeed on a partition.
- Regions.ModuleTable.FindModules: requires at most 13 modules, as many as the table has places, because the walk writes past it otherwise.
- The profiler, logging, the debug-event loop and the process list.
