# Verified models of the openfpgaOS firmware core

openfpgaOS is a bare-metal game runtime for handhelds and consoles built on an FPGA.  This project models
the parts of its firmware and tools that are hardest to get right by reading, and proves what they are
meant to keep:

* `little_endian.dfy`, `phase_in.dfy`, `lzw_spec.dfy`, `lzw.dfy` - the Build-engine LZW codec: a trie in three
  tables, codes whose width depends on their value, a bit buffer filled by OR, and a reader whose dictionary
  is one step behind.  The main result is the round trip for every input.
* `gpu_ring.dfy`, `gpu_spans.dfy`, `gpu_lanes.dfy`, `gpu_emitters.dfy`, `gpu_commands.dfy` - the GPU command stream: a
  ring with a stale read pointer, two staging buffers that a DMA drains, lazy kicks, the registers that the hardware
  loads from a header, and a header cache that turns long commands into continuations.  The GPU is a peer that may
  take any step between any two actions of the driver.  Joined, they say that a finished GPU has drawn exactly what
  the fields of the requests ask for, and that fences are reached exactly when their commands are executed.
* `smp_tables.dfy`, `smp_envelope.dfy`, `smp_ownership.dfy`, `smp_voice_state.dfy`, `smp_synth.dfy`, `smp_passes.dfy`,
  `smp_voices.dfy`, `smp_note_life.dfy` - the sample-voice engine: envelopes, stealing, fading, the rule that no sounding
  hardware voice is ever without exactly one holder, and the life of a note from key down to silence.  The mixer is a
  peer whose voices may end or be taken over between any two calls.
* `smf_track.dfy`, `smf_writer.dfy`, `smf_header.dfy`, `midi_song.dfy`, `midi_player.dfy` - the MIDI player: decoding of
  whatever the format can write, and a pump that a time budget may cut after any event without losing events or time.
* `smp_bank.dfy`, `sf2_convert.dfy`, `sf2_frames.dfy` - the sample bank: the offline converter, the validator and the lookup
  agree, and a zone plays and loops the frames that were asked for.
* `iso9660.dfy`, `iso9660_layout.dfy` - the ISO 9660 directory and file reader over one shared sector buffer.
* `hid_mouse.dfy` - the mouse decoder for repeated and torn reports.
* `note_list.dfy` - the note lists that one tool prints and the other parses.
* `memtest.dfy` - the boot-time memory test as an exact detector of aliased cells and stuck bits.
* `common.dfy` - options and flattened sequences, shared by the others.

The continuation command 0x58 is implemented and advertised by no core (`axi_periph_slave.v:835-862`).  What is proved of
runs with continuations is about the contract that `of_gpu.h:480-487` states, with the registers as `gpu_core.v` loads
them; on today's cores `GpuSpans.NoContinuations` applies.

The classes carry the static state of the C files and mirror their branches.  Each of their methods is tied to a
specification function of the old state; what the source promises is proved about those functions.  Values have
the widths of the source where width matters: wrap-around of pointers, ticks, offsets, products and counters is
written out.

## Where the code does not keep a promise

* `of_gpu.h:1388` promises count[i] pixels for a lane; that holds for counts up to 4095, and more are cut to 4095, as
  `of_gpu.h:1226-1234` says of every packing site (`GpuLanes.GroupDrawsFormula`, `GpuLanes.FormulaCanFail`).
* `of_gpu.h:480-487` says that every command that overwrites the GPU's shared staging invalidates the header cache.
  The records-only triangle 0x4D does not (`of_gpu.h:1706-1741`), although its planes land in the header's registers
  (`gpu_core.v:6204-6222`); a continuation after it draws with the triangle's planes (`GpuSpans.CachePreservesMeaning`,
  `GpuSpans.CacheCanMislead`).
* `lib9660.c:446-449`: after the last byte of a sector has been read, a seek into the middle of the next sector does
  not read it, and the next read returns bytes of the old one (`Iso9660.SeekKeeps`, `Iso9660.SeekMisleads`).
* `of_midi.c:323-328` multiplies in 64 bits; a long delta at a slow tempo with a coarse division wraps
  (`SmfTrack.UsIsTight`, `SmfTrack.UsCanWrap`).
* `sf2_to_ofsf.c:1080-1089` adds up the sample data in 32 bits; at 4 GiB the offsets wrap.  The validator always
  notices (`Sf2Convert.OffsetsCanWrap`, `Sf2Convert.ConvertedIsValid`, `Sf2Convert.WrappedIsRefused`).
* `sf2_to_ofsf.c:630-634` marks an empty range with the value that also encodes the range of 255 alone
  (`Sf2Convert.IntersectIsMeet`).  No MIDI key or velocity is 255.

## Model

| member | source | states |
|---|---|---|
| Lzw.RoundTrip | src/firmware/os/hal/lzw.c:59-171 | For every input of 1 to 16384 bytes, uncompressing what was compressed returns its length and every byte, even if the tables and all bytes after the image are overwritten with anything in between. |
| Lzw.LzwCodec.Compress | src/firmware/os/hal/lzw.c:59-125 | Bad arguments give -1 and leave the output alone. Otherwise the output is the image of the input, at most 4 bytes longer than it, and nothing past the in_len+15 byte region is touched by a code. |
| Lzw.LzwCodec.Uncompress | src/firmware/os/hal/lzw.c:127-171 | From any buffer that carries some bytes, coded or raw, exactly those bytes are written and counted and nothing after them changes; bad arguments give -1. |
| Lzw.ImageCarries | src/firmware/os/hal/lzw.c:96-124 | Every image the compressor may write, coded or stored raw, is one from which the reader recovers the input. |
| Lzw.CarriesIsFunctional | src/firmware/os/hal/lzw.c:127-171 | No buffer carries two different inputs. |
| Lzw.ImageIsFunctional | src/firmware/os/hal/lzw.c:110-124 | The image is fixed to the byte: header, choice of coded or raw, codes and zero padding. |
| Lzw.LzwCodec.InitTrie | src/firmware/os/hal/lzw.c:66-68 | The three tables start as the trie of 256 roots without children, whatever they held. |
| Lzw.LzwCodec.FindChild | src/firmware/os/hal/lzw.c:82-90 | The walk over the sibling list ends on the child for the next byte, or appends the new entry to exactly that list. |
| Lzw.LzwCodec.LinkFirst | src/firmware/os/hal/lzw.c:81 | A code without children gets the new entry as its first child, and no other list changes. |
| Lzw.LzwCodec.LinkedLast | src/firmware/os/hal/lzw.c:83-87 | Hanging a new entry below the last sibling keeps every first-child and next-sibling link exact. |
| Lzw.LzwCodec.FindPhrase | src/firmware/os/hal/lzw.c:76-91 | The inner loop finds the longest descent of the trie along the input, and links the entry to come below the code it reached. |
| Lzw.LzwCodec.AddEntry | src/firmware/os/hal/lzw.c:92-94 | Recording byte and empty links completes the trie for one more entry. |
| Lzw.LzwCodec.Emit | src/firmware/os/hal/lzw.c:39-49 | OR-ing a shifted code into a zeroed buffer appends it to the bit stream and touches four bytes at most. |
| Lzw.LzwCodec.WritePhrase | src/firmware/os/hal/lzw.c:74-102 | One turn of the main loop writes the next code of the parse and restores the invariant between output, dictionary and remaining input; the entry made from the byte past the end is never used. |
| Lzw.LzwCodec.NextBit | src/firmware/os/hal/lzw.c:97-99 | The bit position moves on by the width that this code has at this dictionary size. |
| Lzw.LzwCodec.Grow | src/firmware/os/hal/lzw.c:101-102 | The width counter follows the dictionary size exactly across every growth. |
| Lzw.LzwCodec.Finish | src/firmware/os/hal/lzw.c:110-124 | Whichever branch is taken, what stands in the output is the image of the input. |
| Lzw.LzwCodec.CodedEnough | src/firmware/os/hal/lzw.c:103-112 | Stopping the parse early when the output is already too long chooses the raw copy exactly when the full stream would have been too long. |
| Lzw.LzwCodec.GuessIsRight | src/firmware/os/hal/lzw.c:163 | The byte guessed for the newest entry is its true last byte whenever that entry is the next code. |
| Lzw.LzwCodec.Unwind | src/firmware/os/hal/lzw.c:157-158 | The unwind loop ends, inside its table, with the code's string on the stack in reverse. |
| Lzw.LzwCodec.PopAll | src/firmware/os/hal/lzw.c:160-161 | Root and stack come out as the string in order; no other output byte changes. |
| Lzw.LzwCodec.ReadNext | src/firmware/os/hal/lzw.c:150-153 | The shift, mask and shorten rule returns the next code of the stream and steps to the next bit position. |
| Lzw.LzwCodec.PutString | src/firmware/os/hal/lzw.c:155-163 | One code extends the output by its string and keeps the reader's dictionary one step behind the writer's. |
| Lzw.LzwCodec.ReadCodes | src/firmware/os/hal/lzw.c:148-166 | The main loop writes what the codes stand for and nothing else. |
| Lzw.LzwCodec.PeekIsCode | src/firmware/os/hal/lzw.c:150-153 | The signed 32-bit window at any code of any stream shows that code, whatever follows the stream. |
| Lzw.LzwCodec.CopyRaw | src/firmware/os/hal/lzw.c:137-143 | A raw image is copied out to the byte. |
| LzwSpec.DecodeUndoesCodes | src/firmware/os/hal/lzw.c:74-103 | Decoding the codes assigned to an input gives back the input, with the reader's own rule for each entry's last byte. |
| LzwSpec.ParseDecodes | src/firmware/os/hal/lzw.c:74-103 | From any state of the parse the codes that follow decode to the rest of the input, including a code that was only just created. |
| LzwSpec.DecodedIsStr | src/firmware/os/hal/lzw.c:148-163 | Every entry the reader rebuilds is the writer's entry, byte for byte. |
| LzwSpec.DescendIsMaximal | src/firmware/os/hal/lzw.c:77-91 | A phrase ends only where no entry continues it: the parse is greedy. |
| LzwSpec.ParseLength | src/firmware/os/hal/lzw.c:74-103 | At most one code per input byte, so the tables never overflow. |
| PhaseIn.NumBitsTight | src/firmware/os/hal/lzw.c:101-102 | The code width is the least one, from 8 up, that holds every code. |
| PhaseIn.WidthFits | src/firmware/os/hal/lzw.c:97-99 | A shortened code lies below the half, and every code fits the bits it is given. |
| PhaseIn.PeekRecovers | src/firmware/os/hal/lzw.c:150-153 | Reading a full-width peek recovers code and width whatever bits come next. |
| PhaseIn.UniquelyDecodable | src/firmware/os/hal/lzw.c:96-108 | Two code streams of one length that agree as bit strings are equal, across every width change and whatever follows. |
| LittleEndian.OrLe32 | src/firmware/os/hal/lzw.c:47-49 | The read, OR and write back of four bytes leaves the OR of the values there and every other byte alone. |
| LittleEndian.WriteLe16 | src/firmware/os/hal/lzw.c:54-57 | The two bytes read back as the 16-bit value; every other byte is kept. |
| GpuRing.FreeIsExact | src/firmware/api/of_gpu.h:550-558 | The masked pointer difference is the exact free space for any read pointer at most 4095 words behind, however often both have wrapped. |
| GpuRing.RingIsSafe | src/firmware/api/of_gpu.h:660-691 | Words staged, in DMA, unread in the ring and reserved never exceed 4095, and the driver never believes in more space than there is. |
| GpuRing.SpaceIsRoom | src/firmware/api/of_gpu.h:705-727 | Space seen by a probe is also room in the staging buffer, so a batch that was probed for is not flushed or blocked half way. |
| GpuRing.InOrder | src/firmware/api/of_gpu.h:599-657 | What the GPU has fetched is a prefix of the commands in order, and ring and DMA hold the rest of the published ones: none lost, doubled or cut. |
| GpuRing.PeerKeepsInv | src/firmware/api/of_gpu.h:504-658 | Any DMA or fetch step at any moment keeps the whole protocol invariant and uses up work. |
| GpuRing.DmaKeepsFlow | src/firmware/api/of_gpu.h:642-647 | A DMA step neither loses nor reorders a word. |
| GpuRing.FetchKeepsFlow | src/firmware/api/of_gpu.h:550-554 | A fetch by the command processor neither loses nor reorders a word. |
| GpuRing.MaskFacts | src/firmware/api/of_gpu.h:527-542 | With at most the other buffer in flight the in-flight mask has at most one bit, and after the doorbell it tells whether that buffer is still busy. |
| GpuRing.KickIsSafe | src/firmware/api/of_gpu.h:599-650 | At every doorbell the two-entry descriptor FIFO has room although the wait is skipped, and what is handed over is the staged words, which are whole commands. |
| GpuRing.SelectIsSafe | src/firmware/api/of_gpu.h:654-657 | Going on with the other buffer is safe once its in-flight bit is clear. |
| GpuRing.IdleIsInv | src/firmware/api/of_gpu.h:512-525 | An idle DMA frees both buffers. |
| GpuRing.ReadPointer | src/firmware/api/of_gpu.h:550-554 | Looking at the read pointer keeps the invariant: it only ever shows more space. |
| GpuRing.Reserve | src/firmware/api/of_gpu.h:749-757 | Reserving believed space keeps the invariant. |
| GpuRing.DrainedIsFree | src/firmware/api/of_gpu.h:669-687 | Once the peer has drained everything published, the whole ring is free, so the wait ends. |
| GpuRing.WriteKeepsInv | src/firmware/api/of_gpu.h:762-767 | A reserved word never lands in a buffer the DMA may read and becomes the next word of the stream. |
| GpuRing.GpuStream.WaitDmaIdle | src/firmware/api/of_gpu.h:512-525 | With a working peer the wait ends and leaves nothing in flight. |
| GpuRing.GpuStream.WaitDescSlot | src/firmware/api/of_gpu.h:527-543 | A descriptor slot is free when the doorbell is rung. |
| GpuRing.GpuStream.KickStaged | src/firmware/api/of_gpu.h:640-652 | Everything staged counts as handed over and nothing else changes. |
| GpuRing.GpuStream.SelectOther | src/firmware/api/of_gpu.h:654-657 | The buffer chosen for filling is not one the DMA may read. |
| GpuRing.GpuStream.FlushCmdStream | src/firmware/api/of_gpu.h:599-658 | A flush publishes all complete commands and leaves an empty staging buffer. |
| GpuRing.GpuStream.RingFreeNow | src/firmware/api/of_gpu.h:550-554 | The space reported is that of the pointer just read. |
| GpuRing.GpuStream.CanEmit | src/firmware/api/of_gpu.h:721-727 | Yes if and only if the request is at most the ring less one word and the space is there by a fresh look at the read pointer; nothing is emitted or reserved. |
| GpuRing.GpuStream.RingEnsure | src/firmware/api/of_gpu.h:660-691 | Space that is known needs no action; otherwise everything staged is published before the wait and the wait ends with the space. |
| GpuRing.GpuStream.StreamReserveWords | src/firmware/api/of_gpu.h:749-757 | Afterwards the whole command fits buffer and ring; a caller that had probed is neither flushed nor made to wait; no words reserve nothing. |
| GpuRing.GpuStream.RingWrite | src/firmware/api/of_gpu.h:762-767 | One owed word is appended to the open command and the pointer moves on by four bytes. |
| GpuRing.GpuStream.EmitCommand | src/firmware/api/of_gpu.h:779-791 | A command is added whole, with the peer running between any two words, and known space shrinks by exactly its size. |
| GpuRing.GpuStream.SubmitCommandStreamBatch | src/firmware/api/of_gpu.h:2170-2187 | A ready-made stream is kept in one piece behind the commands before it and published at once; an empty one does nothing. |
| GpuRing.GpuStream.Fence | src/firmware/api/of_gpu.h:962-968 | A fence stages its token as one command and marks it as owing a publish. |
| GpuRing.GpuStream.FlipTo | src/firmware/api/of_gpu.h:986-993 | A flip stages buffer index and token as one command and marks it as owing a publish. |
| GpuRing.GpuStream.Kick | src/firmware/api/of_gpu.h:950-953 | After a kick every fence and flip ever staged has been published; below the threshold without one it does nothing. |
| GpuRing.GpuStream.Submit | src/firmware/api/of_gpu.h:995-999 | Everything up to and including the new fence is published. |
| GpuRing.TokenArrives | src/firmware/api/of_gpu.h:446-450 | A published token is fetched by a peer that has run dry: stage, kick and wait cannot hang. |
| GpuSpans.UnpackPack | src/firmware/api/of_gpu.h:1573-1592 | The GPU unpacks the records that were packed, counts clamped to 12 bits, odd tail included. |
| GpuSpans.DriverShiftOk | src/fpga/common/gpu_core.v:1955-1960 | Every shift word of the driver passes the hardware's check against the driver's own header. |
| GpuSpans.HeldIsHeader | src/fpga/common/gpu_core.v:6204-6222 | After records-only triangles the staged header is as it was if and only if there were none, or all had acceptable shift words and the last one the header's own planes. |
| GpuSpans.EmitPreserves | src/firmware/api/of_gpu.h:1514-1593 | One emitter call leaves the GPU with the same staging and the same draws as a driver without the cache, and draws something else exactly when a continuation finds its header touched; the cache stays coherent. |
| GpuSpans.CachePreservesMeaning | src/firmware/api/of_gpu.h:480-487 | For every run of emitters the stream with continuations draws exactly what the stream without them draws if and only if every continuation finds its header untouched by the records-only triangles since the last long form. |
| GpuSpans.CacheCanMislead | src/firmware/api/of_gpu.h:1706-1741 | A list, a records-only triangle with other planes and the list again draw something else with the cache than without. |
| GpuSpans.NoContinuations | src/firmware/api/of_gpu.h:1549-1553 | On a core that does not advertise continuations nothing can be disturbed. |
| GpuSpans.NoTriangles | src/firmware/api/of_gpu.h:480-487 | Nor in a run without records-only triangles. |
| GpuLanes.ControlFields | src/firmware/api/of_gpu.h:1539-1544 | The control word carries flags, colormap, attribute mode, axis and depth mode in fields of their own, and nothing in the format field. |
| GpuLanes.LookLoaded | src/fpga/common/gpu_core.v:1868-1873 | Whatever the flags and the colormap of a list, the loader stores just those. |
| GpuLanes.ModesLoaded | src/fpga/common/gpu_core.v:1880-1897 | The hardware draws a list exactly when its modes are ones it supports, and then in perspective, scaled, along rows and with the depth accesses that the modes ask for. |
| GpuLanes.UnsetSizes | src/fpga/common/gpu_core.v:1863-1866 | A texture mask of 0 leaves every coordinate as it is and a width of 0 counts as one texel; any other is taken as given. |
| GpuLanes.WordsLoaded | src/fpga/common/gpu_core.v:1858-1939 | Frame buffer, texture address, width and masks, the four planes, clamps and depth registers are those of the list's own fields, word by word. |
| GpuLanes.RecordAsked | src/fpga/common/gpu_core.v:7502-7560 | A record of any list the hardware supports is drawn with the address, attributes, texture, look, clamps, depth and count that the fields of the list and the record ask for. |
| GpuLanes.ListDraws | src/firmware/api/of_gpu.h:1514-1593 | The long form of any list of records draws exactly the spans its fields ask for, with counts cut to 12 bits and empty spans left out. |
| GpuLanes.RunDrawsAsked | src/firmware/api/of_gpu.h:1514-1593 | Over any run of requests, what a driver without a header cache has drawn is what the requests ask for, told from their fields alone. |
| GpuLanes.StartSurvives | src/fpga/common/gpu_core.v:1658-1659 | A negative start survives the cast to an unsigned column, because the hardware reads it as signed. |
| GpuLanes.LaneMeaning | src/firmware/api/of_gpu.h:1383-1388 | A lane is drawn as the documented formula says, address, texture, look and attributes, negative starts included, if and only if it has at most 4095 pixels. |
| GpuLanes.WireIsFormula | src/firmware/api/of_gpu.h:1436-1441 | A range of lanes on the wire equals the documented lanes if and only if every lane with pixels is exact. |
| GpuLanes.ChunksDraw | src/firmware/api/of_gpu.h:1399-1447 | The chunks of four with absolute rows draw the group's lanes, whatever the GPU held before. |
| GpuLanes.GroupDrawsFormula | src/firmware/api/of_gpu.h:1379-1448 | Cached and chunked, a group of up to eight lanes draws the documented lanes if and only if every lane with pixels has at most 4095 of them, the cached header being untouched. |
| GpuLanes.GroupUndisturbed | src/firmware/api/of_gpu.h:1399-1447 | A group leaves an untouched header untouched, so none of its continuations is disturbed. |
| GpuLanes.FormulaCanFail | src/firmware/api/of_gpu.h:1383-1388 | The documented formula fails for a group with 5000 pixels and holds for one with start -1. |
| GpuEmitters.SpanEmitter.PackRecords | src/firmware/api/of_gpu.h:1573-1591 | Pairs of records and an odd tail become the words that the GPU unpacks. |
| GpuEmitters.SpanEmitter.SameHeader | src/firmware/api/of_gpu.h:1549-1553 | The comparison decides equality of all 29 surface words. |
| GpuEmitters.SpanEmitter.Remember | src/firmware/api/of_gpu.h:1568-1569 | The cache holds the words just sent. |
| GpuEmitters.SpanEmitter.EmitParamSpanList | src/firmware/api/of_gpu.h:1514-1593 | The emitter sends and remembers what the cache specification says: drop, continuation or long form. |
| GpuEmitters.SpanEmitter.EmitCompact | src/firmware/api/of_gpu.h:1272-1275 | Emitters that overwrite the GPU's staging forget the cached header. |
| GpuEmitters.SpanEmitter.EmitPlain | src/firmware/api/of_gpu.h:1706-1741 | Every other command is sent on, the records-only triangle among them, and the cached header stays. |
| GpuEmitters.SpanEmitter.EmitStream | src/firmware/api/of_gpu.h:2170-2187 | A foreign stream is passed through and the cached header is forgotten; an empty one does nothing. |
| GpuEmitters.SpanEmitter.DrawPerspSpanGroup | src/firmware/api/of_gpu.h:1389-1448 | The group is sent as its chunks in order, chunks without pixels left out. |
| GpuCommands.TookWords | src/fpga/common/gpu_core.v:5487-5507 | The command processor reads back from the words of any commands exactly those commands: opcode from the top byte, length from the low 13 bits, then the payload. |
| GpuCommands.CutAnywhere | src/fpga/common/gpu_core.v:5779-5808 | Of a word stream cut off anywhere exactly the commands that are complete have been executed to their end, and the reader stands before or within the next one. |
| GpuCommands.CarriesAll | src/firmware/api/of_gpu.h:788-791 | The staged words are the words of the commands sent, one after the other. |
| GpuCommands.Executed | src/firmware/api/of_gpu.h:599-658 | Whatever DMA and GPU have done so far, the commands executed to their end are the first ones sent, as many as the words fetched allow, and all that were published once the peer has run dry. |
| GpuCommands.UnderwayIsPart | src/fpga/common/gpu_core.v:6243-6252 | What has been drawn of a list whose payload still arrives, four records at a time, is a beginning of what the list draws. |
| GpuCommands.DrawsPart | src/fpga/common/gpu_core.v:6235-6257 | Wherever the stream is cut, the records drawn so far are a beginning of what it draws. |
| GpuCommands.DrawsWhatWasAsked | src/firmware/api/of_gpu.h:1514-1593 | At any moment the GPU has drawn a beginning, record for record, of what was sent, and of what the requests draw on a driver without a header cache as long as every continuation finds its header untouched. |
| GpuCommands.DrainedDraws | src/firmware/api/of_gpu.h:1514-1593 | Drained, it has drawn exactly that if and only if every continuation found its header untouched. |
| GpuCommands.RegisterCounts | src/fpga/common/gpu_core.v:6274-6295 | The fence register, moved by every fence or flip whatever its payload, counts the tokens published, modulo 2^32. |
| GpuCommands.FewOutstanding | src/firmware/api/of_gpu.h:660-691 | At most 4096 commands are sent and not yet executed. |
| GpuCommands.FenceIsExact | src/firmware/api/of_gpu.h:1001-1003 | With that few outstanding, a token counts as reached if and only if its command, and so every command before it, has been executed and the tokens published since, modulo 2^32, are fewer than 2^31. |
| GpuCommands.WaitEnds | src/firmware/api/of_gpu.h:1005-1027 | As long as the register does not show a published recent token, the peer still has something to do. |
| GpuCommands.SpanListSendable | src/firmware/api/of_gpu.h:1514-1593 | Every command of the span list emitter fits the staging buffer. |
| GpuCommands.Gpu.Send | src/firmware/api/of_gpu.h:779-791 | The words of one command go out as a whole and the ring still carries exactly the commands sent. |
| GpuCommands.Gpu.Push | src/firmware/api/of_gpu.h:788-791 | The commands an emitter made go out in order. |
| GpuCommands.Gpu.SendStream | src/firmware/api/of_gpu.h:2170-2187 | A ready-made stream of commands goes out in one piece. |
| GpuCommands.Gpu.Do | src/firmware/api/of_gpu.h:1514-1593 | Any span list, compact, plain or stream request keeps the account: ring words, commands, tokens and header cache all agree with the requests made. |
| GpuCommands.Gpu.DrawGroup | src/firmware/api/of_gpu.h:1389-1448 | So does a perspective group. |
| GpuCommands.Gpu.Fence | src/firmware/api/of_gpu.h:962-968 | The fence is the next command, with the next token, and owes a publish. |
| GpuCommands.Gpu.FlipTo | src/firmware/api/of_gpu.h:986-993 | The flip is the next command, with the buffer index modulo 4 and the next token, and owes a publish. |
| GpuCommands.Gpu.Kick | src/firmware/api/of_gpu.h:950-953 | Every token asked for is on its way. |
| GpuCommands.Gpu.Wait | src/firmware/api/of_gpu.h:1005-1027 | The wait for a token on its way ends, and only after its command and all before it have been executed. |
| GpuCommands.Gpu.Finish | src/firmware/api/of_gpu.h:1029-1031 | When it returns every command has been executed, whatever the timing of DMA and GPU, and the GPU has drawn exactly what all requests so far ask for if every continuation found its header untouched, and what they draw on a driver without a header cache only then. |
| SmpTables.FoldIsFloor | src/firmware/api/of_smp_tables.c:198-205 | Folding is floor division by 1200, for negative cents too. |
| SmpTables.TicksMonotone | src/firmware/api/of_smp_tables.c:207-233 | Longer times never get fewer ticks over the whole 16-bit range, and none exceeds 110000. |
| SmpTables.TicksInOctave | src/firmware/api/of_smp_tables.c:207-233 | Times of one octave are exactly the table's entries, scaled by the power of two of the octave. |
| SmpTables.OctaveHalves | src/firmware/api/of_smp_tables.c:207-233 | 1200 timecents less halve the ticks below the cap. |
| SmpTables.NoTimeAndCap | src/firmware/api/of_smp_tables.c:207-233 | Below the first cut-off there is no time, above the second 110000 ticks. |
| SmpTables.OctaveDoubles | src/firmware/api/of_smp_tables.c:238-247 | 1200 cents more double the multiplier, as long as the result fits 32 bits. |
| SmpTables.MultiplierIsTable | src/firmware/api/of_smp_tables.c:238-247 | Within an octave the multiplier is the table's entry, scaled by the octave. |
| SmpTables.DoublingOverflows | src/firmware/api/of_smp_tables.c:238-247 | In the sixteenth octave the doubling does fail: the bound is exact. |
| SmpTables.LevelNonIncreasing | src/firmware/api/of_smp_tables.c:259-283 | More attenuation is never louder, across octave seams and both clamps, within 0..0x10000. |
| SmpTables.LevelIsReciprocal | src/firmware/api/of_smp_tables.c:259-283 | Within the first octave the level is the reciprocal of the table's entry, and every octave halves it. |
| SmpTables.FullAndSilent | src/firmware/api/of_smp_tables.c:259-283 | No attenuation is full level, and from 960 centibels on there is silence. |
| SmpTables.CentibelsHalve | src/firmware/api/of_smp_tables.c:259-283 | 361 to 362 centibels more halve the level. |
| SmpEnvelope.OkSteps | src/firmware/api/of_smp_voice.c:272-366 | Levels stay within 0..0x10000 and every stage keeps its own bounds, through ticks and releases. |
| SmpEnvelope.TowardSustain | src/firmware/api/of_smp_voice.c:291-345 | Every tick brings an envelope in an early stage closer to sustain. |
| SmpEnvelope.TowardDone | src/firmware/api/of_smp_voice.c:346-352 | Every tick of a release brings it closer to its end. |
| SmpEnvelope.ReleaseBound | src/firmware/api/of_smp_voice.c:355-366 | A release from any level gets a rate that moves and at most twice its ticks. |
| SmpEnvelope.BakedIsWellFormed | tools/sf2_to_ofsf.c:982-1026 | Whatever the SoundFont says, the baked rates move and levels and times are in range. |
| SmpEnvelope.AttackLasts | src/firmware/api/of_smp_voice.c:307-319 | An attack stays below full level for a known number of ticks and is full right after. |
| SmpEnvelope.DelayLasts | src/firmware/api/of_smp_voice.c:298-305 | A delay is silent and lasts exactly its ticks. |
| SmpEnvelope.HoldLasts | src/firmware/api/of_smp_voice.c:322-331 | A hold stays at full level for exactly its ticks and then decays to the sustain level. |
| SmpEnvelope.DecayLasts | src/firmware/api/of_smp_voice.c:333-340 | A decay falls by its rate every tick, stays above the sustain level for exactly the ticks computed, and ends at exactly that level. |
| SmpEnvelope.SustainStays | src/firmware/api/of_smp_voice.c:342-343 | A sustained envelope stays as it is for as long as it is left alone. |
| SmpEnvelope.Shape | src/firmware/api/of_smp_voice.c:272-343 | The whole of an envelope that is left alone, stage and level at every tick: silence, the rise, full level, the fall, and the sustain level for good. |
| SmpEnvelope.ReleaseRuns | src/firmware/api/of_smp_voice.c:345-351 | A release falls by its rate every tick until the floor, and then is silent. |
| SmpEnvelope.ReleaseSlope | src/firmware/api/of_smp_voice.c:355-366 | A release starts from the level there is, with the slope that its time and that level give. |
| SmpEnvelope.BakedPlays | tools/sf2_to_ofsf.c:982-1026 | An envelope baked from the SoundFont's times plays by them: delay and hold to the tick, attack and decay within once and twice their time, at the sustain level asked for. |
| SmpEnvelope.AttackTiming | tools/sf2_to_ofsf.c:993-999 | After the delay, an attack baked for t ticks reaches full level after d ticks with t <= d <= 2t, and not before. |
| SmpEnvelope.ReleaseTiming | src/firmware/api/of_smp_voice.c:346-352 | A release left alone is over once its computed steps have passed. |
| SmpEnvelope.ReleaseEndsInTime | src/firmware/api/of_smp_voice.c:355-366 | A release of r ticks that is not restarted is done after 2r ticks. |
| SmpOwnership.ExactlyOneHolder | src/firmware/api/of_smp_voice.c:401-415 | Every sounding music voice has exactly one holder among slots and reclaim entries. |
| SmpOwnership.FadesKeeps | src/firmware/api/of_smp_voice.c:948-965 | Voices that end or are taken over by other groups keep the ownership invariant. |
| SmpOwnership.StartKeeps | src/firmware/api/of_smp_voice.c:856-868 | A newly granted voice, even on a taken-over slot, has one holder. |
| SmpOwnership.EntryAvailable | src/firmware/api/of_smp_voice.c:470-484 | A slot that still sounds leaves one of the 32 reclaim entries without a sounding voice. |
| SmpOwnership.DistinctSlots | src/firmware/api/of_smp_voice.c:401-415 | Handles of sounding voices held in different places name different mixer voices. |
| SmpSynth.LetGo | src/firmware/api/of_smp_voice.c:417-431 | Letting go and stopping leaves the mixer as it was less exactly what nobody holds any more. |
| SmpSynth.Retire | src/firmware/api/of_smp_voice.c:467-487 | Handing a sounding voice to a reclaim entry keeps every sounding voice with one holder. |
| SmpSynth.OwnEntryIsSpare | src/firmware/api/of_smp_voice.c:479-487 | With a known index the entry of that index holds at most a stale handle. |
| SmpSynth.SomeEntryIsSpare | src/firmware/api/of_smp_voice.c:472-478 | With an unknown index the search finds an entry that may be overwritten. |
| SmpSynth.Begin | src/firmware/api/of_smp_voice.c:856-870 | Starting a note in a free slot keeps the ownership invariant. |
| SmpSynth.NothingHeldNothingSounds | src/firmware/api/of_smp_voice.c:1201-1216 | With every slot free and no entry pending no music voice sounds. |
| SmpSynth.ForceOffKeeps | src/firmware/api/of_smp_voice.c:564-583 | Starting a fade, or dropping a stale slot, keeps ownership and stops nothing that is held. |
| SmpSynth.TickKeeps | src/firmware/api/of_smp_voice.c:970-1058 | The tick's body for one voice keeps ownership and stops exactly what it lets go of. |
| SmpVoiceState.RemainingBound | src/firmware/api/of_smp_voice.c:564-608 | The ticks a voice has left are at most delay, attack, hold, decay, sustain cap, release and fade. |
| SmpVoiceState.PlayedProgress | src/firmware/api/of_smp_voice.c:998-1045 | With nobody playing a tick either finishes a voice or leaves it with less time, never in the finished stage. |
| SmpVoiceState.FadingProgress | src/firmware/api/of_smp_voice.c:564-608 | A fade lasts two ticks and loses one at every tick. |
| SmpVoiceState.ReleasedOk | src/firmware/api/of_smp_voice.c:941-944 | A release leaves a voice in order. |
| SmpVoiceState.FreshOk | src/firmware/api/of_smp_voice.c:896-905 | A new voice, its envelope one tick in, is in order. |
| SmpVoiceState.TicksCoverSample | src/firmware/api/of_smp_voice.c:883-901 | A one-shot is tracked for the ticks its sample takes at its rate and a fifth more, to the tick; loops and empty samples are not tracked. |
| SmpPasses.SweepKeeps | src/firmware/api/of_smp_voice.c:585-608 | The scan frees exactly the voices whose fade is over and keeps ownership. |
| SmpPasses.SkippedSweep | src/firmware/api/of_smp_voice.c:585-588 | Skipping the scan when the pending count is 0 agrees with the full scan. |
| SmpPasses.AgeKeeps | src/firmware/api/of_smp_voice.c:433-447 | Every entry is counted down or, when its time is up or at once, stopped, and no other. |
| SmpPasses.ForceKeeps | src/firmware/api/of_smp_voice.c:614-625 | Exactly the playing voices that are singled out fade or are dropped; the rest stay as they are. |
| SmpPasses.PlayKeeps | src/firmware/api/of_smp_voice.c:970-1089 | The loop treats every voice on its own, by whether its hardware still sounds. |
| SmpPasses.TickPass | src/firmware/api/of_smp_voice.c:948-1089 | A tick stops exactly what nobody holds any more and treats each voice and each entry on its own. |
| SmpPasses.TickIsProgress | src/firmware/api/of_smp_voice.c:948-1089 | With nobody playing, every slot and every entry is one tick closer to being free. |
| SmpPasses.Silence | src/firmware/api/of_smp_voice.c:948-1089 | After enough ticks every slot is free, no entry is pending and no music voice sounds. |
| SmpPasses.GentlePass | src/firmware/api/of_smp_voice.c:930-946 | Note-off and pedal change envelopes only: slots, handles and pending counts stay. |
| SmpVoices.NoChoiceMeansAllFade | src/firmware/api/of_smp_voice.c:493-553 | Allocation comes back empty-handed if and only if all slots are fading. |
| SmpVoices.VoiceEngine.constructor | src/firmware/api/of_smp_voice.c:751-780 | The engine starts with every slot free and the invariant established. |
| SmpVoices.VoiceEngine.MixerMoves | src/firmware/api/of_smp_voice.c:948-965 | The invariant survives anything the mixer may do between two calls. |
| SmpVoices.VoiceEngine.DropIfStale | src/firmware/api/of_smp_voice.c:423-431 | A slot is dropped exactly when its handle no longer names a sounding music voice. |
| SmpVoices.VoiceEngine.ForceOff | src/firmware/api/of_smp_voice.c:564-583 | The voice fades or is dropped, the pending count stays exact. |
| SmpVoices.VoiceEngine.CleanupStolen | src/firmware/api/of_smp_voice.c:585-608 | The cleanup, skipped or not, is the full scan, and the recount is exact. |
| SmpVoices.VoiceEngine.CleanupReclaimed | src/firmware/api/of_smp_voice.c:433-447 | The entries are counted down or stopped as the pass over all of them says. |
| SmpVoices.VoiceEngine.Reclaim | src/firmware/api/of_smp_voice.c:454-491 | The stolen slot is free at once and its sounding voice waits in its own or the first spare entry. |
| SmpVoices.VoiceEngine.FindEntry | src/firmware/api/of_smp_voice.c:473-478 | The search ends on the first entry that may be overwritten. |
| SmpVoices.VoiceEngine.FindDone | src/firmware/api/of_smp_voice.c:500-515 | The pass for finished voices never finds one between ticks. |
| SmpVoices.VoiceEngine.FindQuietest | src/firmware/api/of_smp_voice.c:524-548 | The pick is the first of the quietest candidates, or none if there is none. |
| SmpVoices.VoiceEngine.VoiceAlloc | src/firmware/api/of_smp_voice.c:493-553 | First free slot, else quietest release, else quietest voice; the slot is freed without leaking its hardware voice. |
| SmpVoices.VoiceEngine.KillExclusiveClass | src/firmware/api/of_smp_voice.c:614-625 | Exactly the playing voices of the channel and class are forced off; class 0 does nothing. |
| SmpVoices.VoiceEngine.RetriggerRelease | src/firmware/api/of_smp_voice.c:800-811 | Exactly the voices of the same channel and note are released. |
| SmpVoices.VoiceEngine.NoteOn | src/firmware/api/of_smp_voice.c:782-928 | The whole new state: who makes way, which slot is taken, the fresh voice and its handle; a refusal leaves a free slot and nothing leaked. |
| SmpVoices.VoiceEngine.Start | src/firmware/api/of_smp_voice.c:818-915 | The granted hardware voice goes to the free slot with its cached index and a fresh envelope. |
| SmpVoices.VoiceEngine.NoteOff | src/firmware/api/of_smp_voice.c:930-946 | Matching voices are held by the pedal or released; all others are untouched. |
| SmpVoices.VoiceEngine.UpdateSustain | src/firmware/api/of_smp_voice.c:1148-1164 | Letting the pedal up releases exactly the held voices of the channel; a bad channel does nothing. |
| SmpVoices.VoiceEngine.AllOff | src/firmware/api/of_smp_voice.c:1189-1199 | Every playing voice of the channel starts its fade. |
| SmpVoices.VoiceEngine.AllOffGlobal | src/firmware/api/of_smp_voice.c:1201-1216 | All slots and entries are free and no music voice sounds, fading ones included. |
| SmpVoices.VoiceEngine.TickVoice | src/firmware/api/of_smp_voice.c:970-1058 | One turn of the tick's loop. |
| SmpVoices.VoiceEngine.Tick | src/firmware/api/of_smp_voice.c:948-1105 | The new state is the whole pass over the old one, every slot and entry is a tick closer to being free, and the invariant holds again. |
| SmpVoices.VoiceEngine.TicksOnly | src/firmware/api/of_smp_voice.c:948-1105 | With only ticks, and the mixer free to move before each, everything is silent and free within the voices' remaining time. |
| SmpNoteLife.HeldNote | src/firmware/api/of_smp_voice.c:970-1045 | A key held down plays both of its zone's envelopes tick for tick, and nothing else of its voice changes, up to the end of its sample or the sustain cap. |
| SmpNoteLife.HeldNoteSounds | src/firmware/api/of_smp_voice.c:970-1045 | So at every tick its level is that of the delay, rise, hold, fall or sustain it is in. |
| SmpNoteLife.TrackedNoteEnds | src/firmware/api/of_smp_voice.c:997-1002 | A tracked sample's note stops exactly when its ticks are over, with the key still down. |
| SmpNoteLife.HeldNoteIsLetGo | src/firmware/api/of_smp_voice.c:1034-1038 | Any other note is let go at exactly the sustain cap, from the sustain level. |
| SmpNoteLife.ReleasedNote | src/firmware/api/of_smp_voice.c:941-944 | A voice that was let go runs down both envelopes from where they stood. |
| SmpNoteLife.ReleasedNoteSounds | src/firmware/api/of_smp_voice.c:941-944 | Its level falls in a straight line of the release time's slope, and it stops playing exactly when that line is at the floor. |
| SmpNoteLife.PedalHolds | src/firmware/api/of_smp_voice.c:939-940 | A note let go under the pedal sounds on, tick for tick, as if its key were down. |
| SmpNoteLife.PedalReleases | src/firmware/api/of_smp_voice.c:1148-1164 | The pedal coming up lets go exactly the notes whose keys came up, as their keys would have; other notes and other channels play on. |
| SmpNoteLife.OtherKeysPlayOn | src/firmware/api/of_smp_voice.c:930-946 | A note-off lets go or holds its own key's voice and no other. |
| SmpNoteLife.StruckAgain | src/firmware/api/of_smp_voice.c:788-810 | A new note forces off exactly the voices of its channel and class, lets go the same key's older voice except on the drum channel, and leaves the rest alone. |
| SmfTrack.VarFits | src/firmware/api/of_midi.c:96-105 | A variable-length number has at most 28 bits. |
| SmfTrack.VarRoundTrip | src/firmware/api/of_midi.c:96-105 | Every number below 2^28, written in groups of seven bits, is read back with the cursor right behind it. |
| SmfTrack.StepProgress | src/firmware/api/of_midi.c:224-316 | Cursors stay inside the track and every event moves on or ends the track; at most one event comes of it. |
| SmfTrack.Dispatches | src/firmware/api/of_midi.c:224-330 | Dispatching takes exactly one beat off the front of what the track still has to say. |
| SmfTrack.UsIsTight | src/firmware/api/of_midi.c:111-121 | A converted delta never exceeds the exact time and falls short of it by less than 1 + delta/65536 us if and only if the 64-bit product does not wrap. |
| SmfTrack.UsCanWrap | src/firmware/api/of_midi.c:323-328 | A delta, tempo and division for which it does wrap. |
| SmfTrack.LogIsPrefix | src/firmware/api/of_midi.c:459-552 | What a track has dispatched is an exact prefix of its decoded events, and all of them exactly when it is done. |
| SmfTrack.DispatchKeeps | src/firmware/api/of_midi.c:527-530 | Dispatching an event that is due keeps pending equal to the next due time less the clock. |
| SmfTrack.ClockKeeps | src/firmware/api/of_midi.c:511-521 | Advancing clock and countdown together keeps it too. |
| SmfTrack.StartKeeps | src/firmware/api/of_midi.c:379-387 | It holds when a track starts. |
| SmfTrack.Low16IsOr | src/firmware/api/of_midi.c:296-303 | The two data bytes of a pitch bend are joined by a bitwise OR, stray top bits included. |
| SmfWriter.ChannelReads | src/firmware/api/of_midi.c:271-313 | Every channel message as the format writes it is read as what it means, a note-on of velocity 0 as a note-off, and the cursor stands behind it. |
| SmfWriter.SystemReads | src/firmware/api/of_midi.c:245-269 | So are tempo, end of track, other meta events and system exclusive messages of any length. |
| SmfWriter.EntryReads | src/firmware/api/of_midi.c:224-316 | Any message, wherever it stands, with its status byte or by running status, gives its one event and leaves the cursor right behind it. |
| SmfWriter.EntriesRead | src/firmware/api/of_midi.c:224-330 | From any entry on, the reader says the deltas and events written there and no others. |
| SmfWriter.TrackReads | src/firmware/api/of_midi.c:224-330 | For every list of timed messages the script of its bytes is exactly those beats, in order, whatever follows the end of the track. |
| SmfHeader.ParseHeader | src/firmware/api/of_midi.c:334-377 | Every refusal in its order, else the tracks found by the walk over the chunks. |
| SmfHeader.FindTracks | src/firmware/api/of_midi.c:354-372 | The chunk loop is the walk: it skips other chunks and refuses one that runs over the end. |
| SmfHeader.WalkReads | src/firmware/api/of_midi.c:354-372 | The walk reads back the tracks of any chunk list as they were written, ignoring up to seven stray bytes. |
| SmfHeader.ParseReads | src/firmware/api/of_midi.c:334-377 | Every well-formed file yields its first tracks, up to the number it names and to 32, with exactly their bytes; one that names more tracks than it has is refused. |
| MidiSong.CaughtUp | src/firmware/api/of_midi.c:523-539 | A track has nothing due if and only if it is over or has said exactly the beats that were due by the clock, none of them early. |
| MidiSong.DispatchedKeepsTime | src/firmware/api/of_midi.c:527-530 | One dispatched event keeps the song-clock invariant and extends the track's record by the next beat. |
| MidiSong.SentIsPrefix | src/firmware/api/of_midi.c:459-552 | The events sent of each track are an exact prefix of the events its bytes spell, none lost, repeated or made up, and all of them when it is done. |
| MidiSong.DispatchAtOk | src/firmware/api/of_midi.c:526-530 | Sending the next event of one track keeps the account of what was sent for every track. |
| MidiSong.TurnsCount | src/firmware/api/of_midi.c:523-539 | n turns of the dispatch loop send exactly n beats, and what was sent before stays. |
| MidiSong.AdvancedOk | src/firmware/api/of_midi.c:507-521 | Time moves all live tracks and the clock together. |
| MidiSong.OpenedOk | src/firmware/api/of_midi.c:379-387 | The account starts right: every track at its first event, nothing sent, clock 0. |
| MidiSong.AfterSnoc | src/firmware/api/of_midi.c:459-552 | Runs can be taken one call at a time. |
| MidiSong.ClockIsRealTime | src/firmware/api/of_midi.c:459-471 | While a song plays and is pumped at least twice a second, its clock is the real time that has passed, however the 32-bit timer wraps and wherever pumps are cut. |
| MidiSong.PumpIsRealTime | src/firmware/api/of_midi.c:459-471 | One such pump advances the clock by the real time since the last. |
| MidiSong.TimerGap | src/firmware/api/of_midi.c:467-469 | The 32-bit timer difference is the real one below 2^32 microseconds. |
| MidiPlayer.ReadNumber | src/firmware/api/of_midi.c:96-105 | The loop computes the variable-length number and moves only the cursor. |
| MidiPlayer.Need | src/firmware/api/of_midi.c:219-222 | The bounds check ends the track exactly when the bytes are not there. |
| MidiPlayer.Player.Send | src/firmware/api/of_midi.c:224-316 | A call into the voice engine is recorded with its track, behind all earlier ones. |
| MidiPlayer.Player.ProcessEvent | src/firmware/api/of_midi.c:224-316 | The branches send the event that the bytes spell and leave cursor, running status and tempo accordingly. |
| MidiPlayer.Player.MetaEvent | src/firmware/api/of_midi.c:245-262 | Tempo and end of track take effect, other meta events are skipped by their length. |
| MidiPlayer.Player.SysExEvent | src/firmware/api/of_midi.c:263-269 | System exclusive data is skipped by its length. |
| MidiPlayer.Player.VoiceEvent | src/firmware/api/of_midi.c:271-313 | Channel messages send their event with their data bytes. |
| MidiPlayer.Player.ReadNextDelta | src/firmware/api/of_midi.c:318-328 | The countdown grows by the converted delta, or the track is done at its end. |
| MidiPlayer.Player.DispatchOne | src/firmware/api/of_midi.c:526-530 | The next event of one track is sent and its next delta read at the tempo in force after it; other tracks and what was sent are untouched. |
| MidiPlayer.Player.DispatchDue | src/firmware/api/of_midi.c:523-539 | The new state is that after some number of turns, each the first track with something due; uncut, nothing is left due, and a cut comes only after at least one event. |
| MidiPlayer.Player.AdvanceClocks | src/firmware/api/of_midi.c:507-521 | All live countdowns and the one song clock move by the time that passed, and nothing else changes; it tells whether any track is live. |
| MidiPlayer.Player.FireTicks | src/firmware/api/of_midi.c:492-508 | Elapsed time is ticks fired plus what is carried, unless a budget cut the loop, which takes at least one tick. |
| MidiPlayer.Player.Restart | src/firmware/api/of_midi.c:379-387 | All tracks stand at their first event with the default tempo and the clock at 0. |
| MidiPlayer.Player.Play | src/firmware/api/of_midi.c:413-437 | A player that plays refuses and changes nothing; a file that parses starts playing with all its tracks at their first event, clock 0 and nothing sent; any other leaves the player stopped. |
| MidiPlayer.Player.StartSong | src/firmware/api/of_midi.c:426-437 | The whole state at the start: all tracks of a parsed file at their first event, on one clock at 0. |
| MidiPlayer.Player.Resume | src/firmware/api/of_midi.c:452-457 | Time that passed while paused is not made up for. |
| MidiPlayer.Player.Run | src/firmware/api/of_midi.c:448-552 | After any sequence of pumps, pauses and resumes, each pump cut anywhere, the state is the one that the calls, times and event counts determine; every track has sent an exact prefix of its events. |
| MidiPlayer.Player.RunFor | src/firmware/api/of_midi.c:492-539 | The time that passed first reaches every live track, then the due events are sent, cut or not. |
| MidiPlayer.Player.Pump | src/firmware/api/of_midi.c:459-552 | The whole new state, given how many events the budget let through: nothing while stopped or paused, else the time since the last pump, at most half a second, then due events in order; a finished song stops or starts over. |
| MidiPlayer.Player.Pause | src/firmware/api/of_midi.c:448-450 | Pausing changes nothing but that no pump lets time through. |
| SmpBank.Validate | src/firmware/api/of_smp_bank_validate.h:7-45 | The validator accepts exactly the banks whose header, presets and zones all lie inside the file. |
| SmpBank.ValidStaysInside | src/firmware/api/of_smp_bank_validate.h:35-43 | In an accepted bank every sample and every loop, forward or ping-pong, lies inside the file, behind the metadata. |
| SmpBank.Lookup | src/firmware/api/of_smp_bank.c:102-136 | The first matching zones of the slot, in order, as many as there is room for; none without a bound bank or for a bad program. |
| SmpBank.Scan | src/firmware/api/of_smp_bank.c:124-135 | The loop over a preset returns the first matches of its stretch and stops at the end of the bank. |
| Sf2Convert.IntersectIsMeet | tools/sf2_to_ofsf.c:620-634 | The intersection holds what both ranges hold; it is marked empty if and only if no value below 255 is in both. |
| Sf2Convert.FinalRangeIsMeet | tools/sf2_to_ofsf.c:722-741 | A resolved zone sounds for a key if and only if it was kept and every range it came with allows the key. |
| Sf2Convert.CompareIsOrder | tools/sf2_to_ofsf.c:942-960 | The comparator is antisymmetric and transitive, as a sort needs. |
| Sf2Convert.CompareIsLexical | tools/sf2_to_ofsf.c:942-960 | Zones come by slot, then by low key, then by low velocity. |
| Sf2Convert.ClampedIsInside | tools/sf2_to_ofsf.c:1060-1076 | The clamped sample is never empty and lies inside the data; a request that is inside is kept as it is. |
| Sf2Convert.SampleDedup | tools/sf2_to_ofsf.c:918-935 | The table never holds a sample twice and grows only by a sample it lacks. |
| Sf2Convert.CollectSamples | tools/sf2_to_ofsf.c:1053-1078 | The table holds the sample of every zone and nothing else. |
| Sf2Convert.Layout | tools/sf2_to_ofsf.c:1080-1089 | Every offset and the blob size are the padded sums, modulo 2^32. |
| Sf2Convert.ExtentsAreDisjoint | tools/sf2_to_ofsf.c:1080-1089 | Different samples get extents on four-byte boundaries that do not overlap. |
| Sf2Convert.BuildIndex | tools/sf2_to_ofsf.c:1107-1126 | Every preset points at exactly the zones of its slot. |
| Sf2Convert.LoopPointsInside | tools/sf2_to_ofsf.c:1150-1177 | Loop points are never empty and never past the sample; ones inside the sample are kept. |
| Sf2Convert.WriteZones | tools/sf2_to_ofsf.c:1128-1186 | Every zone is written with its ranges, its sample's extent, its loop and its loop mode. |
| Sf2Convert.PickRate | tools/sf2_to_ofsf.c:1099-1105 | The option wins, else the first zone's rate unless it is 0, else 44100; never 0. |
| Sf2Convert.Convert | tools/sf2_to_ofsf.c:1039-1177 | Sample table, layout, index and zones belong together as the bank format requires. |
| Sf2Frames.ZoneSays | tools/sf2_to_ofsf.c:1139-1186 | Every zone of the bank has its generators' ranges, loops forward if and only if the low two bits of its sample modes are 1 or 3 and not at all for 0 and 2, and its lengths and loop points are those of the frames named. |
| Sf2Frames.AskedIsNamed | tools/sf2_to_ofsf.c:1060-1177 | Header and generators that name frames which are there get just those, loop included. |
| Sf2Frames.WriteSamples | tools/sf2_to_ofsf.c:1351-1384 | The written sample data holds every sample of the table at its offset, padded to four bytes. |
| Sf2Frames.ZonePlays | tools/sf2_to_ofsf.c:1351-1384 | For every zone, the frames of its extent in the written data are the frames its header and generators name, and the frames from loop start to loop end are the loop they name. |
| Sf2Convert.NothingOverruns | tools/sf2_to_ofsf.c:1356-1372 | The bounds check on the way out never shortens a sample. |
| Sf2Convert.ConvertedIsValid | tools/sf2_to_ofsf.c:1039-1177 | The validator accepts what the converter writes if and only if there is a zone, no sample is longer than 0x3fffff and the file is smaller than 4 GiB. |
| Sf2Convert.WrappedIsRefused | tools/sf2_to_ofsf.c:1080-1089 | When the sample data reaches 4 GiB and offsets wrap, the sample at the seam makes the validator refuse the bank. |
| Sf2Convert.OffsetsCanWrap | tools/sf2_to_ofsf.c:1080-1089 | A source, every sample short enough, whose sample data takes exactly 4 GiB. |
| Sf2Convert.SearchCounts | src/firmware/api/of_smp_bank.c:124-135 | A zone is found as often as it stands in the list, if it matches. |
| Sf2Convert.LookupIsSearch | src/firmware/api/of_smp_bank.c:102-136 | For any converted list and any note the lookup returns exactly what a plain search of the unsorted list finds, each zone as often as it stands there. |
| Iso9660.Reader.Buffer | src/firmware/lib/iso9660/lib9660.c:279-288 | The buffer holds the sector of the position, and its owner is known. |
| Iso9660.Reader.Prebuffer | src/firmware/lib/iso9660/lib9660.c:290-295 | Afterwards the buffer holds this file's sector, whoever used it before. |
| Iso9660.Reader.Open | src/firmware/lib/iso9660/lib9660.c:262-277 | Opening starts at the extent's first byte and spoils the buffer for no open file. |
| Iso9660.Reader.ReadDir | src/firmware/lib/iso9660/lib9660.c:392-418 | The next record of this directory, padding skipped, or the end; what is left is exactly the rest of the listing, and no other file is spoilt. |
| Iso9660.Reader.ToRecord | src/firmware/lib/iso9660/lib9660.c:392-410 | The loop skips padding until a record or the end, with the record's sector in the buffer. |
| Iso9660.Reader.Read | src/firmware/lib/iso9660/lib9660.c:458-478 | From any state and position: what is copied, from the old buffer or the sector read anew, how much, and a failure when there is no such sector. |
| Iso9660.GoodRead | src/firmware/lib/iso9660/lib9660.c:458-478 | With a good buffer a read returns the bytes of the file at the position, up to the end of sector and file, whatever other files read before, and leaves it good. |
| Iso9660.Reader.Interleave | src/firmware/lib/iso9660/lib9660.c:262-478 | Any interleaving of listing, reading, opening and seeking over the one buffer is the sequence of its turns; directories stay good whatever seeks the others make. |
| Iso9660.DirectoryIsExact | src/firmware/lib/iso9660/lib9660.c:392-478 | In any such run a directory returns exactly its records in order, as many as it was asked for or as it has left. |
| Iso9660Layout.DirectoryReads | src/firmware/lib/iso9660/lib9660.c:388-418 | Any directory laid out as the standard has it, whole records padded to even length and zeros to the end of each sector, lists as exactly its records in order. |
| Iso9660.Reader.Seek | src/firmware/lib/iso9660/lib9660.c:426-451 | From any state: the position is the offset, the old position plus it or the length less it, modulo 2^32; when the new sector is read, and when the seek fails. |
| Iso9660.GoodSeek | src/firmware/lib/iso9660/lib9660.c:426-451 | A safe seek leaves a good buffer good. |
| Iso9660.SeekKeeps | src/firmware/lib/iso9660/lib9660.c:446-449 | A seek of the buffer's last user that does not read keeps every good buffer good, on every disk, if and only if it ends on a sector start or began inside a sector. |
| Iso9660.SeekMisleads | src/firmware/lib/iso9660/lib9660.c:426-478 | A run that gets a wrong byte: open, read 2048, seek to 2049, read 1. |
| HidMouse.LastPayloadsSnoc | src/firmware/os/hal/hid_mouse.c:78-103 | A further payload under the same report counter replaces the earlier one in the sum. |
| HidMouse.TravelIsTrue | src/firmware/os/hal/hid_mouse.c:69-71 | In accumulator mode the credited steps add up to the true movement when each fits 16 bits. |
| HidMouse.MaskRoundTrip | src/firmware/os/hal/hid_mouse.c:48 | The buttons written into the 16 mask bits are the buttons read. |
| HidMouse.RegistersRead | src/firmware/os/hal/hid_mouse.c:47-50 | Counter, buttons and both payloads are read from the registers as they were put there. |
| HidMouse.DeltaIsAmount | src/firmware/os/hal/hid_mouse.c:16-19 | A payload counts for the two signed 8-bit samples or the one signed 16-bit sample that were put into it. |
| HidMouse.PayloadsAreSamples | src/firmware/os/hal/hid_mouse.c:67-104 | The sum over payloads is the sum of the samples of all reports, each report counted once. |
| HidMouse.MotionIsTrue | src/firmware/os/hal/hid_mouse.c:62-104 | In every mode the motion that reports amount to is the way the mouse has gone since its first report. |
| HidMouse.CreditIsMotion | src/firmware/os/hal/hid_mouse.c:63-105 | What one decode credits is exactly the change in what the reports amount to. |
| HidMouse.DecodeIsIdempotent | src/firmware/os/hal/hid_mouse.c:60-62 | Decoding the same registers twice changes nothing, in every mode. |
| HidMouse.NoPressIsLost | src/firmware/os/hal/hid_mouse.c:56 | A button shows as pressed if and only if it went down at some change since the last read. |
| HidMouse.NoReleaseIsLost | src/firmware/os/hal/hid_mouse.c:57 | A button shows as released if and only if it came up, disconnects included. |
| HidMouse.DecodeKeeps | src/firmware/os/hal/hid_mouse.c:41-109 | After every decode the motion handed out plus the motion pending is the sum of each report's last payload less the first, or the distance travelled. |
| HidMouse.ReadKeeps | src/firmware/os/hal/hid_mouse.c:111-118 | A read moves motion and edges to the reader once and keeps the sum. |
| HidMouse.DisconnectKeeps | src/firmware/os/hal/hid_mouse.c:26-39 | A disconnect releases every button and starts the books afresh. |
| HidMouse.Decoder.Disconnect | src/firmware/os/hal/hid_mouse.c:26-39 | The whole new state after a disconnect. |
| HidMouse.Decoder.Decode | src/firmware/os/hal/hid_mouse.c:41-109 | The three registers are decoded by type, counter and mode into the specified new state. |
| HidMouse.Decoder.Read | src/firmware/os/hal/hid_mouse.c:111-118 | The state is handed out and its deltas and edges are cleared. |
| HidMouse.Decoder.Watch | src/firmware/os/hal/hid_mouse.c:41-118 | Over any run of reports, decoded from the registers and read now and then, the motion handed out plus the motion pending is the sum of the samples put in, less the first report's. |
| NoteList.NumberRoundTrip | tools/sf2_to_ofsf.c:1441-1450 | Every number the printer writes is read back by strtol with base 0. |
| NoteList.NumeralReads | tools/sf2_to_ofsf.c:1444 | strtol reads every decimal, octal or hexadecimal number to its end, with its sign and behind blanks. |
| NoteList.OnlyNumerals | tools/sf2_to_ofsf.c:1444 | What it reads to the end is such a number and nothing else. |
| NoteList.NumberIff | tools/sf2_to_ofsf.c:1441-1450 | A token is taken as a number if and only if it is one from 0 to 255, in any of the three bases. |
| NoteList.TokenRoundTrip | tools/sf2_to_ofsf.c:1484-1496 | Every printed range is one token and is read back as that range. |
| NoteList.TokensOfJoin | tools/sf2_to_ofsf.c:1480-1498 | Splitting the printed list gives back its items. |
| NoteList.RunsAreMaximal | tools/midi_usage.py:168-182 | The runs of a sorted list are increasing, cannot be extended or joined, and cover exactly the notes. |
| NoteList.FmtNotes | tools/midi_usage.py:168-182 | The running start and previous note print exactly the runs, joined by commas; no notes print nothing. |
| NoteList.Usage.KeepNote | tools/sf2_to_ofsf.c:1462-1476 | One note is marked and no other; a bad slot or note is refused. |
| NoteList.Usage.KeepToken | tools/sf2_to_ofsf.c:1484-1496 | A token marks exactly the notes of its range, or is refused. |
| NoteList.Usage.ParseNotes | tools/sf2_to_ofsf.c:1478-1499 | A list is taken if and only if it has tokens and all parse, and exactly their notes are marked. |
| NoteList.ListRoundTrip | tools/sf2_to_ofsf.c:1478-1499 | The parser takes every list of ranges the printer writes and keeps what it covers. |
| NoteList.RoundTrip | tools/midi_usage.py:168-182 | For every set of notes that is not empty, parsing its printed list keeps exactly the set. |
| Memtest.XorInjective | src/firmware/os/hal/memtest.c:80 | Different addresses have different tags. |
| Memtest.StrideIsLongest | src/firmware/os/hal/memtest.c:100-102 | The stride is the longest multiple of four that still takes the number of samples asked for, at least one word. |
| Memtest.ReadBack | src/firmware/os/hal/memtest.c:106-110 | A cell reads back right exactly if no later address reaches it. |
| Memtest.AddrTagSweep | src/firmware/os/hal/memtest.c:98-111 | For any wiring of addresses to cells the sweep passes if and only if no two visited addresses share a cell; addresses are 32 bits wide. |
| Memtest.Opposed | src/firmware/os/hal/memtest.c:114-118 | The first two patterns put every bit of every word at both levels, with the per-word twist. |
| Memtest.TwistIsIndex | src/firmware/os/hal/memtest.c:123 | The twist puts the low byte of the index into the top byte and nothing anywhere else. |
| Memtest.TwistTells | src/firmware/os/hal/memtest.c:123 | Two words of a block have different twists exactly when their indices differ modulo 256. |
| Memtest.PairPasses | src/firmware/os/hal/memtest.c:114-128 | The two opposed patterns both come back at a place if and only if no bit there is stuck and the word is from its own place, up to multiples of 256. |
| Memtest.OtherPatterns | src/firmware/os/hal/memtest.c:116-117 | The other patterns oppose each other bit for bit and walk one bit through every byte lane. |
| Memtest.StuckShows | src/firmware/os/hal/memtest.c:124-127 | A word and its complement, read at a place meant for such a pair, both come back only where no bit is stuck and they are that pair. |
| Memtest.DenseBlock | src/firmware/os/hal/memtest.c:113-131 | For any set of stuck bits and any order in which words come back, the block test passes if and only if no bit is stuck and every word is from its own place, up to multiples of 256 words. |

## Left out

- Uncompress: the stream is trusted, as in the source, which checks neither its length nor its codes; the caller's
  buffer must reach two bytes past the image because the reader's 32-bit window does.
- Compress: needs an input of at most 16384 bytes, which the source does not check but its tables and its 16-bit header
  rely on.
- LZW entry points sharing their tables between callers: the source says calls do not nest.
- GpuStream: waits that trap after a spin limit are waits that a working peer ends; cache flushes, uncached stores and
  MMIO ordering are left out, and the ring-full diagnostics with them.
- GpuStream: a missing staging buffer (no SDRAM), on which the source traps, and oversized requests, which also trap.
- EmitCompact: the payload words of the compact lane, column and triangle forms are left abstract; only that they
  overwrite the GPU's staging matters to the header cache.
- GpuCommands: what a command other than a span list draws stays abstract; a continuation is taken to draw in chunks of
  four records, as the long list does.  Requests that a caller makes carry no fence or flip of their own, since the
  driver hands out the tokens.
- Exec: feature-reduced cores, which drain some commands or draw without perspective, colormap or translucency, are
  left out.
- Lane: attributes are words modulo 2^32; the hardware keeps the low 26 bits of addresses and the low 24 of light.  The
  mirror and combine bits of a control word in a ready-made stream are left out; the driver's own headers never set them.
- Gpu: state commands that the driver skips when its cached frame buffer or texture is the same.
- of_gpu_draw_persp_span_group_batch, the affine group emitters and the payloads of the remaining draw commands: each writes
  its arguments into a command word by word and has no state of its own.
- VoiceEngine: volumes, panning, pitch, LFOs and statistics are left out; whether the last volume written for a voice was
  zero is a parameter of the tick, and the playback rate one of note-on.
- VoiceEngine: one kind of firmware per run, with hardware indices known for all voices or for none.
- VoiceEngine: every call is atomic; races between note-on on the main thread and the tick are left out.
- NoteOn: takes zones with well-formed envelopes, which `SmpEnvelope.BakedIsWellFormed` shows of everything the converter bakes.
- NoteOn: when the mixer refuses, the fields that the source has already written to the free slot are not modelled; nothing
  reads them.
- smp_voice_init as a step in mid-run and smp_voice_reap_orphans: initialisation is only the starting state.
- envelopes: an envelope is a value inside its voice; the union of volume and modulation zone fields is two records.
- Player: the effect of an event on controllers, programs and the voice engine; events are a list of calls in order.
- Player: how far a budget lets a loop run is arbitrary, so every cut is covered; real time is a parameter, and the voices that
  the end of a song stops are those of the voice engine.
- Play: a refused file leaves half-read header fields behind in the source, which nothing reads before the next play.
- Player: order between tracks when the tempo changes in mid-song; a delta counts at the tempo in force when it is read.
- LevelNonIncreasing: states shape and bounds of the level; how far the table is from the formula in the comment on
  `of_smp_tables.c:249-257`, from which that comment derives its constant 3322/1000, is not part of this model.
- Validate: the bank is seen as header fields, presets and zones; the byte layout of these records is not modelled.
- Convert: the sort itself (any result that is sorted by the comparator and a permutation will do), envelope, LFO, tuning
  and rate-correction fields of a zone, reading the SoundFont and writing the file.
- Convert: needs nonempty sample data and fewer than 65536 zones, as the 16-bit preset index does.
- sf2_to_ofsf generator merging and the usage filter on key ranges.
- ReadDir: directory sectors that begin with a zero byte, on which the source would not terminate.
- Read: a disk driver that fails on a sector and succeeds when asked again; a sector is there or it is not.
- Listable: directory extents within 2048 bytes of 4 GiB.
- Iso9660: volume descriptors, name decoding and path lookup.
- Decoder: dx and dy are unbounded here; button masks are sets of bits.
- Usage: the counters of kept slots and notes, which are recomputed after parsing.
- ParseNumber: an overflowing number reads as its value instead of the largest long; both are out of range.
- DenseBlock: shorted pairs of data lines, which its patterns do not all separate; words more than 256 apart that change
  places have the same twist.
- AddrTagSweep: regions whose end, or whose first address past the last one visited, comes to 2^32, where the loop's condition
  wraps; the record of the failing address.
- The link-cable ring, sound file parsers, texture allocator, disk dispatcher and path normaliser: they share no state with
  the parts modelled here.
