# Encoder_OGG: span cursor, sample normalizer and Ogg/Vorbis write driver

A Dafny model of the streaming Ogg/Vorbis exporter of the rencoder sound
library (`rmixer::Encoder_OGG`). It covers:

- the **span cursor** (`initbufferread` / `bufferread`): the sound's PCM data
  is an ordered list of spans (`buffers_`), read as one byte stream through
  the fields `current_buffer_index` / `current_buffer_offset`. Modelled as the
  class `EncoderOgg.OggEncoder` with fields `index` and `offset`, the spans as
  `seq<seq<bv8>>`, a ghost `Stream()` (the concatenation) and a ghost logical
  position `Pos() == |Concat(spans[..index])| + offset`. `BufferRead` copies
  into an `array<bv8>` in place. `ChunkedReads` gives the byte counts a
  sequence of reads of arbitrary sizes returns, as a pure function.
- the **sample normalizer** (`ConvertToFloatSample`): `SampleConvert.Convert`,
  the dispatch on `(is_signed, bitsize)`. Integer bytes are decoded exactly
  (little-endian, two's complement where signed) and scaled in `real`.
- the **deinterleave step** of the data loop: `Deinterleave.Deinterleave`
  fills `buffer[ch, i]` (an `array2`) from the interleaved read buffer.
- the **write driver** `Write(path)`: the header flush, then the data loop of
  read, submit, and the three nested drains (blocks, packets, pages). The
  Vorbis/Ogg library is an `OggWrite.Engine` value: a script of the answers
  the library gives (the init result, the pages `ogg_stream_flush` returns,
  and per data-loop turn the blocks, packets and pages). What Write does is
  recorded as a file (the bytes `fwrite` produced) and an event log.
- the **format-mismatch dispatch** `Write(path, soundinfo)`: `OggEncoder.WriteAs`.

Modelling choices that follow the code:

- The cursor is reset only by the constructor (`Encoder_OGG.cpp:41`), never by
  `Write`. `OggEncoder.Write` starts reading at `old(Pos())`, and
  `OggWrite.SecondWriteIsSilent` shows that once a Write has told the library
  0 frames (an empty read, or a read shorter than one frame), a second Write
  submits no samples at all. Nothing in `Write` resets the cursor, so each
  Write continues where the previous one stopped.
- `Write(path)` reads `info_` only, never `dest_info_`. Its outcome
  (`OggWrite.WriteOutcome`) mentions `info` and not `destInfo`. So in `WriteAs`
  the temporary `dest_info_` has no effect on what is written.
- The literal `2147483647.f` is a single-precision float, and its value is
  exactly 2^31. `SampleConvert.DIVISOR_32` is therefore 2147483648. With it,
  the exact-real model puts unsigned 32-bit samples in [-1, 1).
- Signed 32-bit keeps the code's `- 1.0f` (`Encoder_OGG.cpp:70`), which puts
  its exact-real results in [-2, 0). Signed 8-bit and signed 16-bit have no
  such offset. These ranges are those of exact reals; the float32 rounding
  of the program can reach the upper ends (see "Left out").
- The signed 16-bit value is rebuilt as the code does it. `p[1]` is a signed
  `char`, sign-extended to `int` and shifted left by 8. It is OR-ed with the low
  byte of `(int)p[0]`. This is computed on `bv32` patterns and proved equal to
  `int8(p[1]) * 256 + uint8(p[0])`.
- A read of fewer bytes than one frame, but more than zero, still requests
  the analysis buffer and then calls `vorbis_analysis_wrote` with 0
  (`Encoder_OGG.cpp:176-189` with `i == 0`). It is logged as `Frames(0, ...)`,
  distinct from the `EndOfInput` of an empty read. `Trace.WroteCount` gives the
  count the library is told, which is 0 in both cases, and the end-of-input
  lemmas are stated for that count.
- Little-endian decoding is a modelling assumption for the pointer casts
  (`uint16_t`, `uint32_t`, `int32_t`) of the other widths.
- `quality_level` (`static_cast<int>(quality_ * 10)`, a truncation, not a
  rounding) is taken as a given integer. The engine is configured with
  `quality_level / 10`.

## Model

| member | source | states |
|---|---|---|
| `EncoderOgg.OggEncoder.constructor` | src/Encoder_OGG.cpp:38-42 | the cursor starts at index 0, offset 0, so at logical position 0 |
| `EncoderOgg.OggEncoder.InitBufferRead` | src/Encoder_OGG.cpp:228-232 | puts the cursor at the first byte of the first span |
| `EncoderOgg.OggEncoder.BufferRead` | src/Encoder_OGG.cpp:234-258 | returns exactly min(size, total - position); `out[..r]` is the stream from the old position; `out[r..]` is unchanged; the position advances by r; a short read leaves index at the span count; from index == span count it returns 0 and stays there |
| `EncoderOgg.OggEncoder.CopyLoop` | src/Encoder_OGG.cpp:239-257 | the `while (size > 0 && index < n)` loop copies the stream prefix from the start position and stops only when size bytes are copied or every span is consumed; the cursor stays inside its span |
| `EncoderOgg.OggEncoder.CopyStep` | src/Encoder_OGG.cpp:242-249 | one pass copies min(rest, bytes left in the current span), which is 0 for an empty span; it either satisfies the whole request or moves on to the next span |
| `EncoderOgg.OggEncoder.Advance` | src/Encoder_OGG.cpp:246-254 | the offset grows by the bytes copied; when the span is used up the cursor moves to the start of the next span |
| `EncoderOgg.CopyInto` | src/Encoder_OGG.cpp:244 | memcpy overwrites exactly the len(src) cells of `dst` from `at` on with `src`, and nothing else |
| `EncoderOgg.OggEncoder.ReadChunks` | src/Encoder_OGG.cpp:234-258 | successive bufferread calls with the given sizes return exactly `ChunkedReads.Returns` of those sizes from the starting position, and the cursor moves on by their sum |
| `ChunkedReads.ReadsSumToTotal` | src/Encoder_OGG.cpp:234-258 | reads of arbitrary sizes together return min(sum of sizes, bytes left); once the requests cover the stream they return exactly its length |
| `ChunkedReads.ExhaustedReturnsZero` | src/Encoder_OGG.cpp:236-237 | from the end of the stream every read returns 0 |
| `ChunkedReads.ShortReadThenZero` | src/Encoder_OGG.cpp:240-254 | after a read returns less than it asked for, every later read returns 0 |
| `SampleConvert.Rebuilt16` | src/Encoder_OGG.cpp:68 | the 32-bit pattern of the shift and the or has `p[0]` in the low byte, `p[1]` in the next, and the sign of `p[1]` filling the upper half |
| `SampleConvert.Signed16AsWritten` | src/Encoder_OGG.cpp:68 | the signed 16-bit value as the code rebuilds it is `int8(p[1])*256 + uint8(p[0])`, in [-32768, 32767] |
| `SampleConvert.Convert` | src/Encoder_OGG.cpp:45-88 | the dispatch of ConvertToFloatSample; only the float formats (is_signed 2, bitsize 32 or 64) keep their raw bytes, exactly the bytes the cast reads; every combination outside the table gives 0 |
| `SampleConvert.Signed16Decoding` | src/Encoder_OGG.cpp:68 | the shift-and-or of `p[1]` (a signed char) and the low byte of `p[0]` equals `int8(p[1])*256 + uint8(p[0])`, equals the little-endian two's-complement value of the two bytes, and lies in [-32768, 32767] |
| `SampleConvert.ConvertRange` | src/Encoder_OGG.cpp:45-88 | unsigned 8/16/32 and signed 8/16 give values in [-1, 1); signed 32 gives values in [-2, 0); the combinations outside the dispatch table give 0, and no float format does |
| `SampleConvert.ConvertBoundaries` | src/Encoder_OGG.cpp:52-70 | unsigned 8-bit 0 gives -1 and 255 gives 127/128; signed 16-bit `00 80` gives -1, `FF 7F` gives 32767/32768 and `00 00` gives 0; signed 32-bit 0 gives -1 |
| `Sound.SampleBytes` | src/Encoder_OGG.cpp:108 | byte_per_sample is the whole bytes of one sample: 8 times it is at most bitsize and more than bitsize - 8 |
| `Sound.FrameBytes` | src/Encoder_OGG.cpp:107 | byte_per_frame holds the sample bytes of every channel, and equals channels times byte_per_sample when bitsize is a multiple of 8 |
| `Sound.ReadRequest` | src/Encoder_OGG.cpp:163 | the read request, kOggStreamBufferSize frames, is at least one frame, and is empty only when a frame is empty |
| `Trace.SubmittedCount` | src/Encoder_OGG.cpp:165-189 | for the submission `Trace.Submits` pairs with a read: an empty read, and only an empty read, gives end of input; the count the library is told is the number of whole frames in the read |
| `Trace.PartialFrameTellsZero` | src/Encoder_OGG.cpp:176-189 | a read of 3 bytes of 16-bit stereo requests the analysis buffer but tells the library 0 frames |
| `Deinterleave.SampleInRead` | src/Encoder_OGG.cpp:107-108 | for frame i below the frame count and channel ch below the channel count, the sample at `i*byte_per_frame + ch*byte_per_sample` lies inside the bytes read, and is wide enough for the dispatch |
| `Deinterleave.FrameCountBounds` | src/Encoder_OGG.cpp:163-180 | the frame count `bytes / byte_per_frame` never exceeds kOggStreamBufferSize and covers every whole frame; a trailing partial frame is dropped |
| `Deinterleave.Deinterleave` | src/Encoder_OGG.cpp:178-189 | returns `bytes / byte_per_frame`; `buffer[ch, i]` is the converted sample at its offset for every channel and frame below that count; every other cell is unchanged |
| `OggPages.ThroughEos` | src/Encoder_OGG.cpp:207-217 | the pages a `!eos` loop writes are a prefix of the pages offered, with no flagged page before the last, and it stops early only at a flagged page |
| `OggPages.Written` | src/Encoder_OGG.cpp:207-217 | a `!eos`-guarded loop writes a prefix of the pages offered, and nothing once eos is already set |
| `OggPages.ThroughEosShape` | src/Encoder_OGG.cpp:207-217 | the pages written are a prefix of those offered that ends with the first end-of-stream page; without such a page, they are all the pages |
| `Framing.FlushHeaders` | src/Encoder_OGG.cpp:150-155 | every page ogg_stream_flush returns is written, in order, header bytes then body bytes |
| `Framing.DrainPageouts` | src/Encoder_OGG.cpp:207-217 | pages are written header then body until the pages run out or a written page is flagged end-of-stream; the flag records whether one was |
| `Framing.DrainPackets` | src/Encoder_OGG.cpp:201-218 | every packet of a block is welded in, but its pages are written only while eos is unset |
| `Framing.DrainBlocks` | src/Encoder_OGG.cpp:195-219 | the pages of all blocks of a round are written up to and including the first end-of-stream page |
| `OggWrite.CommentTags` | src/Encoder_OGG.cpp:119-127 | ENCODER=Rhythmus-Encoder comes first; TITLE and ARTIST are present exactly when the metadata has them, with their values, and TITLE precedes ARTIST |
| `OggWrite.CursorReturns` | src/Encoder_OGG.cpp:163 | the byte counts of reads that follow the cursor are exactly `ChunkedReads.Returns` for as many requests of the read size, and together they move the cursor by the sum of those counts |
| `OggWrite.CursorSlice` | src/Encoder_OGG.cpp:163 | the chunks the data loop reads are, joined, the stream bytes from the start position on |
| `OggWrite.ShortReadIsFinal` | src/Encoder_OGG.cpp:240-254 | after a data-loop read that is shorter than its request, the cursor is at the end of the stream and every later read is empty |
| `OggWrite.ExhaustedReadsNothing` | src/Encoder_OGG.cpp:236-237 | reads that start at the end of the stream deliver nothing |
| `OggWrite.Headers` | src/Encoder_OGG.cpp:110-156 | the log before the data loop is the configuration, the header packets with their comment tags, then one write per header page, in order |
| `OggWrite.HeaderLog` | src/Encoder_OGG.cpp:141-156 | after the header flush the pages written are the header pages, nothing has been read, and the log does not end in a read |
| `OggWrite.TakenStart` | src/Encoder_OGG.cpp:158-160 | before the first turn of `while (!eos)` no turn is taken, eos is unset, the cursor is where Write found it, and only the header pages are in the file |
| `OggWrite.TakenStep` | src/Encoder_OGG.cpp:160-220 | a turn taken while eos is unset reads one chunk at the cursor and submits it, its round's pages follow in the log and the file, and eos becomes whether any round so far brought an end-of-stream page |
| `OggWrite.TakenDone` | src/Encoder_OGG.cpp:160-226 | once eos is set, the turns taken are the successful outcome of Write: their number is the least r for which the first r rounds hold an end-of-stream page |
| `OggWrite.TurnStep` | src/Encoder_OGG.cpp:160-220 | one more turn adds its read, its submission and its round's guarded page writes to the log, its chunk to the bytes consumed and its pages to the file, and keeps every turn reading at the cursor |
| `OggWrite.TurnsLogLast` | src/Encoder_OGG.cpp:160-220 | the log through a turn is the log through the turns before it, then that turn's read, submission and page writes |
| `OggWrite.TurnsPages` | src/Encoder_OGG.cpp:150-217 | the page writes of the headers and the turns are the header pages, then the data pages of the rounds taken that the `!eos` guard lets through |
| `OggWrite.TurnsReads` | src/Encoder_OGG.cpp:160-190 | the turns log one chunk each; each read is followed by its submission; the chunks follow the cursor by the bytes consumed; the log never ends in a read |
| `OggWrite.LastTurnReads` | src/Encoder_OGG.cpp:160-190 | the last turn adds exactly one chunk, read at the cursor the earlier turns left, and leaves a log that does not end in a read |
| `OggWrite.RoundReads` | src/Encoder_OGG.cpp:163-219 | one read, its submission and its page writes extend a cursor-following log by that chunk and do not leave a read at its end |
| `OggWrite.TurnsShape` | src/Encoder_OGG.cpp:160-220 | the turns log only reads, submissions and page writes, and the first turn starts with its read |
| `OggWrite.LastTurnEnds` | src/Encoder_OGG.cpp:207-217 | the last turn, the first whose round brings an end-of-stream page, ends the log with the write of that page |
| `OggWrite.NotYetEnded` | src/Encoder_OGG.cpp:160 | while eos is unset and the library eventually flags an end-of-stream page, there is a round left for the next turn |
| `OggWrite.PagesStep` | src/Encoder_OGG.cpp:195-219 | while no end-of-stream page has come, one more round's pages extend the pages written by those the guard lets through, and eos becomes whether that round flags one |
| `OggWrite.PagesDone` | src/Encoder_OGG.cpp:158-226 | once the rounds taken hold an end-of-stream page, the header pages and the data pages the guard let through are the header pages and the data pages through the first end-of-stream page |
| `OggWrite.EosPrefix` | src/Encoder_OGG.cpp:207-217 | once the first r rounds hold an end-of-stream page, later rounds add nothing to the pages written |
| `OggWrite.EncodedPages` | src/Encoder_OGG.cpp:141-219 | the page writes of a successful Write are the header pages, then the data pages through the first end-of-stream page, and the file holds exactly those pages |
| `OggWrite.EncodedReads` | src/Encoder_OGG.cpp:160-190 | a successful Write logs one chunk per turn, each read followed by its submission, following the cursor from its old to its new position |
| `OggWrite.EncodedLog` | src/Encoder_OGG.cpp:110-220 | the log of a successful Write is the configuration, the header packets and the header pages, then a read, then only reads, submissions and page writes, ending with the write of an end-of-stream page |
| `OggWrite.WrittenPagesEndAtFirstEos` | src/Encoder_OGG.cpp:141-219 | a successful Write writes all header pages first, then the data pages through the first end-of-stream page and none after it; the file is header then body of each of those pages |
| `OggWrite.EndOfInputExhausts` | src/Encoder_OGG.cpp:163-170 | a Write that told the library 0 frames (an empty read, or a read shorter than one frame) leaves the cursor at the end of the stream |
| `OggWrite.WriteFromEndReadsNothing` | src/Encoder_OGG.cpp:160-170 | a Write that starts from an exhausted cursor reads nothing and submits only end of input |
| `OggWrite.SecondWriteIsSilent` | src/Encoder_OGG.cpp:38-42 | the cursor is reset only at construction, so when a successful Write told the library 0 frames in one of its submissions, a second successful Write ends at the end of the stream and submits only end of input |
| `EncoderOgg.OggEncoder.ReadAndAnalyse` | src/Encoder_OGG.cpp:163-190 | reads min(request, bytes left) stream bytes; submits end of input for an empty read, otherwise the deinterleaved whole frames |
| `EncoderOgg.OggEncoder.Write` | src/Encoder_OGG.cpp:90-226 | an unopened file fails with nothing written; a rejected configuration fails after logging only the configuration; otherwise it succeeds: the log is the headers, then per turn t one read at the cursor, its submission and the pages of round t the `!eos` guard lets through; the number of turns is the least r whose first r rounds hold an end-of-stream page; the cursor moves by the bytes read; the file holds the header pages and the data pages through the first end-of-stream page |
| `EncoderOgg.OggEncoder.Encode` | src/Encoder_OGG.cpp:118-220 | after a successful init: comments, header packets, header flush, then the data loop, with the successful outcome of Write (its turns, log, cursor and file) |
| `EncoderOgg.OggEncoder.DataLoop` | src/Encoder_OGG.cpp:158-220 | `while (!eos)` takes one turn per round until eos is set; its turns, cursor, log and file are those `OggWrite.TurnsTaken` describes with eos set |
| `EncoderOgg.OggEncoder.Turn` | src/Encoder_OGG.cpp:160-220 | one turn reads min(request, bytes left) bytes at the cursor and submits them, then appends its round's guarded pages to the file and the log; eos is whether the round brought an end-of-stream page |
| `EncoderOgg.OggEncoder.WriteAs` | src/Encoder_OGG.cpp:260-271 | a different rate or channel count returns the base writer's result and touches neither cursor nor dest_info_; otherwise the result is Write(path)'s outcome, and dest_info_ afterwards equals its value before the call |

## Left out

- The Vorbis/Ogg library (`vorbis_encode_init_vbr`, `vorbis_analysis_*`, `vorbis_bitrate_*`, `ogg_stream_*`, `ogg_page_eos`) is foreign code. It is the `Engine` script of answers. The model does not claim that the stream has exactly one end-of-stream page or conforms to the Ogg/Vorbis format.
- EncoderOgg.OggEncoder.Write: requires that a successful init is followed by an eventual end-of-stream page (`OggWrite.Ends`). Without that page the source's data loop never terminates, and the library is trusted to provide it.
- Packets after the end-of-stream page are still welded in by `ogg_stream_packetin` but are not logged. Only page writes, reads and submissions are observable in the log.
- The float32 passthrough and the float64 narrowing (`Encoder_OGG.cpp:80, 82`) are IEEE reinterpretations. They are kept as the raw bytes (`Float32Bits`, `NarrowedFloat64`). Rounding inside the float divisions is not modelled; values are exact `real`s.
- SampleConvert.ConvertRange: its ranges are those of exact reals. The program converts the 32-bit integers to float32 before dividing (`Encoder_OGG.cpp:56, 70`), and that conversion rounds: an unsigned value of 0xFFFFFF80 or more gives exactly 1.0, and a signed value of 0x7FFFFFC0 or more gives exactly 0.0. The model does not capture the int-to-float rounding.
- The value of `quality_level` is a parameter. The truncation `static_cast<int>(quality_ * 10)` of a double is floating-point arithmetic.
- File and heap plumbing: `rutil::fopen_utf8` is the parameter `fileOpened`. `fwrite` appends to the modelled file. `fclose`, `malloc`/`free` and the `VorbisCleanupHelper` destructor are not modelled, and no claim about cleanup is made (the early `return false` at line 116 leaves the file open).
- The stream serial number from `srand(time(0))` / `rand()` is nondeterministic and does not influence the driver's logic; it is not modelled.
- The metadata store is a `map<string, string>` of the text values `GetMetadata` finds. Binary values and the store's operations are outside the model, since their implementations are not part of this model.
- EncoderOgg.OggEncoder.WriteAs: the base `Encoder::Write(path, soundinfo)` (the resampling writer) is not part of this model. Its result is the parameter `baseOk`. The empty file and log of the delegated branch stand for what this encoder's own Write produces, not for the file the base writer does write. The claim that the cursor is untouched there assumes the base writer does not re-enter this encoder's `Write(path)`.
- `Encoder_WAV`, `Encoder_FLAC` and the `Sound` type are not part of this model.
- Integer widths: `size_t`/`long` counters are unbounded `nat`s. The product `kOggStreamBufferSize * byte_per_frame` does not overflow for the bit sizes in use.
