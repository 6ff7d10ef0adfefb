# ESP32_AnimatedGIF decoding engine in Dafny

This project models the decoding engine of ESP32_AnimatedGIF (`ESP32_AnimatedGIF::Impl` in
`src/ESP32_AnimatedGIF.cpp`) on its in-memory path, and proves properties of the model. The
engine has these parts:

- the positional reader over the loaded bytes;
- the header parser, which checks the signature, reads the logical screen descriptor and reads the global colour table;
- the frame counter, a forward pass that counts image descriptors and adds up delays;
- the per-frame walk, which reads graphic-control extensions and image descriptors;
- `decodeFrame`, which skips sub-blocks and paints a test pattern (the source has no LZW);
- the pixel writer, with its six buffer layouts;
- the disposal step;
- the playback state machine of `nextFrame`, `reset`, `isAnimationComplete` and `loadFromMemory`.

Layout:

- `gif_types.dfy`, `color_utils.dfy`, `stream_reader.dfy`: shared types, the two colour conversions, the reader, table sizes, 32-bit colour-table words and sub-block chains.
- `frame_scanner.dfy`, `frame_parser.dfy`: the countFrames pass and the parseFrame walk, as functions over the byte sequence.
- `pixel_writer.dfy`, `painting.dfy`: drawPixel's byte layouts and the painting loops of fillTestPattern and applyDisposal.
- `session.dfy`, `steps.dfy`: the decoder's whole state as one value (`Session`), and one step function per operation.
- `decoder.dfy`: the class `GifDecoder`, whose fields are the `Impl` fields. Each method changes them in place: the cursor loops are `while` loops and the frame buffers are arrays. Each method is proved to change the state exactly as its step function says.
- `header_properties.dfy`, `scan_properties.dfy`, `parse_properties.dfy`, `drawing_properties.dfy`, `playback_properties.dfy`: what the operations promise, as lemmas over the step functions.
- `scan_finding.dfy`: a stream on which countFrames and playback disagree about the frame count, and a corrected pass proved to agree with playback (see "## Findings").

The model keeps the code's offsets and integer widths even where the GIF89a standard says otherwise:

- A graphic-control block is read as the five bytes right after the 0xF9 label. So the block-size byte is taken as the packed field, and the delay comes from the next two bytes.
- countFrames tests the local-table flag ten bytes after the 0x2C tag. parseFrame reads it nine bytes after the tag. For a frame with a local table the two then resume at different places, so the frame count can differ from the frames playback finds (see "## Findings"). The decoder model keeps the pass as written.
- A colour-table entry i is the 32-bit word at byte 4i, so its colour is bytes 4i+2, 4i+1 and 4i.
- Canvas coordinates wrap at 16 bits.
- The frame delay is computed in a `uint16_t` before it is raised to 20.
- The monochrome byte offset is kept in a `uint8_t`, so monochrome pixels only ever write the first 256 bytes of the buffer (`PixelWriter.MonochromeStaysInFirstBytes`).
- The frame counter and the total frame count are 16-bit fields. The total duration is a 32-bit field.

## Model

| member | source | states |
|---|---|---|
| ColorUtils.Rgb565 | src/ESP32_AnimatedGIF.cpp:938-940 | the 5-6-5 word is below 2^16; its top five bits are red/8, the middle six are green/4, the low five are blue/8 |
| ColorUtils.LumaSum | src/ESP32_AnimatedGIF.cpp:942-945 | the weighted sum 77r+150g+29b lies between 256·min and 256·max of the channels (the weights sum to 256) |
| ColorUtils.GrayLevel | src/ESP32_AnimatedGIF.cpp:942-945 | the luminance lies between the smallest and largest channel, so it is below 256 and the uint8_t cast never truncates |
| ColorUtils.GrayLevelOfGrey | src/ESP32_AnimatedGIF.cpp:942-945 | a grey input (v,v,v) has luminance v |
| GifTypes.Le16 | src/ESP32_AnimatedGIF.cpp:385-386 | a little-endian pair of bytes is a 16-bit value |
| GifTypes.Le16Bits | src/ESP32_AnimatedGIF.cpp:601-604 | Le16 equals the code's `lo \| (hi << 8)` on any two bit patterns |
| GifTypes.PackedFieldBits | src/ESP32_AnimatedGIF.cpp:573-574 | the field readers used for flags and packed bytes (table flag, size field, disposal, transparency, interlace) equal the code's masks and shifts |
| GifTypes.ZerosAre | src/ESP32_AnimatedGIF.cpp:519-520 | a block is all zero bytes exactly when it equals the zero-filled block of its length (what memset leaves) |
| GifTypes.ModAdd | src/ESP32_AnimatedGIF.cpp:434-466 | wrapping a counter at every step or once at the end gives the same residue |
| StreamReader.ReadData | src/ESP32_AnimatedGIF.cpp:359-370 | the read succeeds exactly when there is data and position+length fits in it; on success it is the slice `data[position..position+length)` |
| StreamReader.TableSize | src/ESP32_AnimatedGIF.cpp:399-400 | a table announced by flags has 2^((flags&7)+1) entries, a power of two from 2 to 256 |
| StreamReader.ColorWordBits | src/ESP32_AnimatedGIF.cpp:685-688 | the colour read from table word i equals the code's `(rgb >> 16) & 0xFF`, `(rgb >> 8) & 0xFF`, `rgb & 0xFF` of the little-endian word at byte 4i |
| StreamReader.SkipSubBlocks | src/ESP32_AnimatedGIF.cpp:448-455 | a complete chain ends just past a zero length byte inside the data; an incomplete one stops at or past the end |
| FrameScanner.ScannedDelay | src/ESP32_AnimatedGIF.cpp:464-466 | each graphic-control block adds max(d,2)·10 ms: at least 20 and a multiple of 10 |
| FrameScanner.AfterImage | src/ESP32_AnimatedGIF.cpp:435-455 | after an image descriptor the pass resumes beyond the flag byte at tag+10 |
| FrameScanner.ScanBlock | src/ESP32_AnimatedGIF.cpp:431-483 | one loop iteration moves the cursor forward, counts at most one frame and only on a 0x2C tag, and adds a multiple of 10 ms |
| FrameScanner.Scan | src/ESP32_AnimatedGIF.cpp:430-484 | the pass's duration is a multiple of 10 and every counted frame needs at least 11 bytes of data |
| FrameScanner.ScanStep | src/ESP32_AnimatedGIF.cpp:430-484 | the totals from a cursor are what its block adds plus the totals from where the block continues |
| ScanProperties.ScanStopsAtTrailer | src/ESP32_AnimatedGIF.cpp:479-480 | the pass stops at 0x3B and counts nothing from there |
| ScanProperties.ScanStopsBeforeLastByte | src/ESP32_AnimatedGIF.cpp:430 | the loop runs only while the cursor is before the last byte |
| ScanProperties.ScanSkipsStrayByte | src/ESP32_AnimatedGIF.cpp:481-483 | any other byte is stepped over alone |
| ScanProperties.ScanCountsImage | src/ESP32_AnimatedGIF.cpp:433-455 | an image descriptor counts exactly one frame and the pass resumes after its local table and sub-blocks |
| ScanProperties.ScanAddsDelay | src/ESP32_AnimatedGIF.cpp:456-478 | a graphic-control block adds max(d,2)·10 with d = `block[2]<<8 \| block[1]`, then the pass resumes after its sub-blocks |
| ScanProperties.TagCountShrinks | src/ESP32_AnimatedGIF.cpp:430-484 | fewer 0x2C bytes remain further on |
| ScanProperties.FramesAtMostTags | src/ESP32_AnimatedGIF.cpp:433-434 | every counted frame is a distinct 0x2C tag the pass lands on, so the count never exceeds the 0x2C bytes after the cursor |
| ScanProperties.NoTagsNoFrames | src/ESP32_AnimatedGIF.cpp:433-434 | a stream without 0x2C bytes after the cursor counts no frames |
| ScanProperties.NoTagsCountZero | src/ESP32_AnimatedGIF.cpp:433-434 | with no 0x2C byte after the cursor the tag count is zero |
| ScanFinding.IntendedAfterImage | src/ESP32_AnimatedGIF.cpp:435-455 | the corrected pass, reading the flag at tag+9 as parseFrame does, resumes beyond the ten descriptor bytes |
| ScanFinding.IntendedBlock | src/ESP32_AnimatedGIF.cpp:431-483 | one corrected loop iteration moves the cursor forward |
| ScanFinding.ScanCountsFrameInsideImageData | src/ESP32_AnimatedGIF.cpp:433-455 | on a one-frame stream with a two-entry local table the pass as written counts 2 frames, playback (parseFrame then decodeFrame's sub-block skip) finds 1 and then the trailer, and the corrected pass counts 1 |
| ScanFinding.IntendedScanFollowsParse | src/ESP32_AnimatedGIF.cpp:546-670 | where parseFrame stops at the trailer or the end the corrected pass counts nothing; where it finds a frame that decodeFrame gets through, the pass counts one frame plus what it counts from where decodeFrame stops |
| ScanFinding.ExtensionStep | src/ESP32_AnimatedGIF.cpp:456-478 | an extension block moves parseFrame and the corrected pass to the same place past its sub-blocks, counting no frame |
| ScanFinding.DescriptorStep | src/ESP32_AnimatedGIF.cpp:590-664 | after a found descriptor the corrected pass resumes where decodeFrame's sub-block skip ends |
| ScanFinding.IntendedScanCountsPlayableFrames | src/ESP32_AnimatedGIF.cpp:430-484 | whenever playback ends cleanly, the corrected pass's frame count equals the number of frames playback finds |
| FrameParser.FrameDelay | src/ESP32_AnimatedGIF.cpp:575-576 | the stored delay is in [20, 2^16); it is d·10 when that fits 16 bits and d ≥ 2, and 20 for d < 2 |
| FrameParser.ParseFrameFrom | src/ESP32_AnimatedGIF.cpp:550-640 | the walk never moves backwards; a failure is EARLY_EOF or EMPTY_FRAME, and EMPTY_FRAME is at the trailer or the end; a found frame stops inside the data; field widths and table shape are kept; the delay is untouched or at least 20 |
| ParseProperties.WalkSkipsStrayByte | src/ESP32_AnimatedGIF.cpp:634-636 | an unknown byte is passed over one at a time |
| ParseProperties.WalkStopsAtTrailer | src/ESP32_AnimatedGIF.cpp:631-640 | the trailer, or the end of the data, is EMPTY_FRAME with nothing changed |
| ParseProperties.WalkReadsGce | src/ESP32_AnimatedGIF.cpp:566-593 | a graphic-control block sets disposal `(packed>>2)&7`, the transparency flag, the transparent index and a delay ≥ 20, then the walk continues after its sub-blocks or stops with EARLY_EOF |
| ParseProperties.WalkReadsDescriptor | src/ESP32_AnimatedGIF.cpp:594-630 | a descriptor sets x/y/width/height from the little-endian bytes tag+1..tag+8 and flags from tag+9; the cursor ends at tag+10, or at tag+10+3·n after a local table that becomes those bytes; a short table is EARLY_EOF |
| ParseProperties.WalkShortDescriptor | src/ESP32_AnimatedGIF.cpp:596-599 | a descriptor cut short is EARLY_EOF at the tag |
| ParseProperties.ParsedDelayZeroOrAtLeast20 | src/ESP32_AnimatedGIF.cpp:548-577 | after parseFrame the delay is 0 (no graphic-control block) or at least 20 ms |
| ParseProperties.FoundFrameKeepsError | src/ESP32_AnimatedGIF.cpp:630 | a found frame leaves the GIF state alone and the cursor within the data |
| PixelWriter.BytesPerPixel | src/ESP32_AnimatedGIF.cpp:498-513 | 1 to 4 bytes per pixel, and 1 exactly for grayscale and monochrome |
| PixelWriter.PixelInCanvas | src/ESP32_AnimatedGIF.cpp:705 | a canvas pixel's offset y·W+x lies below W·H |
| PixelWriter.PixelOffsetInjective | src/ESP32_AnimatedGIF.cpp:705 | two canvas pixels share an offset only if they are the same pixel |
| PixelWriter.MonoByte | src/ESP32_AnimatedGIF.cpp:740 | the monochrome byte index fits a uint8_t and does not exceed the pixel offset |
| PixelWriter.SetBitBits | src/ESP32_AnimatedGIF.cpp:741-745 | setting or clearing bit j changes that bit to the wanted value and keeps the other seven |
| PixelWriter.Store | src/ESP32_AnimatedGIF.cpp:710-731 | writing bytes at a start index leaves the buffer's length and every byte outside the span, and puts exactly those bytes in the span |
| PixelWriter.StoreWrites | src/ESP32_AnimatedGIF.cpp:710-731 | Store is the one-to-four single-byte writes drawPixel performs |
| PixelWriter.LittleEndian16 | src/ESP32_AnimatedGIF.cpp:710-711 | RGB565_LE stores the low byte first and the two bytes read back as the value |
| PixelWriter.BigEndian16 | src/ESP32_AnimatedGIF.cpp:716-717 | RGB565_BE stores the high byte first and the two bytes read back as the value |
| PixelWriter.PixelBytes | src/ESP32_AnimatedGIF.cpp:707-736 | the bytes of one pixel number exactly the format's bytes per pixel |
| PixelWriter.Plot | src/ESP32_AnimatedGIF.cpp:704-748 | a stored pixel keeps the buffer length and changes no byte outside the pixel's own bytes |
| PixelWriter.PlotStoresBytes | src/ESP32_AnimatedGIF.cpp:707-736 | in a byte-per-channel format the pixel's span holds the format's bytes: 5-6-5 in either order, r g b, 0xFF r g b, or the luminance |
| PixelWriter.PlotSetsBit | src/ESP32_AnimatedGIF.cpp:737-746 | in monochrome, bit 7−(x%8) of byte (offset/8) mod 256 becomes (gray > 127) and its other bits stay |
| PixelWriter.MonochromeStaysInFirstBytes | src/ESP32_AnimatedGIF.cpp:740 | a monochrome pixel never changes a byte at index 256 or beyond |
| Painting.Draw | src/ESP32_AnimatedGIF.cpp:695-750 | an off-canvas pixel changes nothing; any call keeps the buffer's length and leaves an absent buffer absent |
| Painting.CoversPixel | src/ESP32_AnimatedGIF.cpp:679-685 | when the pattern is defined for the rectangle, every pixel's table read is defined |
| Painting.BrushAt | src/ESP32_AnimatedGIF.cpp:679-688 | the background brush always gives its colour; the pattern skips exactly the transparent index `(x+y) % size` |
| Painting.PaintPixel | src/ESP32_AnimatedGIF.cpp:679-690 | one loop body keeps the buffer's shape |
| Painting.PaintRow | src/ESP32_AnimatedGIF.cpp:678-691 | the inner loop keeps the buffer's shape |
| Painting.PaintRows | src/ESP32_AnimatedGIF.cpp:677-692 | the nested loops keep the buffer's shape |
| DecoderState.WithSurface | src/ESP32_AnimatedGIF.cpp:704-748 | writing pixels back changes only the frame buffer and the callback log, and keeps the state coherent |
| DecoderState.DrawPixelStep | src/ESP32_AnimatedGIF.cpp:695-750 | drawPixel keeps the state coherent |
| DecoderState.FillPatternStep | src/ESP32_AnimatedGIF.cpp:672-693 | fillTestPattern changes only the frame buffer and the callback log |
| DecoderState.Dispose | src/ESP32_AnimatedGIF.cpp:752-788 | the disposal half of applyDisposal changes only the frame buffer and the callback log |
| DecoderState.DisposalStep | src/ESP32_AnimatedGIF.cpp:752-809 | after applyDisposal, with buffers, the previous frame equals the frame buffer; only the two buffers and the log change |
| DecoderState.ClearBuffersStep | src/ESP32_AnimatedGIF.cpp:524-544 | allocated buffers become all zeros of their size; nothing else changes |
| DecoderState.AllocateStep | src/ESP32_AnimatedGIF.cpp:489-522 | buffers exist exactly when W·H·bpp > 0, and then both are zeroed at that size; nothing else changes |
| DecoderState.ResetStateStep | src/ESP32_AnimatedGIF.cpp:299-316 | resetState leaves a coherent state with no buffers |
| DecoderState.CleanupStep | src/ESP32_AnimatedGIF.cpp:330-357 | cleanup leaves no data and no buffers |
| DrawingProperties.DrawOffCanvasChangesNothing | src/ESP32_AnimatedGIF.cpp:696 | a pixel off the canvas changes no byte and fires no callback |
| DrawingProperties.DrawOnCanvas | src/ESP32_AnimatedGIF.cpp:695-750 | on the canvas the callback, if set, gets (x, y, RGB565); an allocated buffer changes only in the pixel's bytes; nothing else changes |
| DrawingProperties.PaintPixelElsewhere | src/ESP32_AnimatedGIF.cpp:690 | a loop body leaves any byte its pixel does not land on |
| DrawingProperties.PaintRowElsewhere | src/ESP32_AnimatedGIF.cpp:678-691 | a row leaves any byte none of its pixels land on |
| DrawingProperties.PaintRowsElsewhere | src/ESP32_AnimatedGIF.cpp:677-692 | the rectangle leaves any byte none of its pixels land on |
| DrawingProperties.RowHitsMeans | src/ESP32_AnimatedGIF.cpp:678-691 | the recursive row test is "some pixel of the row lands on the byte" |
| DrawingProperties.RectHitsMeans | src/ESP32_AnimatedGIF.cpp:677-692 | the recursive rectangle test is "some pixel of the rectangle lands on the byte" |
| DrawingProperties.OtherDisposalKeepsFrame | src/ESP32_AnimatedGIF.cpp:752-809 | disposal methods other than 2 and 3 keep the frame buffer and copy it into the previous frame |
| DrawingProperties.RestorePreviousCopiesBack | src/ESP32_AnimatedGIF.cpp:768-787 | method 3 makes the frame buffer the saved previous frame, which stays saved |
| DrawingProperties.BackgroundOutsideTableKeepsFrame | src/ESP32_AnimatedGIF.cpp:753-756 | method 2 paints nothing without a global table or with the background index outside it |
| DrawingProperties.BackgroundRepaintsOnlyFrame | src/ESP32_AnimatedGIF.cpp:753-767 | method 2 changes no byte outside the frame rectangle's pixels; the previous frame becomes a copy |
| DrawingProperties.PatternPaintsOnlyFrame | src/ESP32_AnimatedGIF.cpp:672-693 | the test pattern changes no byte outside the frame rectangle's pixels |
| DecoderSteps.CountFramesStep | src/ESP32_AnimatedGIF.cpp:424-487 | the totals are the pass's frame count mod 2^16 and duration mod 2^32; the cursor ends at 13 + 3·globalSize; nothing else changes |
| DecoderSteps.FinishHeader | src/ESP32_AnimatedGIF.cpp:414-421 | a finished header keeps the state coherent and the frame counter |
| DecoderSteps.GlobalTableStep | src/ESP32_AnimatedGIF.cpp:397-411 | reading the global table keeps the canvas from the header and the frame counter |
| DecoderSteps.TablesStep | src/ESP32_AnimatedGIF.cpp:396-421 | the table read and the finish keep the state coherent and the frame counter |
| DecoderSteps.ScreenStep | src/ESP32_AnimatedGIF.cpp:385-421 | the screen descriptor step keeps the state coherent and the frame counter |
| DecoderSteps.ParseHeaderStep | src/ESP32_AnimatedGIF.cpp:372-422 | parseHeader keeps the state coherent and never moves the frame counter |
| DecoderSteps.ParseFrameStep | src/ESP32_AnimatedGIF.cpp:546-641 | a failure records EARLY_EOF or EMPTY_FRAME; success leaves the GIF state alone; only the cursor, the frame fields, the local table and the error change |
| DecoderSteps.DecodeFrameStep | src/ESP32_AnimatedGIF.cpp:643-670 | succeeds exactly when the code-size byte and the whole sub-block chain are readable, otherwise records DECODE_ERROR; only the cursor, the buffer, the log and the error change |
| DecoderSteps.ResetStep | src/ESP32_AnimatedGIF.cpp:209-214 | reset leaves the frame counter at zero |
| DecoderSteps.Restart | src/ESP32_AnimatedGIF.cpp:179-181 | the restart keeps the state coherent |
| DecoderSteps.PlayStep | src/ESP32_AnimatedGIF.cpp:184-206 | playing a frame keeps the state coherent |
| DecoderSteps.NextFrameStep | src/ESP32_AnimatedGIF.cpp:173-207 | nextFrame keeps the state coherent |
| DecoderSteps.LoadStep | src/ESP32_AnimatedGIF.cpp:62-81 | loadFromMemory keeps the state coherent |
| DecoderSteps.BeginStep | src/ESP32_AnimatedGIF.cpp:54-60 | begin keeps the state coherent |
| HeaderProperties.ShortHeaderNotFound | src/ESP32_AnimatedGIF.cpp:374-377 | a stream shorter than 13 bytes is FILE_NOT_FOUND and nothing else changes |
| HeaderProperties.BadSignatureRefused | src/ESP32_AnimatedGIF.cpp:380-383 | a header starting with neither "GIF89a" nor "GIF87a" is BAD_FILE_FORMAT and nothing else changes |
| HeaderProperties.GoodSignatureProceeds | src/ESP32_AnimatedGIF.cpp:380-385 | a good signature goes on to the screen descriptor |
| HeaderProperties.WideCanvasRefused | src/ESP32_AnimatedGIF.cpp:385-391 | a little-endian width above 800 or height above 600 is FILE_TOO_WIDE with the canvas size recorded and nothing read further |
| HeaderProperties.ScreenReadsDescriptor | src/ESP32_AnimatedGIF.cpp:385-398 | an accepted canvas is recorded with background byte 11, and the cursor moves to 13 before the tables |
| HeaderProperties.GlobalTableFromOffset13 | src/ESP32_AnimatedGIF.cpp:398-411 | with flags bit 7 set the global table has 2^((flags&7)+1) entries and is the bytes from offset 13; a short read is EARLY_EOF with a zeroed table |
| HeaderProperties.NoGlobalTable | src/ESP32_AnimatedGIF.cpp:398-415 | without the flag the header finishes with the tables untouched |
| HeaderProperties.FinishHeaderLeaves | src/ESP32_AnimatedGIF.cpp:414-421 | a parsed header is SUCCESS with the pass's totals, the cursor at 13 + 3·globalSize, the tables kept, and two zeroed buffers of the canvas size (none when that size is zero) |
| HeaderProperties.FinishKeepsTables | src/ESP32_AnimatedGIF.cpp:414-421 | counting frames and allocating buffers keep the tables and the frame fields |
| PlaybackProperties.NextFrameKeepsError | src/ESP32_AnimatedGIF.cpp:174-176 | a recorded error is returned again with no state change (errors are sticky) |
| PlaybackProperties.NextFrameWhenExhausted | src/ESP32_AnimatedGIF.cpp:179-183 | without looping and with every frame played, nextFrame returns EMPTY_FRAME with the counter unchanged, and every later call does the same |
| PlaybackProperties.NextFrameAdvancesByOne | src/ESP32_AnimatedGIF.cpp:173-207 | a SUCCESS return moves the counter to exactly one more than before, or to 1 after a looping restart; it never wraps |
| PlaybackProperties.NextFramePlays | src/ESP32_AnimatedGIF.cpp:178-206 | a SUCCESS return is the restart (when due) followed by one frame played |
| PlaybackProperties.PlayMovesCounter | src/ESP32_AnimatedGIF.cpp:184-198 | a frame played to the end changes the GIF state only in the frame counter |
| PlaybackProperties.NextFrameFailureKeepsCounter | src/ESP32_AnimatedGIF.cpp:184-192 | a parse or decode failure returns the error it recorded (EARLY_EOF, EMPTY_FRAME or DECODE_ERROR) and leaves the counter where the restart left it |
| PlaybackProperties.CompleteMeansEmptyFrame | src/ESP32_AnimatedGIF.cpp:228-230 | when isAnimationComplete holds and no error is recorded, nextFrame answers EMPTY_FRAME |
| PlaybackProperties.ResetRereadsHeader | src/ESP32_AnimatedGIF.cpp:209-214 | reset zeroes the cursor and the counter, clears the buffers, then parses the header from the start |
| PlaybackProperties.LoadTakesInput | src/ESP32_AnimatedGIF.cpp:62-81 | an empty input is INVALID_PARAMETER with no data kept; otherwise the bytes become the stream with the cursor at 0, and the header is parsed |
| Decoder.GifDecoder.constructor | src/ESP32_AnimatedGIF.cpp:26-47 | a new decoder has no stream, loops, is RGB565 little-endian and has no error |
| Decoder.GifDecoder.SetLoop | src/ESP32_AnimatedGIF.cpp:232-234 | only the loop flag changes |
| Decoder.GifDecoder.SetPixelCallback | src/ESP32_AnimatedGIF.cpp:145-148 | only the callback's presence changes |
| Decoder.GifDecoder.IsAnimationComplete | src/ESP32_AnimatedGIF.cpp:228-230 | true exactly when looping is off and every counted frame has been played |
| Decoder.GifDecoder.ResetFrameState | src/ESP32_AnimatedGIF.cpp:318-328 | the frame fields are cleared and nothing else changes |
| Decoder.GifDecoder.ResetState | src/ESP32_AnimatedGIF.cpp:299-316 | the state becomes ResetStateStep of the old one |
| Decoder.GifDecoder.Cleanup | src/ESP32_AnimatedGIF.cpp:330-357 | the state becomes CleanupStep of the old one |
| Decoder.GifDecoder.Begin | src/ESP32_AnimatedGIF.cpp:54-60 | returns true; the state becomes BeginStep of the old one |
| Decoder.GifDecoder.ResetFrameBuffer | src/ESP32_AnimatedGIF.cpp:524-544 | both arrays are zeroed in place, as ClearBuffersStep says |
| Decoder.GifDecoder.AllocateFrameBuffer | src/ESP32_AnimatedGIF.cpp:489-522 | fresh zeroed arrays of the canvas size, as AllocateStep says |
| Decoder.GifDecoder.DrawPixel | src/ESP32_AnimatedGIF.cpp:695-750 | the array and the callback log change as Draw says |
| Decoder.GifDecoder.DrawBrushPixel | src/ESP32_AnimatedGIF.cpp:679-690 | one loop body changes the array as PaintPixel says |
| Decoder.GifDecoder.DrawRow | src/ESP32_AnimatedGIF.cpp:678-691 | the inner loop changes the array as PaintRow says |
| Decoder.GifDecoder.DrawRect | src/ESP32_AnimatedGIF.cpp:677-692 | the nested loops change the array as PaintRows says |
| Decoder.GifDecoder.FillTestPattern | src/ESP32_AnimatedGIF.cpp:672-693 | the state becomes FillPatternStep of the old one |
| Decoder.GifDecoder.ApplyDisposal | src/ESP32_AnimatedGIF.cpp:752-809 | the state becomes DisposalStep of the old one (memcpy into the existing arrays) |
| Decoder.GifDecoder.ParseHeader | src/ESP32_AnimatedGIF.cpp:372-422 | the state becomes ParseHeaderStep of the old one and the result is the recorded error |
| Decoder.GifDecoder.ParseScreen | src/ESP32_AnimatedGIF.cpp:385-422 | the state becomes ScreenStep of the old one |
| Decoder.GifDecoder.ReadTables | src/ESP32_AnimatedGIF.cpp:396-422 | the state becomes TablesStep of the old one |
| Decoder.GifDecoder.ReadGlobalTable | src/ESP32_AnimatedGIF.cpp:397-411 | the state and the success flag are GlobalTableStep of the old state |
| Decoder.GifDecoder.CompleteHeader | src/ESP32_AnimatedGIF.cpp:414-421 | the state becomes FinishHeader of the old one |
| Decoder.GifDecoder.ParseFrame | src/ESP32_AnimatedGIF.cpp:546-641 | the state and the result are ParseFrameStep of the old state |
| Decoder.GifDecoder.DecodeFrame | src/ESP32_AnimatedGIF.cpp:643-670 | the state and the result are DecodeFrameStep of the old state |
| Decoder.GifDecoder.Reset | src/ESP32_AnimatedGIF.cpp:209-214 | the state becomes ResetStep of the old one |
| Decoder.GifDecoder.NextFrame | src/ESP32_AnimatedGIF.cpp:173-207 | the state and the result are NextFrameStep of the old state |
| Decoder.GifDecoder.PlayFrame | src/ESP32_AnimatedGIF.cpp:184-206 | the state and the result are PlayStep of the old state |
| Decoder.GifDecoder.DecodeAndDispose | src/ESP32_AnimatedGIF.cpp:189-206 | decodeFrame, then applyDisposal and the counter moved on mod 2^16 |
| Decoder.GifDecoder.LoadFromMemory | src/ESP32_AnimatedGIF.cpp:62-81 | the state becomes LoadStep of the old one and the result is the recorded error |
| Decoder.SkipImageData | src/ESP32_AnimatedGIF.cpp:648-664 | the loop succeeds exactly when the code-size byte and the whole chain after it are readable, and stops where SkipSubBlocks stops |
| Decoder.WalkFrame | src/ESP32_AnimatedGIF.cpp:550-640 | the cursor loop's result is ParseFrameFrom from the starting cursor; with no data it is EARLY_EOF or EMPTY_FRAME by the recorded length |
| Decoder.WalkExtension | src/ESP32_AnimatedGIF.cpp:556-593 | one extension block moves the cursor and the frame fields as the walk does |
| Decoder.WalkDescriptor | src/ESP32_AnimatedGIF.cpp:594-630 | one image descriptor is read as the walk reads it |
| Decoder.CountPass | src/ESP32_AnimatedGIF.cpp:424-484 | the loop's counters are the pass's frame count mod 2^16 and duration mod 2^32 |
| Decoder.WrapAdd | src/ESP32_AnimatedGIF.cpp:434-466 | adding to a wrapped counter gives the wrapped total |
| Decoder.ScanOne | src/ESP32_AnimatedGIF.cpp:431-483 | one loop body is ScanBlock; with no data the first read breaks the loop |
| Decoder.SkipChain | src/ESP32_AnimatedGIF.cpp:448-455 | the sub-block loop ends where SkipSubBlocks says, with its success flag |
| Decoder.CopyBuffer | src/ESP32_AnimatedGIF.cpp:786-807 | the destination array becomes a copy of the source array |
| Decoder.StorePixel | src/ESP32_AnimatedGIF.cpp:704-748 | the array's bytes become Plot of the old bytes |

## Left out

- The `DataReader` source (`load`, and the `_reader` branch of `readData`) is not modelled. Only the in-memory path is.
- LZW decompression and interlaced row order are not modelled. The source has neither: `decodeFrame` skips the image's sub-blocks and paints the test pattern. The interlace bit is only reported.
- `delay(_frameDelay)` in `nextFrame` and the `syncDelay` flag are left out, because they are a blocking sleep. `setScale` and `setDisplaySize` are left out: they store values that nothing reads.
- Allocation always succeeds. A zero size gives no buffer, as `allocateMemory` returns null for it. PSRAM selection, freeing, and the global table that `parseHeader` does not free are left out.
- The pixel callback is recorded as a ghost log of its calls. The frame callback is stored but never called, so it is left out.
- `getErrorMessage`, the getters, `getInfo`, `getFrameInfo` and the public forwarding wrappers are left out: they only copy fields.
- The model does not capture the wrap of the 32-bit cursor past 2^32. countFrames can reach it for streams whose length is within 777 bytes of 2^32: after a descriptor it resumes up to 3·256+1 bytes beyond the flag byte, past the end of the data, and a sub-block length can carry it up to 255 bytes past the end. The source's `pos` then wraps and the pass rescans from near the start; the model's cursor is unbounded and the pass stops.
- DecoderState.TestPatternDefined: fillTestPattern reads table words outside the table and divides by `_localColorTableSize`, which is zero for a stream with only a global table. Both are undefined behaviour, so the model requires that neither happens. DecoderSteps.DecodeDefined, DecoderSteps.PlayDefined and DecoderSteps.AdvanceDefined pass this requirement up to decodeFrame and nextFrame. For an ordinary GIF (global table only, with a frame buffer) this excludes painting any non-empty frame.
- DecoderState.DisposalDefined: the restore-to-background colour is a 32-bit read at byte 4·background. The model requires it to lie inside the 3·size-byte global table.
- ColorUtils.Rgb565: the bit layout is stated with division and remainder (bits 11-15 as `c / 2048`, and so on), not as shifts and masks.
- DecoderState.Initial: the constructor leaves `_backgroundColor` uninitialised. The model takes it as 0.
- PlaybackProperties.NextFrameFailureKeepsCounter: after a looping restart a failure leaves the counter at 0, where `reset` put it, not at its value before the call. This is what the code does.

## Findings

| source | as written | input that shows it | evidently intended | confidence | as-written member | corrected member |
|---|---|---|---|---|---|---|
| src/ESP32_AnimatedGIF.cpp:435-442 | countFrames tests the local-table flag at tag+10, the first byte after the descriptor, and skips the table and its sub-blocks from there | `OneFrameGif` = `2C 00 00 00 00 01 00 01 00 80 02 00 00 00 00 00 02 01 2C 00 3B`: the pass counts 2 frames, but parseFrame and decodeFrame find one frame and then the trailer. With looping on, the second nextFrame does not restart (src/ESP32_AnimatedGIF.cpp:179-181) and records a sticky EMPTY_FRAME | the flag at tag+9, where parseFrame reads it (src/ESP32_AnimatedGIF.cpp:596, 605), so the count equals the frames playback finds | not executed | ScanFinding.ScanCountsFrameInsideImageData | ScanFinding.IntendedScanCountsPlayableFrames |
