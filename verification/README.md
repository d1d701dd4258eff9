# Verified model of the ESP32 flight-bridge components

This project models six parts of the firmware in Dafny and proves what they are for. Each part has
a specification written independently of the code (a T.81 decoder, a document printer and reader, a
bit-by-bit CRC register, a plain map, a textbook bracket stack, a list of messages), the code as it
runs (classes and arrays updated in place), and lemmas that connect the two.

| part | files |
|---|---|
| Baseline JPEG encoder and a complete decoder for its files | Bits, HuffmanCode, StandardTables, BlockCoding, BitWriter, Dct, RealDct, Quantize, ImageModel, Colour, ImageCoding, JpegFile, JpegRoundTrip, SharedTables, JpegEncoder, ToJpg |
| JSON tokenizer and generator, and their round trip | Jsmn, JsmnParser, JsmnProperties, Numerals, MtoJson, JsonGenerator, JsonDoc, JsonMeaning, Rfc8259, JsonRoundTrip, JsonReader, JsonNames, JsonLayout, JsonSpelling |
| Buffered file transfer into flash memory | Crc32, Flash, FlashSession, FlashContent, Handover, FlashAlignment, RamFile, FlashTransfer, FlushingFile |
| UART buffer hand-off between two tasks | CircularBuffer, CircularSwap, UartHandoff |
| AVI chunk writer and index-less reader | Avi |
| Routing table and notification recursion | EndpointVariant, RoutingTable, Notification |

`dafny verify dfyconfig.toml` verifies everything.

What is false of the code, with the exact condition under which it holds:

- Object names are written without escaping. A printed document is read back from its tokens exactly when
  no name has a quote or a backslash (`JsonNames.TokenizedIffPlain`, `JsonNames.BackslashName`). Control
  characters in strings are passed through, so a string conforms to RFC 8259 exactly when it has none
  (`JsonReader.EscapedIsJson`).
- The tokenizer takes brackets inside unquoted values for part of the value: it accepts `a{`
  (`JsmnProperties.BracketInPrimitive`). After success, all brackets outside strings match by kind exactly
  when no unquoted value holds an opening bracket (`JsmnProperties.AllBracketsMatchIff`).
- A flush that starts in the middle of a page is written to the start of that page, and the size of an
  empty file is written as 2^32 - 4 (`FlashContent.EmptyFile`). Every file of given flush sizes is stored
  correctly exactly when all flushes start at page boundaries and, with a header, there are bytes
  (`FlashAlignment.AlignmentIsExact`). For downloads through the buffer the sizes follow from the pieces
  (`FlashAlignment.DownloadIsExact`): with a header and a buffer of whole pages, as configured, exactly the
  nonempty downloads that fit in the buffer are stored correctly (`FlashAlignment.WholePagesExact`), and no
  buffer size stores all files that come in one piece longer than two buffers (`FlashAlignment.LongPieceMisaligned`).
- The 16-bit fields of the JPEG frame header hold the dimensions exactly when both fit
  (`JpegRoundTrip.ApplySof`).
- The reader task always gets a buffer exactly when there are at least two (`UartHandoff.ServedIffTwo`).
- Opening a port with an unknown transport makes no socket call and still installs a UDP rule
  (`Notification.ProcessOpen`). A seek before the start of the RAM file ends at its end
  (`RamFile.SingleBufferRamFile.Seek`).

Where comments and code differ, the code is followed: the Salute header size is stored in native byte
order (little-endian here) although two constants name big-endian
(components/buffered_file_transfer/buffered_file_transfer/process/SaluteFlashMemoryTransferImplementor.cpp:19-20).

## Model

| member | source | states |
|---|---|---|
| HuffmanCode.CodesFitIffKraft | components/lib/ov2640/ov2640/conversions/jpge.cpp:146-179 | For any ordered list of code lengths, every canonical code fits its length if and only if the lengths satisfy Kraft's inequality |
| HuffmanCode.CodeRecurrence | components/lib/ov2640/ov2640/conversions/jpge.cpp:163-171 | The canonical codes, defined as leading bits of cumulated shares, obey the recurrence of T.81, Annex C.2 |
| HuffmanCode.CodesConsecutive | components/lib/ov2640/ov2640/conversions/jpge.cpp:163-171 | Codes of one length are consecutive numbers |
| HuffmanCode.PrefixFree | components/lib/ov2640/ov2640/conversions/jpge.cpp:146-179 | No code is a prefix of another one |
| HuffmanCode.DistinctLookup | components/lib/ov2640/ov2640/conversions/jpge.cpp:146-179 | With distinct symbols, each listed symbol gets the code and size of its own position |
| HuffmanCode.GenerateSizes | components/lib/ov2640/ov2640/conversions/jpge.cpp:153-161 | The loop lists code lengths in order, followed by a zero, and returns how many there are |
| HuffmanCode.GenerateCodes | components/lib/ov2640/ov2640/conversions/jpge.cpp:163-171 | The code loop terminates, its 32-bit register never wraps, and it yields the canonical code of every position |
| HuffmanCode.ComputeHuffmanTable | components/lib/ov2640/ov2640/conversions/jpge.cpp:146-179 | The filled arrays hold, for each of the 256 symbols, its canonical code and size, or zero when the table has none |
| HuffmanCode.DecodeCode | components/lib/ov2640/ov2640/conversions/jpge.cpp:146-179 | The DECODE procedure of T.81, F.2.2.3, applied to the p-th code and any following bits, returns the p-th symbol and exactly the following bits |
| HuffmanCode.DecodeSymbolBits | components/lib/ov2640/ov2640/conversions/jpge.cpp:146-179 | Decoding undoes coding for every symbol that has a code |
| StandardTables.LumComplete | components/lib/ov2640/ov2640/conversions/jpge.cpp:43-53 | The luminance tables are usable and have a code for every DC category up to 11 and every AC symbol with category up to 10 |
| StandardTables.ChromaComplete | components/lib/ov2640/ov2640/conversions/jpge.cpp:54-64 | The chrominance tables likewise |
| BlockCoding.ExtendMagnitude | components/lib/ov2640/ov2640/conversions/jpge.cpp:425-437 | EXTEND of T.81, Figure F.12, recovers a value from its category and the low bits the encoder sends, negative values included |
| BlockCoding.DecodeAcBits | components/lib/ov2640/ov2640/conversions/jpge.cpp:439-465 | From any coefficient with any number of outstanding zeros, the AC procedure of T.81, Figure F.13, completes the block as it was coded, runs of sixteen and end of block included |
| BlockCoding.DecodeBlockBits | components/lib/ov2640/ov2640/conversions/jpge.cpp:404-466 | Decoding a coded block gives back its DC value and all AC coefficients, and leaves what follows |
| BlockCoding.DecodeScanBits | components/lib/ov2640/ov2640/conversions/jpge.cpp:404-466 | Decoding a scan of any blocks in range, with DC prediction per component, gives back exactly those blocks |
| BlockCoding.ScanBitsAppend | components/lib/ov2640/ov2640/conversions/jpge.cpp:422-423 | Coding one more block only appends its bits, predicted from the previous block of its component |
| BlockCoding.BoundedScanCodable | components/lib/ov2640/ov2640/conversions/jpge.cpp:404-466 | Blocks with DC in [-1024,1016] and AC within 1023 are codable in any order: DC differences fit 11 bits |
| Bits.UnstuffStuff | components/lib/ov2640/ov2640/conversions/jpge.cpp:181-211 | A reader that drops stuffed zeros recovers the data and finds the first real marker after it |
| Bits.UnpackPack | components/lib/ov2640/ov2640/conversions/jpge.cpp:198-211 | Bytes made of whole bit strings give the same bits back |
| BitWriter.PendingMore | components/lib/ov2640/ov2640/conversions/jpge.cpp:201-202 | Or-ing new bits below the pending ones at bit 24 of the register concatenates the two numbers |
| BitWriter.PendingByte | components/lib/ov2640/ov2640/conversions/jpge.cpp:204-208 | The byte taken from the register is exactly the oldest eight pending bits, and the shift keeps the others in place |
| BitWriter.EntropyWriter.PutBits | components/lib/ov2640/ov2640/conversions/jpge.cpp:198-211 | Output bytes with stuffing removed, followed by fewer than 8 pending bits, equal all bits put so far; every 0xFF is followed by 0x00 |
| BitWriter.EntropyWriter.EmitByte | components/lib/ov2640/ov2640/conversions/jpge.cpp:190-196 | A byte is appended to what is written or buffered, the buffer being flushed when full; failure is sticky |
| BitWriter.EntropyWriter.FlushOutputBuffer | components/lib/ov2640/ov2640/conversions/jpge.cpp:181-188 | The buffered bytes reach the stream in order, or the failure is recorded |
| BitWriter.SevenOnesPad | components/lib/ov2640/ov2640/conversions/jpge.cpp:655-672 | Seven final one-bits leave exactly the data padded to whole bytes with ones, as T.81, F.1.2.3, asks; no data bit stays behind |
| Dct.DctMul | components/lib/ov2640/ov2640/conversions/jpge.cpp:112 | The product with a cast operand is the true product whenever the operand is in the 16-bit range |
| Dct.Dct1DLinear | components/lib/ov2640/ov2640/conversions/jpge.cpp:109-127 | For sums bounded as in a block, no 16-bit cast changes a value and no 32-bit sum overflows: each output is one fixed integer combination of the inputs |
| Dct.RowBounds | components/lib/ov2640/ov2640/conversions/jpge.cpp:129-139 | Row outputs for 8-bit samples, and their legality for the next pass |
| Dct.FirstColumnBounds | components/lib/ov2640/ov2640/conversions/jpge.cpp:140-143 | DC ends in [-1024,1016], the rest of its column within 1020 |
| Dct.OtherColumnBounds | components/lib/ov2640/ov2640/conversions/jpge.cpp:140-143 | All other coefficients end within 1020 |
| Dct.Dct2D | components/lib/ov2640/ov2640/conversions/jpge.cpp:129-143 | For any block of 8-bit samples: 64 results, DC in [-1024,1016], every AC within 1020 |
| Dct.Dct2DInPlace | components/lib/ov2640/ov2640/conversions/jpge.cpp:129-143 | Rows and then columns transformed in place give that block |
| Dct.NearlyOrthogonal | components/lib/ov2640/ov2640/conversions/jpge.cpp:109-143 | The rows of the 13-bit rounded cosine matrix are orthogonal and of squared length 2^29, up to the rounding of its entries |
| Dct.DctAccuracy | components/lib/ov2640/ov2640/conversions/jpge.cpp:129-143 | Every coefficient of every block is within 7/8 of the transform by the rounded matrix |
| RealDct.CosinesUnique | components/lib/ov2640/ov2640/conversions/jpge.cpp:109-127 | The half-angle formula, with positive values, determines the cosines of the multiples of pi / 16 over the reals |
| RealDct.RowIsRounded | components/lib/ov2640/ov2640/conversions/jpge.cpp:109-127 | Every entry of the rounded matrix is within 0.49 of 8192 * sqrt(2) * C(k) * cos((2n + 1) * k * pi / 16) |
| RealDct.MatrixAccuracy | components/lib/ov2640/ov2640/conversions/jpge.cpp:129-143 | On 8-bit samples the rounding of the matrix changes a coefficient by at most 1/8 |
| RealDct.DctWithinOne | components/lib/ov2640/ov2640/conversions/jpge.cpp:129-143 | Every coefficient of every block of 8-bit samples is within one of the FDCT of T.81, A.3.3, over the reals |
| Quantize.FinerWithQuality | components/lib/ov2640/ov2640/conversions/jpge.cpp:549-562 | A higher quality never gives a coarser quantiser step |
| Quantize.EntryScaled | components/lib/ov2640/ov2640/conversions/jpge.cpp:549-562 | A table entry is the base value divided by q / 50 below quality 50, times (100 - q) / 50 from there on, rounded, with the percentage rounded down first, within 1 and 255 |
| Quantize.EntryAnchors | components/lib/ov2640/ov2640/conversions/jpge.cpp:549-562 | Quality 50 keeps the base tables, quality 100 gives steps of one |
| Quantize.StandardIsAnnexK | components/lib/ov2640/ov2640/conversions/jpge.cpp:41-42 | The base tables are T.81, Tables K.1 and K.2, in zig-zag order |
| Quantize.QuantizeNearest | components/lib/ov2640/ov2640/conversions/jpge.cpp:383-401 | A quantised coefficient stands for the multiple of its step nearest to the coefficient, ties away from zero, and keeps its sign |
| Quantize.ZagIsZigZag | components/lib/ov2640/ov2640/conversions/jpge.cpp:40 | The order table follows the zig-zag path of T.81, Figure A.6 |
| Quantize.ZagOnto | components/lib/ov2640/ov2640/conversions/jpge.cpp:40 | It visits every coefficient |
| Quantize.QuantizedInRange | components/lib/ov2640/ov2640/conversions/jpge.cpp:379-402 | After quantisation by any table of steps 1 to 255 the coefficients stay in the range the standard Huffman tables cover |
| ImageModel.McuRowSample | components/lib/ov2640/ov2640/conversions/jpge.cpp:510-546 | A sample of an MCU row is the colour-converted source sample at that place, or at the nearest place when it lies beyond the right or lower edge |
| ImageModel.BlockSample | components/lib/ov2640/ov2640/conversions/jpge.cpp:319-377 | Each sample is an 8-bit value or a rounded mean of two or four of them, centred on zero |
| Colour.LumaClose | components/lib/ov2640/ov2640/conversions/jpge.cpp:86-92 | The luminance of every pixel is within 1 of 0.299 r + 0.587 g + 0.114 b over the reals |
| Colour.BlueClose | components/lib/ov2640/ov2640/conversions/jpge.cpp:86-93 | The first colour difference is within 1 of 128 + (b - y) / 1.772, limited to a byte |
| Colour.RedClose | components/lib/ov2640/ov2640/conversions/jpge.cpp:86-93 | The second colour difference is within 1 of 128 + (r - y) / 1.402, limited to a byte |
| Colour.GreyPixels | components/lib/ov2640/ov2640/conversions/jpge.cpp:86-108 | A grey pixel v is coded as (v, 128, 128) |
| Colour.LineClose | components/lib/ov2640/ov2640/conversions/jpge.cpp:475-508 | A stored scanline holds, within 1, the luminance and colour differences of its pixels in order, the last one repeated |
| Colour.RowSampleClose | components/lib/ov2640/ov2640/conversions/jpge.cpp:475-546 | Every sample of an MCU row is, within 1, the luminance or colour difference of the picture at its place, the nearest pixel standing in beyond the edges |
| Colour.BlockSampleClose | components/lib/ov2640/ov2640/conversions/jpge.cpp:319-377 | Every sample that is transformed is, within 1.75 and less 128, that of its place of the picture, or the mean of its two or four places |
| ImageCoding.ImageBlocksCodable | components/lib/ov2640/ov2640/conversions/jpge.cpp:319-402 | Whatever the image, every DC difference and every AC coefficient of its scan has a code |
| ImageCoding.ImageBlocksComponents | components/lib/ov2640/ov2640/conversions/jpge.cpp:475-508 | r MCU rows code exactly r times the MCUs of a row, with the components in the order of the sampling mode |
| ImageCoding.ImageBlocksStable | components/lib/ov2640/ov2640/conversions/jpge.cpp:510-546 | A further scanline never changes the blocks of MCU rows that are complete |
| SharedTables.Tables.ComputeQuantTable | components/lib/ov2640/ov2640/conversions/jpge.cpp:549-562 | The stored table is the standard one scaled to the quality and clamped |
| SharedTables.Tables.Prepare | components/lib/ov2640/ov2640/conversions/jpge.cpp:616-634 | After preparation the shared tables are right for this quality, whether they were cached or not |
| JpegEncoder.Encoder.CodeCoefficientsPassTwo | components/lib/ov2640/ov2640/conversions/jpge.cpp:404-466 | The bits appended are those of the next block of the scan, and the DC prediction of its component becomes the block's DC |
| JpegEncoder.Encoder.LoadQuantizedCoefficients | components/lib/ov2640/ov2640/conversions/jpge.cpp:379-402 | The coefficient array becomes the quantised block in zig-zag order |
| JpegEncoder.Encoder.CodeBlock | components/lib/ov2640/ov2640/conversions/jpge.cpp:468-473 | Transform, quantisation and coding of the loaded samples append exactly one block to the scan |
| JpegEncoder.Encoder.LoadBlock8x8Grey | components/lib/ov2640/ov2640/conversions/jpge.cpp:319-330 | The samples are those of the grey block of the MCU |
| JpegEncoder.Encoder.LoadBlock8x8 | components/lib/ov2640/ov2640/conversions/jpge.cpp:332-344 | The samples are those of the full-resolution block at the given place of the MCU |
| JpegEncoder.Encoder.LoadBlock16x8 | components/lib/ov2640/ov2640/conversions/jpge.cpp:346-362 | The samples are the 2x2 means with alternating rounding |
| JpegEncoder.Encoder.LoadBlock16x8x8 | components/lib/ov2640/ov2640/conversions/jpge.cpp:364-377 | The samples are the horizontal means |
| JpegEncoder.Encoder.ProcessMcu | components/lib/ov2640/ov2640/conversions/jpge.cpp:475-508 | One MCU appends its blocks in the order of the sampling mode |
| JpegEncoder.Encoder.ProcessMcuRow | components/lib/ov2640/ov2640/conversions/jpge.cpp:475-508 | A filled line buffer appends the blocks of all MCUs of the row |
| JpegEncoder.Encoder.StoreLine | components/lib/ov2640/ov2640/conversions/jpge.cpp:514-534 | The buffer line becomes the colour-converted scanline extended by its last pixel |
| JpegEncoder.Encoder.LoadMcu | components/lib/ov2640/ov2640/conversions/jpge.cpp:510-546 | After each scanline: complete MCU rows are coded, the other lines are buffered |
| JpegEncoder.Encoder.RepeatLastLine | components/lib/ov2640/ov2640/conversions/jpge.cpp:657-662 | The buffer is completed with copies of the last line |
| JpegEncoder.Encoder.ProcessEndOfImage | components/lib/ov2640/ov2640/conversions/jpge.cpp:655-672 | The stream then holds the header, the padded and stuffed scan of all begun MCU rows, and the end marker |
| JpegEncoder.Encoder.Open | components/lib/ov2640/ov2640/conversions/jpge.cpp:601-653 | Without write failure the header for the configuration is written and the scan starts empty with zero predictions |
| JpegEncoder.Encoder.ProcessScanline | components/lib/ov2640/ov2640/conversions/jpge.cpp:706-718 | Scanlines are taken until the end call, which leaves the complete file; afterwards, or after a failed write, it reports failure |
| JpegEncoder.EmitSof | components/lib/ov2640/ov2640/conversions/jpge.cpp:254-268 | The frame header segment for the configuration is appended |
| JpegEncoder.EmitDht | components/lib/ov2640/ov2640/conversions/jpge.cpp:271-287 | A table is written as its class, its sixteen counts and exactly as many symbols as they announce |
| JpegEncoder.EmitHeader | components/lib/ov2640/ov2640/conversions/jpge.cpp:644-650 | All marker segments before the scan, in order |
| JpegRoundTrip.ParseHeader | components/lib/ov2640/ov2640/conversions/jpge.cpp:213-317 | A decoder reading the header recovers quantisers, Huffman tables, frame and scan parameters |
| JpegRoundTrip.ApplySof | components/lib/ov2640/ov2640/conversions/jpge.cpp:254-268 | The frame header announces the image's dimensions if and only if both fit 16 bits |
| JpegRoundTrip.OrderMatches | components/lib/ov2640/ov2640/conversions/jpge.cpp:475-508 | The block order a T.81 decoder derives from the frame (A.2) is the encoder's |
| JpegRoundTrip.DecodeFile | components/lib/ov2640/ov2640/conversions/jpge.cpp:564-672 | A complete T.81 baseline decoder applied to the file returns the dimensions, the quantisers and every quantised block |
| ToJpg.FeedScanlines | components/lib/ov2640/ov2640/conversions/to_jpg.cpp:130-137 | All scanlines are taken in order |
| ToJpg.AllRowsBegun | components/lib/ov2640/ov2640/conversions/jpge.cpp:510-546 | After h scanlines exactly ceil(h / mcu_y) MCU rows are begun |
| ToJpg.EncodeImage | components/lib/ov2640/ov2640/conversions/to_jpg.cpp:117-145 | A finished image leaves the file of exactly the blocks of its MCU rows |
| ToJpg.ConvertImage | components/lib/ov2640/ov2640/conversions/to_jpg.cpp:97-146 | For any picture, grey or colour, given as converted lines, and any quality: a conversion succeeds when no write fails, and a successful one leaves a file that decodes to all its blocks; a picture without pixels is refused |
| ToJpg.ImageBlockAt | components/lib/ov2640/ov2640/conversions/jpge.cpp:475-508 | Where in the scan each block of each MCU is |
| ToJpg.BlockAccuracy | components/lib/ov2640/ov2640/conversions/jpge.cpp:379-402 | A decoder that multiplies by the step misses the FDCT of T.81, A.3.3, by at most half a step plus one |
| ToJpg.ImageAccuracy | components/lib/ov2640/ov2640/conversions/jpge.cpp:319-402 | The same for every block of every image, whose samples are those of the picture at the places of the block: luminance or colour difference, within 1.75 |
| Jsmn.PrimitiveEnd | components/lib/jsmn/jsmn/jsmn.h:143-171 | An unquoted value ends at the first delimiter, at the end, or is invalid at a character that is not printable |
| Jsmn.StringEnd | components/lib/jsmn/jsmn/jsmn.h:200-255 | A successful scan ends at a quote inside the text; otherwise the text is invalid or incomplete |
| JsonLayout.ScanBody | components/lib/jsmn/jsmn/jsmn.h:187-263 | Every string body with the escapes of RFC 8259, section 7, is scanned to its closing quote, control characters other than NUL let through |
| JsonLayout.ScannedBody | components/lib/jsmn/jsmn/jsmn.h:187-263 | Conversely, what a successful scan has passed is such a body |
| Rfc8259.BodyIsLax | components/lib/jsmn/jsmn/jsmn.h:187-263 | A body the scan passes is a string of RFC 8259, section 7, if and only if it has no control character |
| JsonLayout.WordExact | components/lib/jsmn/jsmn/jsmn.h:135-185 | An unquoted value is exactly the printable characters up to whitespace, one of : , ] } or the end |
| JsonLayout.LexemeRead | components/lib/jsmn/jsmn/jsmn.h:265-450 | Every lexeme of RFC 8259, sections 2, 3, 6 and 7, is read as a whole wherever it stands |
| JsonLayout.LayoutsAgree | components/lib/jsmn/jsmn/jsmn.h:265-450 | Two texts of lexemes of the same shapes, with any whitespace of RFC 8259, section 2, between them and any spelling of strings and words, have the same outcome and tokens of the same kinds and sizes, also when parsing fails |
| JsonLayout.TextsShown | components/lib/jsmn/jsmn/jsmn.h:265-450 | After success every scalar token spans exactly the text of its lexeme |
| JsonSpelling.AnyLayout | components/lib/jsmn/jsmn/jsmn.h:265-450 | A document with any whitespace around its brackets, commas, colons and values parses with the kinds, sizes and texts of the tokens of its compact text, and is read back |
| JsonSpelling.AnySpelling | components/lib/jsmn/jsmn/jsmn.h:265-450 | Every document in any JSON spelling and layout gives one token per node and name in document order, of its kinds and child counts, each scalar token spanning what stands in the text |
| Jsmn.Advance | components/lib/jsmn/jsmn/jsmn.h:272-438 | Every lexeme that is accepted moves the position to its end and keeps the parser state well formed |
| Jsmn.Run | components/lib/jsmn/jsmn/jsmn.h:265-450 | The result of a call is the number of tokens, with the whole text consumed |
| JsmnParser.Parser.AllocToken | components/lib/jsmn/jsmn/jsmn.h:106-119 | The next token is taken from the pool, or nothing changes when it is exhausted |
| JsmnParser.Parser.ParsePrimitive | components/lib/jsmn/jsmn/jsmn.h:135-185 | One token for the unquoted value, or an error with position and tokens restored |
| JsmnParser.Parser.ParseString | components/lib/jsmn/jsmn/jsmn.h:190-260 | One token for the text between the quotes, or an error with position and tokens restored |
| JsmnParser.Parser.SkipHex | components/lib/jsmn/jsmn/jsmn.h:228-241 | At most four hexadecimal digits are skipped |
| JsmnParser.Parser.FindOpen | components/lib/jsmn/jsmn/jsmn.h:334-356 | The backward search finds the innermost open container |
| JsmnParser.Parser.CloseContainer | components/lib/jsmn/jsmn/jsmn.h:303-357 | The innermost open container of the same kind is closed and its encloser becomes superior; otherwise nothing changes |
| JsmnParser.Parser.Comma | components/lib/jsmn/jsmn/jsmn.h:376-393 | The superior token after a comma |
| JsmnParser.Parser.Parse | components/lib/jsmn/jsmn/jsmn.h:265-450 | The in-place parser computes exactly the state machine's tokens, state and result |
| JsmnParser.Parser.ParseCounting | components/lib/jsmn/jsmn/jsmn.h:265-450 | Without a token array only lexemes are read and counted |
| JsmnProperties.CountingAgrees | components/lib/jsmn/jsmn/jsmn.h:265-450 | The counting call returns what every successful call with tokens returns |
| JsmnProperties.RoomIsExact | components/lib/jsmn/jsmn/jsmn.h:106-119 | An array with the counted number of tokens never runs out of room, and a smaller one never suffices |
| JsmnProperties.Resume | components/lib/jsmn/jsmn/jsmn.h:284-287 | Resuming after running out of room, with a larger array, ends exactly as one call with the larger array |
| JsmnProperties.BracketsMatched | components/lib/jsmn/jsmn/jsmn.h:302-357 | From any state, with room, parsing succeeds if and only if the lexemes are well formed and the brackets match by a textbook stack; container tokens then span exactly the matching pairs |
| JsmnProperties.ParseMatchesBrackets | components/lib/jsmn/jsmn/jsmn.h:265-450 | The same from a fresh parser |
| JsmnProperties.AllBracketsMatchIff | components/lib/jsmn/jsmn/jsmn.h:272-447 | After success all brackets outside strings match by kind, those inside unquoted values included, if and only if no unquoted value holds an opening bracket |
| JsmnProperties.BracketInPrimitive | components/lib/jsmn/jsmn/jsmn.h:143-163 | The text a{ is accepted as one token, though its bracket is not matched |
| JsmnProperties.ParseSpans | components/lib/jsmn/jsmn/jsmn.h:265-450 | After success nothing is open, token starts strictly increase, spans are nested or disjoint, containers run between brackets of their kind, strings end at their first quote that is not escaped |
| Numerals.NumeralValue | components/lib/mtojson/mtojson/mtojson.c:154-171 | A numeral denotes its number and has no leading zero |
| Numerals.NumeralShortest | components/lib/mtojson/mtojson/mtojson.c:154-171 | No digit string of the same value is shorter |
| Numerals.Magnitude | components/lib/mtojson/mtojson/mtojson.c:296-384 | Negation after conversion to unsigned gives the magnitude, the most negative value included |
| MtoJson.RenderIntValue | components/lib/mtojson/mtojson/mtojson.c:296-366 | Signed numerals read back as the number |
| JsonGenerator.Generator.ReduceRemLen | components/lib/mtojson/mtojson/mtojson.c:70-77 | Space is granted exactly when there is enough, and counted down |
| JsonGenerator.Generator.StrcpyVal | components/lib/mtojson/mtojson/mtojson.c:79-86 | A text is written exactly when it fits |
| JsonGenerator.Generator.Utoa | components/lib/mtojson/mtojson/mtojson.c:154-209 | The numeral is written backwards in place exactly when it fits |
| JsonGenerator.Generator.FindEscape | components/lib/mtojson/mtojson/mtojson.c:121-130 | The nearest quote or backslash, by two searches |
| JsonGenerator.Generator.GenString | components/lib/mtojson/mtojson/mtojson.c:107-152 | Succeeds exactly when the quoted and escaped text fits, and then has written it and nothing else |
| JsonGenerator.Generator.GenHex | components/lib/mtojson/mtojson/mtojson.c:211-294 | Likewise for quoted base-16 numerals |
| JsonGenerator.Generator.GenInt | components/lib/mtojson/mtojson/mtojson.c:296-384 | Likewise for signed numbers of every width |
| JsonGenerator.Generator.GenCArray | components/lib/mtojson/mtojson/mtojson.c:492-601 | Likewise for C arrays; a type that cannot be stepped through is refused unless the array is empty |
| JsonGenerator.Generator.GenArray | components/lib/mtojson/mtojson/mtojson.c:603-630 | Likewise for arrays ended by a structure without value |
| JsonGenerator.Generator.GenObject | components/lib/mtojson/mtojson/mtojson.c:632-674 | Likewise for objects ended by a structure without name |
| JsonGenerator.Generator.GenValue | components/lib/mtojson/mtojson/mtojson.c:38-66 | Likewise for every type of value |
| JsonGenerator.Generator.JsonGenerate | components/lib/mtojson/mtojson/mtojson.c:686-722 | Returns the length exactly when the rendering and its terminator fit and can be made, otherwise 0; writes precisely that text; never touches the buffer beyond the given length |
| JsonDoc.RenderPrints | components/lib/mtojson/mtojson/mtojson.c:492-674 | However a tree is built from structures, C arrays and nested primitives, its text is the printed form of one document |
| JsonMeaning.DigitsInOrder | components/lib/mtojson/mtojson/mtojson.c:154-209 | The digits are 0123456789ABCDEF in the order of their values |
| JsonMeaning.ScalarTold | components/lib/mtojson/mtojson/mtojson.c:95-105 | The text of a boolean reads as that boolean, of a number as that number in base 10, a quoted one in base 16 |
| JsonMeaning.DocTells | components/lib/mtojson/mtojson/mtojson.c:492-674 | The document tells every value of the tree: null, booleans, numbers and strings, the elements up to the first structure without value, the members in order with their names up to the first without name |
| JsonDoc.DocProper | components/lib/mtojson/mtojson/mtojson.c:296-490 | Unquoted values of that document are nonempty and free of delimiters |
| JsonRoundTrip.ScanEscaped | components/lib/jsmn/jsmn/jsmn.h:200-255 | The tokenizer's string scan stops exactly at the end of an escaped text |
| JsonRoundTrip.ParseDoc | components/lib/jsmn/jsmn/jsmn.h:265-450 | Inside any text and any parser state, a printed document adds exactly its tokens and counts once in its parent |
| JsonReader.UnescapeEscape | components/lib/mtojson/mtojson/mtojson.c:107-152 | Unescaping undoes escaping |
| JsonReader.ParsePrinted | components/lib/jsmn/jsmn/jsmn.h:265-450 | Parsing a printed document gives one token per node and name, with the printed spans and child counts |
| JsonReader.ReadTokens | components/lib/jsmn/jsmn/jsmn.h:265-450 | A reader that follows token sizes rebuilds the document |
| JsonNames.TokenizedIffPlain | components/lib/mtojson/mtojson/mtojson.c:641-650 | Names are not escaped: the tokens that parsing the printed document gives are read back as that document if and only if no name has a quote or a backslash |
| JsonNames.BackslashName | components/lib/mtojson/mtojson/mtojson.c:641-650 | A name that is a backslash: the printed object is not even accepted, its string never ends |
| JsonReader.TreeRoundTrip | components/lib/mtojson/mtojson/mtojson.c:686-722 | For every tree of objects, arrays, C arrays, strings and scalars with such names, parsing the generated text and reading the tokens gives back its document, which tells every value of the tree, and the counting call gives the tokens needed |
| JsonReader.EscapedIsJson | components/lib/mtojson/mtojson/mtojson.c:107-152 | The text of a string conforms to section 7 of RFC 8259 if and only if it has no control character |
| Crc32.ShiftByteSplits | components/utility/utility/al/Crc32.cpp:83-85 | Shifting a byte out of the register depends on its low byte only, besides the plain shift |
| Crc32.TableEntries | components/utility/utility/al/Crc32.cpp:14-79 | Each of the 256 table entries is the effect of eight single-bit shifts of its index |
| Crc32.TableStepIsAddByte | components/utility/utility/al/Crc32.cpp:83-85 | A table look-up step equals eight steps of the reflected CRC-32 register |
| Crc32.UpdateCrc32 | components/utility/utility/al/Crc32.cpp:13-88 | The loop computes the bit-by-bit CRC-32 register of the buffer |
| Crc32.RegisterSplit | components/utility/utility/al/Crc32.cpp:80-87 | The checksum does not depend on how the input is split |
| Crc32.CheckValue | components/utility/utility/al/Crc32.cpp:80-87 | The register after the digits 1 to 9 is the catalogue check value of CRC-32, not inverted |
| Crc32.ConstexprIsRegister | components/utility/utility/al/Crc32.hpp:71-81 | The compile-time recursion computes the same register |
| Crc32.Checksum.Update | components/utility/utility/al/Crc32.hpp:94-99 | The incremental object continues the register |
| Flash.PageInBlock | components/system/system/middleware/FlashMemoryGeometry.hpp:29-52 | A page never crosses an erase block |
| Flash.AndFacts | components/buffered_file_transfer/buffered_file_transfer/process/FlashMemoryTransferImplementor.cpp:236-253 | Programming an erased byte stores it, programming what is there changes nothing |
| FlashSession.EraseOrdered | components/buffered_file_transfer/buffered_file_transfer/process/FlashMemoryTransferImplementor.cpp:165-200 | Erases go strictly upwards and have reached the current address |
| FlashSession.FlushOrdered | components/buffered_file_transfer/buffered_file_transfer/process/FlashMemoryTransferImplementor.cpp:49-133 | One flush of any size, under any device faults, keeps the erase discipline |
| FlashSession.SessionDisciplined | components/buffered_file_transfer/buffered_file_transfer/process/FlashMemoryTransferImplementor.cpp:26-158 | Over a whole transfer no block is erased twice, no page is erased after it was written, and each page written lies in a block erased before |
| FlashContent.PageStep | components/buffered_file_transfer/buffered_file_transfer/process/FlashMemoryTransferImplementor.cpp:90-132 | At a page boundary one turn of the loop appends its bytes to the stored file, behind the reserved header for the first one, and its checksum takes in just those |
| FlashContent.PagesSound | components/buffered_file_transfer/buffered_file_transfer/process/FlashMemoryTransferImplementor.cpp:90-132 | A flush from a page boundary stores any number of bytes in order |
| FlashContent.ReadBackSum | components/buffered_file_transfer/buffered_file_transfer/process/FlashMemoryTransferImplementor.cpp:265-319 | Reading back takes in every byte between the two addresses, whatever page they start in |
| FlashContent.FlushSound | components/buffered_file_transfer/buffered_file_transfer/process/FlashMemoryTransferImplementor.cpp:26-158 | A flush adds its bytes to the file; the last one finds matching checksums and resets the session |
| FlashContent.SessionSound | components/buffered_file_transfer/buffered_file_transfer/process/FlashMemoryTransferImplementor.cpp:26-158 | A session of aligned flushes stores exactly the concatenation of its chunks |
| FlashContent.SaluteFile | components/buffered_file_transfer/buffered_file_transfer/process/SaluteFlashMemoryTransferImplementor.cpp:23-89 | A finished Salute transfer of a nonempty file with aligned flushes leaves the size in bytes 0 to 3 and the file from byte 4 on, with matching checksums |
| FlashContent.EmptyFile | components/buffered_file_transfer/buffered_file_transfer/process/SaluteFlashMemoryTransferImplementor.cpp:66-73 | A transfer without bytes, in any number of flushes, gets the size 2^32 - 4 |
| FlashAlignment.FlushKeepsBlank | components/buffered_file_transfer/buffered_file_transfer/process/FlashMemoryTransferImplementor.cpp:220-234 | A blank place of the file stays blank when only blank bytes are flushed, but for a first byte that the code puts elsewhere |
| FlashAlignment.MisalignedBlank | components/buffered_file_transfer/buffered_file_transfer/process/FlashMemoryTransferImplementor.cpp:220-234 | Where the address is in the middle of a page, the next byte is put somewhere else |
| FlashAlignment.AlignmentIsExact | components/buffered_file_transfer/buffered_file_transfer/process/FlashMemoryTransferImplementor.cpp:220-234 | For given flush sizes, every file is stored correctly, its size in the header included, if and only if each flush with bytes in it starts at a page boundary and, with a header, there are bytes at all |
| FlashAlignment.DownloadIsExact | components/buffered_file_transfer/buffered_file_transfer/storage/FlushingBufferFileSystem.cpp:58-89 | For given buffer size and piece lengths, every download is stored correctly if and only if the chunks handed over start at page boundaries and, with a header, there are bytes at all |
| FlashAlignment.LongPieceMisaligned | components/buffered_file_transfer/buffered_file_transfer/process/SaluteFlashMemoryTransferImplementor.cpp:23-40 | With the reserved header, whatever the size of the buffer, a download in one piece of more than two buffers is handed over across page boundaries |
| FlashAlignment.WholePagesExact | components/buffered_file_transfer/buffered_file_transfer/process/HttpFetch.cpp:38-40 | With a header and a buffer of whole pages, such as the configured one of 20 KiB, the downloads of given piece lengths are stored correctly if and only if they are not empty and fit in the buffer |
| Handover.HandedTotal | components/buffered_file_transfer/buffered_file_transfer/storage/FlushingBufferFileSystem.cpp:58-89 | The chunks handed over have as many bytes as the pieces |
| Handover.FirstHanded | components/buffered_file_transfer/buffered_file_transfer/storage/FlushingBufferFileSystem.cpp:58-89 | A download that fits in the buffer is handed over in one chunk, a longer one starts with a chunk of exactly the buffer and goes on |
| Handover.SinglePiece | components/buffered_file_transfer/buffered_file_transfer/storage/FlushingBufferFileSystem.cpp:58-89 | A piece that does not fit at once is handed over in full buffers and then its rest, which is not kept for the next piece |
| RamFile.SingleBufferRamFile.Append | components/buffered_file_transfer/buffered_file_transfer/storage/SingleBufferRamFileSystem.cpp:63-79 | As many bytes as fit are stored at the position |
| RamFile.SingleBufferRamFile.Seek | components/buffered_file_transfer/buffered_file_transfer/storage/SingleBufferRamFileSystem.cpp:81-117 | The position is clamped to the written part; one before the start ends up at its end |
| RamFile.SingleBufferRamFile.Read | components/buffered_file_transfer/buffered_file_transfer/storage/SingleBufferRamFileSystem.cpp:119-140 | Exactly the bytes between the position and the end, as many as asked for, are copied |
| FlashTransfer.FlashChip.Write | components/buffered_file_transfer/buffered_file_transfer/process/FlashMemoryTransferImplementor.cpp:236-253 | Programming a page clears bits and changes nothing else; a failing call changes nothing |
| FlashTransfer.Transfer.FormatPageContent | components/buffered_file_transfer/buffered_file_transfer/process/SaluteFlashMemoryTransferImplementor.cpp:23-40 | The page buffer gets file bytes at the offset of the base address, or behind the header on the first chunk |
| FlashTransfer.Transfer.WriteBufferedPage | components/buffered_file_transfer/buffered_file_transfer/process/FlashMemoryTransferImplementor.cpp:93-132 | One turn of the loop does exactly what the page function says, under any device faults |
| FlashTransfer.Transfer.FlushFile | components/buffered_file_transfer/buffered_file_transfer/process/FlashMemoryTransferImplementor.cpp:90-132 | The loop flushes the whole file page by page |
| FlashTransfer.Transfer.UpdateFlashChecksum | components/buffered_file_transfer/buffered_file_transfer/process/FlashMemoryTransferImplementor.cpp:265-319 | The read-back loop |
| FlashTransfer.Transfer.RewriteFirstPage | components/buffered_file_transfer/buffered_file_transfer/process/SaluteFlashMemoryTransferImplementor.cpp:42-89 | The size is programmed into the first page |
| FlashTransfer.Transfer.OnFileBufferingFinished | components/buffered_file_transfer/buffered_file_transfer/process/FlashMemoryTransferImplementor.cpp:26-158 | The implementor's new state, device contents and outcome are those of the flush function, under any faults |
| FlushingFile.FlushingBufferFile.FlushAndRewind | components/buffered_file_transfer/buffered_file_transfer/storage/FlushingBufferFileSystem.cpp:72-81 | The buffered bytes are handed over and the buffer starts again; nothing is lost |
| FlushingFile.FlushingBufferFile.Append | components/buffered_file_transfer/buffered_file_transfer/storage/FlushingBufferFileSystem.cpp:58-89 | Appending terminates for any buffer size above zero, takes all bytes, and keeps: bytes handed over followed by bytes buffered are all bytes appended; the sizes handed over are those of the size function |
| FlushingFile.SessionIsFlushes | components/buffered_file_transfer/buffered_file_transfer/process/FlashMemoryTransferImplementor.cpp:26-158 | A session is a run of flushes and a last one |
| FlushingFile.FlushingBufferFile.Fetch | components/buffered_file_transfer/buffered_file_transfer/process/HttpFetch.cpp:64-90 | A whole download hands over exactly its bytes, cut at the sizes that the buffer and the pieces determine, and the implementor ends as after a session of those chunks |
| FlushingFile.FlushingBufferFile.FetchSmall | components/buffered_file_transfer/buffered_file_transfer/process/SaluteFlashMemoryTransferImplementor.cpp:23-89 | A download that fits in the buffer ends up in flash behind its size, with matching checksums |
| CircularBuffer.RevFwd | components/utility/utility/cont/CircularBuffer.hpp:57-66 | Going back undoes going forward, by any amount |
| CircularBuffer.Ring.PushBack | components/utility/utility/cont/CircularBuffer.hpp:244-249 | The new element comes last; a full overwriting ring gives up its oldest one |
| CircularBuffer.Ring.PopFront | components/utility/utility/cont/CircularBuffer.hpp:251-256 | The oldest element leaves |
| CircularBuffer.Ring.Front | components/utility/utility/cont/CircularBuffer.hpp:202-205 | The oldest element |
| CircularBuffer.Ring.Back | components/utility/utility/cont/CircularBuffer.hpp:196-200 | The newest element |
| CircularBuffer.Ring.Iterate | components/utility/utility/cont/CircularBuffer.hpp:258-266 | Iterating from begin to end visits the contents in order and ends |
| CircularBuffer.Ring.IterateReverse | components/utility/utility/cont/CircularBuffer.hpp:278-286 | Reverse iteration visits them newest first and ends |
| CircularSwap.SyncedSwap.constructor | components/utility/utility/cont/CircularSwap.hpp:32-37 | All buffers start free |
| CircularSwap.SyncedSwap.GetFree | components/uart/Task.cpp:101-115 | A free buffer, the ring unchanged, whenever there is one; else the oldest full one; else none |
| CircularSwap.SyncedSwap.GetFull | components/uart/Task.cpp:117-129 | The oldest full buffer |
| CircularSwap.SyncedSwap.PushFree | components/uart/Task.cpp:131-139 | The buffer is on top of the free stack |
| CircularSwap.SyncedSwap.PushFull | components/uart/Task.cpp:141-150 | The buffer is last in the ring |
| UartHandoff.StepOwned | components/uart/Task.cpp:44-99 | Each step leaves every buffer in exactly one of: free stack, ring, reader, processor |
| UartHandoff.StepInOrder | components/uart/Task.cpp:44-99 | Each step keeps the ring in reading order and every owned message unchanged |
| UartHandoff.StepInv | components/uart/Task.cpp:44-99 | No capacity assertion fails in any step |
| UartHandoff.EverySchedule | components/uart/Task.cpp:44-150 | In every interleaving, what was delivered is what was read, in that order, but for messages discarded from the front of the ring; ownership stays exclusive |
| UartHandoff.ServedIffTwo | components/uart/Task.cpp:101-115 | In every run the reader gets a buffer, if and only if there are at least two |
| UartHandoff.ReaderAlwaysServed | components/uart/Task.cpp:101-115 | With at least two buffers the reader never gets a null buffer |
| UartHandoff.SingleBufferRefused | components/uart/Task.cpp:101-115 | With one buffer it may |
| UartHandoff.DiscardedOnlyUnderBacklog | components/uart/Task.cpp:108-112 | When the reader finds no free buffer, the ring holds all buffers but the one in processing |
| UartHandoff.StepFates | components/uart/Task.cpp:44-129 | Exactly what each step does to messages: a reader with a free buffer takes one and discards nothing, one without discards the oldest message in the ring, a processor that takes a full buffer takes the oldest, which counts as delivered |
| UartHandoff.FatesOfRun | components/uart/Task.cpp:44-150 | In every run a message is discarded only by a reader that finds no free buffer while all buffers outside processing are in the ring, and a message taken for processing is delivered |
| UartHandoff.ReaderTurn | components/uart/Task.cpp:44-72 | A turn of the reader that gets a message puts it last in the ring |
| UartHandoff.ProcessorTurn | components/uart/Task.cpp:74-99 | A turn of the processor delivers the oldest message in the ring and frees its buffer |
| Avi.Writer.AddChunk | components/avilib/avilib.c:93-128 | Tag, length and data padded to even length are appended, or a failed write leaves everything before the position intact |
| Avi.Writer.WriteData | components/avilib/avilib.c:481-514 | A chunk is added exactly when the size limit allows it and the writes get through |
| Avi.Writer.WriteFrame | components/avilib/avilib.c:516-533 | A video chunk, counted when written |
| Avi.Writer.WriteAudio | components/avilib/avilib.c:552-564 | An audio chunk, its bytes counted when written |
| Avi.Writer.BytesRemain | components/avilib/avilib.c:566-572 | The remaining room is never negative: positions are even, so an odd length cannot reach the even limit |
| Avi.LongInverse | components/avilib/avilib.c:58-79 | A number survives its four bytes |
| Avi.ChunkLayout | components/avilib/avilib.c:93-121 | A chunk starts with the text 00db or 01wb and its length, least significant byte first |
| Avi.OtherChunksPassed | components/avilib/avilib.c:1166-1233 | The reader passes twelve bytes of a list and reads what is inside; it passes JUNK and idx1 chunks with their padding |
| Avi.Reader.ReadData | components/avilib/avilib.c:1166-1233 | The loop enters lists, skips other chunks and returns what the next video or audio chunk holds |
| Avi.ReadsChunk | components/avilib/avilib.c:1187-1233 | A written chunk is read back, or skipped exactly when its buffer is too small |
| Avi.ReadsAll | components/avilib/avilib.c:1166-1233 | Any sequence of chunks is read back in order with the same padded bytes |
| Avi.WrittenIsRead | components/avilib/avilib.c:481-572 | Whatever sequence of writes, failed ones included, reading from the start of the movi data returns all chunks written, and then the end when no failed write left bytes behind |
| EndpointVariant.LessTotal | components/wifi_uart_bridge/wifi_uart_bridge/RoutingRules.cpp:27-35 | Triggers are totally ordered |
| EndpointVariant.KeyInjective | components/wifi_uart_bridge/wifi_uart_bridge/EndpointVariant.cpp:76-94 | Endpoints that compare equal are equal |
| RoutingTable.RoutingRules.LowerBound | components/wifi_uart_bridge/wifi_uart_bridge/RoutingRules.cpp:114-118 | The binary search finds the first rule not less than the trigger |
| RoutingTable.RoutingRules.Find | components/wifi_uart_bridge/wifi_uart_bridge/RoutingRules.cpp:112-146 | The search agrees with a plain map tried on the endpoint, then its remote endpoint, then its local port |
| RoutingTable.TriedInOrder | components/wifi_uart_bridge/wifi_uart_bridge/EndpointVariant.cpp:60-85 | What is tried for a UDP or TCP endpoint is the endpoint, then its remote side, then its local port; for any other only itself |
| RoutingTable.RoutingRules.AddStatic | components/wifi_uart_bridge/wifi_uart_bridge/RoutingRules.cpp:47-76 | Rules stay sorted and unique; a rule is added exactly when none applies |
| RoutingTable.RoutingRules.Remove | components/wifi_uart_bridge/wifi_uart_bridge/RoutingRules.cpp:80-97 | Exactly the rule that applies is removed |
| RoutingTable.RoutingRules.Reduce | components/wifi_uart_bridge/wifi_uart_bridge/RoutingRules.cpp:102-120 | The endpoint of the rule that applies, if any |
| Notification.Init | components/wifi_uart_bridge/wifi_uart_bridge/MavlinkRouting.cpp:127-134 | The static rules are added one by one, for each configuration |
| Notification.StaticTable | components/wifi_uart_bridge/wifi_uart_bridge/MavlinkRouting.cpp:27-134 | None of them is refused: the table at start is exactly the map of the static rules |
| Notification.StartReaches | components/wifi_uart_bridge/wifi_uart_bridge/MavlinkRouting.cpp:35-62 | Exactly the receivers that messages of each origin reach at start, for each configuration |
| Notification.OpenedReached | components/mav/priv_include/Microservice/GsNetwork.cpp:228-272 | Messages that arrive at an opened port, from whomever, reach the packing service, and as its forwarded kind if they did not before |
| Notification.ProcessOpen | components/mav/priv_include/Microservice/GsNetwork.cpp:228-272 | On success the port's rule is in the table; an unknown transport counts as success without a socket call |
| Notification.ProcessClose | components/mav/priv_include/Microservice/GsNetwork.cpp:274-309 | On success the port's rule is gone |
| Notification.CloseUndoesOpen | components/mav/priv_include/Microservice/GsNetwork.cpp:228-309 | Opening and closing a port leaves the table as it was, if no rule for the port was there |
| Notification.ReachableDescending | components/mav/priv_include/Microservice/GsNetwork.cpp:228-309 | In every table reachable from the static rules by opens and closes, each rule lowers the rank of its origin |
| Notification.ReducedRank | components/wifi_uart_bridge/wifi_uart_bridge/Receiver.cpp:138-145 | Whichever reading of an endpoint a rule applies to, the reduction lowers its rank |
| Notification.DeliveriesFollowRules | components/wifi_uart_bridge/wifi_uart_bridge/Receiver.cpp:138-184 | Every call of a receiver follows the rule the table had when it was looked up, for the origin or an endpoint of lower rank, whatever ports receivers open and close in the cycle |
| Notification.DeliverNotifies | components/wifi_uart_bridge/wifi_uart_bridge/Receiver.cpp:138-184 | Nobody is left out: each registry member has its turn in order, is called once per reaction if a rule of the table as it then stands applies, and after each call from the first that forwarded on the whole registry has its turn for the reduced endpoint |
| Notification.QuietCalls | components/wifi_uart_bridge/wifi_uart_bridge/Receiver.cpp:138-184 | When no port changes, the calls for the origin are exactly those of the registry members with a rule, in registry order, each as often as it reacts |
| Notification.ApplyChanges | components/mav/priv_include/Microservice/GsNetwork.cpp:228-309 | The ports a receiver opens and closes in one call change the table one after the other |
| Notification.NotifyAsImpl | components/wifi_uart_bridge/wifi_uart_bridge/Receiver.cpp:138-184 | The recursive notification cycle ends for every such table, also when receivers open and close ports in it; nobody is left out; when no port changes, the calls for the origin are exactly those of the members with a rule; the table stays of the same kind |

## Left out

- Stream, device and file failures are inputs: a list says which of the coming calls fail. A failing flash call is taken to change nothing.
- Allocation failure, logging, `Sys::panic`, mutex acquisition and task creation.
- ToJpg.ConvertImage: the conversion of pixel formats to lines is not modelled, lines are given (components/lib/ov2640/ov2640/conversions/to_jpg.cpp:52-95).
- JPEG: two live encoders of different quality, which share one set of static quantiser tables; pointers kept after `deinit`.
- JPEG: C shifts of negative values are modelled as multiplications, and the writer and the shared tables are objects of their own instead of fields and statics of one class.
- JPEG: four bytes per pixel are read as the encoder reads them, that is by their first byte.
- JsmnParser.Parser.Parse: offsets are unbounded, so texts of 2^31 characters and more are not modelled; the strict mode and parent links of the tokenizer are not modelled either.
- JsonGenerator.Generator.GenCArray: a C array is a list of elements; its data pointer is never null.
- JsonReader.TreeRoundTrip: raw text (`t_to_value`) is excluded, since it may be anything.
- JSON strings are sequences of characters without NUL; bytes above 127 stand for any such character.
- FlashSession.SessionDisciplined: an erase that fails is ignored by the code and counts as an erase here; without faults it is one.
- FlashTransfer.Transfer.WriteBufferedPage: for a turn that starts in the middle of a page the code may sum bytes beyond its page buffer; here the sum stops at its end.
- FlashTransfer.Transfer.OnFileBufferingFinished: likewise, for a flush from the middle of a page the code may sum bytes beyond its page buffer; here the sum stops at its end.
- FlashContent.SaluteFile: base address 0, the only one in the partition table; addresses do not wrap at 32 bits.
- The RAM and flushing file systems: descriptors, reopening after close, and more than one listener.
- BftFtpClient transfers: the size is read after rewinding, so their completeness does not hold.
- UART: one reader over one list of devices; reads are given as messages. `CircularSwap::popFree(unsigned)` and `CircularCounter::pop` with another argument than 1.
- AVI: header contents, `AVI_dup_frame`, the index readers and `AVI_open_input_file`, whose movi start is the return value of a seek; a seek that fails; plain `char` is unsigned as on the target.
- Avi.Writer.AddChunk: the pad byte is whatever follows the data in memory, so the data is taken with it.
- Notification.NotifyAsImpl: which bytes are forwarded and which ports are opened is left to the receivers, each of which is called finitely often; conservation of bytes is not claimed, because the forwarded flag is not reset between slices.
- Routing: addresses are numbered in the order in which they compare.
- Drivers, sockets, HTTP pages, Wi-Fi, camera registers, MAVLink packing, tracking and small parsers: plumbing, or easy members next to these.
