# QR symbols, region labelling, log pump and auto selector

A Dafny model of four parts of the repository, with proofs of what they promise.

- **QR symbols.** The encoder `qrcodegen` and the decoder `quirc` are modelled stage by stage: texts to segments to a
  bit stream, Reed-Solomon blocks, interleaving, the zigzag through the modules, masks and function patterns, and
  everything back, with error correction by Berlekamp-Massey, Forney's formula and a final check (sections 7 and
  Annexes A to E of ISO/IEC 18004). Each stage is an imperative method proved against a specification; the
  specifications are proved inverse to each other. `RoundTrip` puts them together: every text that fits some version
  comes back, and so do segments from symbols with damaged modules.
- **Region labelling.** The span fill of `identify.c` with its bounded stack, the labelling of regions and the search
  for their corners (`Images`, `FillState`, `Labels`, `Corners`, `Identify`).
- **Log pump.** `LogPump` is a machine over the atomic steps of callers and runner; `LogSections` is the object with
  its critical sections and its writing loop, each proved to be made of these steps.
- **Auto selector.** Which members of a group can be used, in which order, and what a plan reports (`AutoSelector`,
  `SelectorRules`).

The files build on each other in this order. Field and polynomials: `Gf256`, `GfTables`, `Sums`, `Horner`,
`Recurrence`, `Decoding`, `Galois`, `PolyOps`. Blocks: `BlockCode`, `BlockCorrection`, `ReedSolomon`, `Versions`,
`Layouts`, `Interleaver`, `Codestream`, `Capacities`. Modules: `Grids`, `FunctionCells`, `Zigzag`, `CellCount`,
`FormatWord`, `Bytes`, `Masks`, `Patterns`, `WordTables`, `Matrix`, `Appearance`, `Penalty`, `PenaltyWeights`,
`Symbols`, `CellBitmap`, `FormatReading`, `DataReading`, `ZigzagOrder`. Stream: `BitStrings`, `Segments`, `Payload`,
`PayloadReading`, `SegmentStream`, `Characters`, `SegmentOutcomes`. Whole programs: `Encoding`, `DataBytes`,
`SegmentChoice`, `Decoder`, `PathShift`, `Version21`, `Misreads`, `RoundTrip`.

## What the proofs found

- **Long blocks.** The decoder takes the extra data byte of a long block from a place that is off by the number of
  short blocks (`3rdparty/quirc/decode.c:597-598` against `3rdparty/qrcodegen/qrcodegen.cpp:524-529`). The model keeps
  this. A clean symbol that mixes block lengths therefore can need one correction in every long block, and such blocks
  survive one damaged codeword less.
- **Version 21.** The decoder's table ends in 92 where the encoder's formula gives 94. The reserved cells differ
  (`FunctionCells.Corner21`), and the decoder can misread up to 94 of the 1156 codewords of a clean symbol. The
  interleaving spreads them so that every block can still be corrected (`Misreads.MisreadsAreFew`), so the round trip
  holds in version 21 as well; at level Low two blocks can be left without a correction to spare.
- **ECI.** The decoder does not strip the prefix bits of an assignment, so it reports the encoder's value exactly for
  values below 128 (`SegmentStream.EciValue`). Position in the stream and payload are right for all values.
- **Penalty.** The asserted upper bound of the score holds for every grid of a symbol's size, not only for the grids
  the encoder produces (`Penalty.PenaltyBound`).

## How the model is to be read

- Texts are strings of bytes. A C string cannot hold a zero byte; the model does not exclude it.
- `BitBuffer` and the segment data are sequences of bits; module grids are sequences of rows that the methods of
  `QrCode` reassign; the decoder's polynomials, buffers and bitmap are arrays.
- The decoder borrows the payload buffer for the raw bits, and so does the model: `DecodeCells` works on one array
  for both.
- The rows and the columns of `getPenaltyScore` are scanned by the same code; the model has it once.
- The callbacks of the fill are pure functions folded over the spans, and the pixels are a two-dimensional array.
- The score of a symbol and the coordinates of corners are unbounded integers.
- `std::stable_sort` is modelled by its result, a stable insertion; the result is proved sorted, stable and a
  permutation.
- In the auto selector the outcome of the type checks and of the name and country filters is part of a profile, and
  the group and the readings of the clock are arguments.
- Some long bodies of the source are split: `FixBlock` is the loop body of `codestream_ecc`, `FloodFillAround` that of
  `flood_fill_seed`, `ReadKanji` the loop of `decode_kanji`, and `NormalizePool` to `NormalizeRest` are parts of
  `Normalize`.
- The steps of the log pump are its critical sections, the channel operations and the writing of one line.

## Model

| member | source | states |
|---|---|---|
| `RoundTrip.TextRoundTrip` | 3rdparty/qrcodegen/qrcodegen.cpp:247-251 | a text is encoded exactly when some version has room for it in digits, letters or bytes, whichever of them can hold it; the symbol then has the least such version and the strongest level that still fits; at level Low every text of at most 2953 bytes is encoded and none longer than 7089; decoding the finished grid succeeds and returns the text with the symbol's version, level and mask, in all 40 versions |
| `RoundTrip.Transmit` | 3rdparty/quirc/decode.c:883-933 | for every list of segments and every pattern of inverted modules that leaves the damage within bounds, decoding returns the texts of the segments, the data type and ECI value they set, and the version, level and mask of the symbol; the bounds let the second format copy serve when the first is lost |
| `RoundTrip.DamagedIsReadable` | 3rdparty/quirc/decode.c:883-933 | a grid that differs from a finished symbol in at most three modules of the first format copy, or of the second if the first cannot be corrected, and in few enough codewords of each block can be read as that symbol's data |
| `RoundTrip.Undamaged` | 3rdparty/quirc/decode.c:471-525 | the finished symbol itself is always within those bounds, version 21 included, although the decoder misreads part of it there |
| `RoundTrip.StreamDecoded` | 3rdparty/quirc/decode.c:835-881 | the padded data string of any segments that fit decodes to their concatenated texts, with the data type and ECI the segments leave |
| `RoundTrip.Receive` | 3rdparty/quirc/decode.c:883-933 | packing any square grid into a code and decoding it gives what its data string says whenever the grid can be read as a symbol |
| `Decoder.Decode` | 3rdparty/quirc/decode.c:883-933 | any code is handled; the two size errors occur exactly for the sizes that are no symbol sizes; the payload stays short of the buffer and ends with a zero; for every grid of a symbol's size the outcome and the data are determined: format lost, some block not corrected, or what the corrected data bytes decode to; a readable grid gives the decoded data, version, level and mask |
| `Decoder.ReadableGrid` | 3rdparty/quirc/decode.c:883-933 | whenever format and blocks of a grid are near enough to those of a symbol, what decoding makes of the grid is what the symbol's data string says |
| `Decoder.ReadAnyFormat` | 3rdparty/quirc/decode.c:905-910 | reading fails exactly if neither copy can be corrected; otherwise level and mask are those of the first copy, or of the second if the first cannot be corrected |
| `Decoder.DecodeCells` | 3rdparty/quirc/decode.c:912-932 | with version, level and mask known, the raw bytes along the path are corrected block by block, and outcome and data are a data error exactly if some block stays wrong, and otherwise what the data bytes of the corrected blocks decode to |
| `Version21.PathsAgree` | 3rdparty/quirc/version_db.c:221-223 | in version 21, where the last alignment position of the database is 92 and not 94, encoder and decoder order the codeword bits alike outside ten stretches of bits |
| `PathShift.Resync` | 3rdparty/quirc/decode.c:544-569 | two zigzag paths whose reserved cells differ only in some rows of a column pair come together again if as many cells are free there |
| `Misreads.MisreadsAreFew` | 3rdparty/quirc/version_db.c:221-229 | no block of version 21, at any level, has more misread codewords than half its check codewords, even if the misplaced byte of the long blocks is wrong as well |
| `Misreads.EightBlocks` | 3rdparty/quirc/version_db.c:225-226 | at level Low at most 14 codewords of a short and 13 of a long block are misread, which is exactly what can be corrected |
| `FunctionCells.AlignmentAgrees` | 3rdparty/quirc/version_db.c:17-421 | the alignment positions of the database equal the encoder's formula if and only if the version is not 21 |
| `FunctionCells.ReservedMapsAgree` | 3rdparty/quirc/decode.c:471-525 | both programs set aside the same modules if and only if the version is not 21 |
| `FunctionCells.Corner21` | 3rdparty/quirc/version_db.c:223 | the module (96, 96) of version 21 is a function module for the encoder and a data module for the decoder |
| `Gf256.MulAssoc` | 3rdparty/qrcodegen/qrcodegen.cpp:740-749 | the shift and exclusive-or product is associative |
| `Gf256.MulComm` | 3rdparty/qrcodegen/qrcodegen.cpp:740-749 | the product is commutative |
| `Gf256.MulAddRight` | 3rdparty/qrcodegen/qrcodegen.cpp:740-749 | the product distributes over exclusive or |
| `ReedSolomon.Multiply` | 3rdparty/qrcodegen/qrcodegen.cpp:740-749 | the bit loop computes that product |
| `GfTables.TableProduct` | 3rdparty/quirc/decode.c:50-124 | adding table logarithms modulo 255 and looking the sum up gives the encoder's product of nonzero bytes |
| `GfTables.TableQuotient` | 3rdparty/quirc/decode.c:208 | the table quotient times the divisor is the dividend |
| `GfTables.AlphaInjective` | 3rdparty/quirc/decode.c:50-118 | the first 255 powers of the generator are different |
| `Galois.Product` | 3rdparty/quirc/decode.c:34-48 | the four-bit tables multiply like the eight-bit field does on the images of their entries, so both fields are treated by one proof |
| `ReedSolomon.ComputeDivisor` | 3rdparty/qrcodegen/qrcodegen.cpp:702-725 | the divisor with its leading 1 vanishes at the first powers of the generator, as many as its degree |
| `ReedSolomon.ComputeRemainder` | 3rdparty/qrcodegen/qrcodegen.cpp:727-738 | data followed by the remainder is a codeword: all its decoder syndromes are zero |
| `BlockCode.MinimumDistance` | 3rdparty/quirc/decode.c:236-261 | two codewords of at most 255 bytes that differ in at most npar places are the same |
| `BlockCorrection.BlockSyndromes` | 3rdparty/quirc/decode.c:236-261 | the syndrome array holds the values of the block at the powers of the generator, and the result says whether the block is no codeword |
| `Recurrence.LengthBound` | 3rdparty/quirc/decode.c:178-228 | Massey's lemma: a recurrence that fits one more element than another has length at least n + 1 minus the other's |
| `Recurrence.StepLonger` | 3rdparty/quirc/decode.c:208-220 | a step that lengthens the recurrence keeps the invariant: it fits, and no shorter one does |
| `Recurrence.StepSameLength` | 3rdparty/quirc/decode.c:221-224 | a step that repairs the recurrence without lengthening it keeps the invariant |
| `Recurrence.MasseyIsShortest` | 3rdparty/quirc/decode.c:178-228 | after n steps the iteration has a recurrence for the first n syndromes, and no recurrence for them is shorter |
| `Recurrence.NothingDropped` | 3rdparty/quirc/decode.c:130-150 | supporting fact: moving the saved polynomial up never pushes a term past the 64 coefficients |
| `PolyOps.PolyAdd` | 3rdparty/quirc/decode.c:130-150 | the array becomes the sum with a shifted multiple, over either field |
| `PolyOps.PolyEval` | 3rdparty/quirc/decode.c:152-172 | the value of the polynomial at the point, zero included |
| `PolyOps.BerlekampMassey` | 3rdparty/quirc/decode.c:178-228 | the array arithmetic over either field computes, coefficient by coefficient, the polynomial of the iteration that is proved shortest |
| `BlockCorrection.ElocPoly` | 3rdparty/quirc/decode.c:263-292 | the evaluator's coefficients are those of the syndromes times sigma, cut off at npar |
| `Decoding.RootsAreLocators` | 3rdparty/quirc/decode.c:318-331 | a shortest recurrence for the syndromes of at most npar/2 errors has the error places as its only roots |
| `Decoding.Magnitude` | 3rdparty/quirc/decode.c:322-330 | Forney's formula: at an error place evaluator over derivative is the error value, and neither vanishes |
| `BlockCorrection.CorrectBlock` | 3rdparty/quirc/decode.c:294-336 | the block becomes its corrected form and nothing else changes; success means exactly that this is a codeword; for every codeword within npar/2 bytes of the block the result is success and exactly that codeword |
| `BlockCorrection.CorrectedRepairs` | 3rdparty/quirc/decode.c:294-336 | the corrected form of any block is the codeword within npar/2 bytes of it, if there is one |
| `FormatWord.EncoderWordIsCode` | 3rdparty/qrcodegen/qrcodegen.cpp:416-425 | for all 32 data values the encoder's 15-bit word has the six zero syndromes the decoder checks |
| `FormatWord.FormatMinimumDistance` | 3rdparty/quirc/decode.c:348-368 | format words that differ in at most six bits are the same |
| `FormatWord.CorrectFormat` | 3rdparty/quirc/decode.c:370-395 | the outcome is success exactly if the corrected word has zero syndromes, and then it is that word, a format word; every format word within three bits of the received one is found |
| `FormatWord.FixedIsNearest` | 3rdparty/quirc/decode.c:370-395 | the corrected form of any received word is the format word within three bits of it, if there is one |
| `FormatReading.ReadFormat` | 3rdparty/quirc/decode.c:415-453 | fails exactly if the word shown by the copy cannot be corrected, and otherwise gives the level and mask of the corrected word; a copy with up to three wrong cells gives the level and mask that were drawn |
| `FormatReading.NearReads` | 3rdparty/quirc/decode.c:905-910 | three wrong cells in the first copy do no harm, nor do three in the second if the first cannot be corrected |
| `FormatReading.BitPlaces` | 3rdparty/quirc/decode.c:423-440 | supporting fact: the decoder looks for each of the 15 bits of either copy where the encoder draws it |
| `Versions.TablesAgree` | 3rdparty/quirc/version_db.c:17-421 | for every version and level the database's block sizes and counts agree with the encoder's tables and formulas |
| `Layouts.LayoutsAgree` | 3rdparty/qrcodegen/qrcodegen.cpp:498-533 | both programs derive the same block layout, it fills the symbol, and its data part has the length the encoder computes |
| `Layouts.CollectedVersusPlaced` | 3rdparty/quirc/decode.c:571-612 | supporting fact: the decoder collects every byte of a block from where the encoder placed it, except the last data byte of a long block |
| `Layouts.PlaceBounds` | 3rdparty/quirc/decode.c:597-600 | the decoder's place for a byte is the encoder's if and only if it is not that extra byte |
| `Interleaver.AddEccAndInterleave` | 3rdparty/qrcodegen/qrcodegen.cpp:498-533 | the result interleaves codewords that start with consecutive pieces of the data, and has one byte for every eight raw modules |
| `Interleaver.RowsInterleave` | 3rdparty/qrcodegen/qrcodegen.cpp:522-530 | reading the padded blocks column by column, without the padding, puts every byte at its place in the layout |
| `Codestream.DataStream.CodestreamEcc` | 3rdparty/quirc/decode.c:571-612 | succeeds exactly if the corrected form of every collected block is a codeword, and then the data bytes of the corrected blocks are packed in order, whatever was received |
| `Codestream.NearIsFixed` | 3rdparty/quirc/decode.c:571-612 | if what is collected for each block is near enough to some codeword, these codewords are the corrected blocks |
| `Codestream.CollectedDistance` | 3rdparty/quirc/decode.c:593-601 | a collected block has at most one more wrong byte than were damaged, and that only in the long blocks |
| `Codestream.TolerableIsNear` | 3rdparty/quirc/decode.c:571-612 | damage that leaves one error to spare in the long blocks is corrected |
| `Codestream.DataOfBlocks` | 3rdparty/qrcodegen/qrcodegen.cpp:498-533 | the data bytes of the blocks, put together, are the data string that was split |
| `FunctionCells.ReservedCell` | 3rdparty/quirc/decode.c:471-525 | the decoder's test is true exactly on finder, format, timing, version and alignment cells, for the positions of its database |
| `FunctionCells.Decided` | 3rdparty/quirc/decode.c:504-525 | for positions at least five apart, looking at the last position near a row and a column decides whether an alignment pattern covers the cell |
| `FunctionCells.AlignmentWellSpaced` | 3rdparty/qrcodegen/qrcodegen.cpp:664-677 | the formula's positions start at 6, end at size - 7 and are far apart |
| `Patterns.PatternsCover` | 3rdparty/qrcodegen/qrcodegen.cpp:387-490 | the drawn modules are exactly the cells the decoder skips, given the same positions |
| `Patterns.DrawsThen` | 3rdparty/qrcodegen/qrcodegen.cpp:485-490 | supporting fact: drawing two patterns is drawing their union with the later colours on top |
| `CellCount.FreeCellCount` | 3rdparty/qrcodegen/qrcodegen.cpp:680-692 | in every version the modules left free by the function patterns are exactly as many as the formula says |
| `Zigzag.CellsOnce` | 3rdparty/qrcodegen/qrcodegen.cpp:536-560 | the zigzag visits no module twice |
| `Zigzag.AllCellsCount` | 3rdparty/qrcodegen/qrcodegen.cpp:536-560 | the zigzag has as many modules as are free in all columns together |
| `Zigzag.RightCounter` | 3rdparty/quirc/decode.c:544-569 | supporting fact: the decoder's and the encoder's column counters skip column 6 alike, and the directions agree |
| `Zigzag.NextCell` | 3rdparty/quirc/decode.c:544-569 | the next module of the walk is the next of the path if it is free |
| `ZigzagOrder.PathsOrdered` | 3rdparty/qrcodegen/qrcodegen.cpp:536-560 | both programs' paths take strips of two columns from right to left, the first upwards, the next downwards and so on, in each row the right module first; column 6 belongs to no strip |
| `Matrix.PathFacts` | 3rdparty/qrcodegen/qrcodegen.cpp:536-560 | the path of a version has one cell for every raw module, none twice and none of a function pattern |
| `Symbols.QrCode.DrawFunctionPatterns` | 3rdparty/qrcodegen/qrcodegen.cpp:387-413 | exactly the function modules are drawn and nothing else changes; the grid then shows the picture of a finder pattern in three corners with light separators, alternating timing modules that start dark, the picture of an alignment pattern at every position that is no finder corner, the published format and version words bit by bit, and the dark module |
| `Symbols.QrCode.DrawFormatBits` | 3rdparty/qrcodegen/qrcodegen.cpp:416-440 | both copies of the format bits and the dark module are drawn; nothing else changes |
| `Symbols.QrCode.DrawVersion` | 3rdparty/qrcodegen/qrcodegen.cpp:443-462 | both copies of the version bits are drawn from version 7 on; nothing else changes |
| `Symbols.QrCode.DrawCodewords` | 3rdparty/qrcodegen/qrcodegen.cpp:536-560 | bit k of the codewords is on module k of the path, and all other modules are unchanged |
| `Symbols.QrCode.ApplyMask` | 3rdparty/qrcodegen/qrcodegen.cpp:563-584 | exactly the modules that the mask selects and that are not function modules are inverted |
| `Matrix.MaskUndone` | 3rdparty/qrcodegen/qrcodegen.cpp:338-355 | applying a mask twice changes nothing |
| `Masks.MasksAgree` | 3rdparty/quirc/decode.c:455-469 | supporting fact: both programs invert the same modules under each of the eight masks |
| `Masks.MaskIsTiled` | 3rdparty/qrcodegen/qrcodegen.cpp:563-584 | each of the eight masks repeats one picture of six columns and six rows, four for mask 4, over the whole symbol |
| `Symbols.QrCode.ChooseMask` | 3rdparty/qrcodegen/qrcodegen.cpp:338-355 | the trials leave the grid unmasked, and the chosen mask is the lowest-numbered one of least penalty |
| `Symbols.QrCode.constructor` | 3rdparty/qrcodegen/qrcodegen.cpp:320-359 | the finished grid shows the function patterns, the format bits of the level and mask, and the interleaved codewords under the mask, which is the best one if it was not given; it has the look of a symbol with the published words for its level, mask and version |
| `Appearance.FinishedLooks` | 3rdparty/qrcodegen/qrcodegen.cpp:387-490 | every finished symbol of every version has that look, whatever its data, level and mask |
| `Appearance.FindersSeen` | 3rdparty/qrcodegen/qrcodegen.cpp:466-475 | the middle line of each finder pattern, across and down, has dark and light parts in the ratio 1:1:3:1:1 with unit 1 |
| `WordTables.FormatTabulated` | 3rdparty/qrcodegen/qrcodegen.cpp:416-425 | the computed format words are the 32 words that the standard prints |
| `WordTables.VersionTabulated` | 3rdparty/qrcodegen/qrcodegen.cpp:443-453 | the computed version words are the 34 words that the standard prints |
| `Penalty.ScanLine` | 3rdparty/qrcodegen/qrcodegen.cpp:590-633 | the one-pass scan of a line with its history of seven runs computes the run penalties and the 1:1:3:1:1 patterns with light borders as they are declared |
| `Penalty.FindersAtRun` | 3rdparty/qrcodegen/qrcodegen.cpp:752-758 | the patterns at a dark run are those that the history of seven runs shows |
| `Penalty.HistoryBound` | 3rdparty/qrcodegen/qrcodegen.cpp:754 | supporting fact: the seven runs of the history are together no longer than the line between its borders |
| `Penalty.CountHistory` | 3rdparty/qrcodegen/qrcodegen.cpp:752-758 | the count of the history is the declared one; the asserted bound of three line lengths is its precondition, and every scan meets it |
| `Penalty.BalanceLevel` | 3rdparty/qrcodegen/qrcodegen.cpp:653-658 | one division computes the least level at which the modules are balanced, and it is between 0 and 9 |
| `Penalty.GetPenaltyScore` | 3rdparty/qrcodegen/qrcodegen.cpp:587-661 | the score is the declared penalty of the grid, and within the bound the code asserts for every symbol size |
| `Penalty.PenaltyBound` | 3rdparty/qrcodegen/qrcodegen.cpp:659 | the penalty of every grid up to 177 modules wide is within the asserted bound |
| `Penalty.PatternsApart` | 3rdparty/qrcodegen/qrcodegen.cpp:752-758 | two finder-like patterns never start less than six modules apart |
| `PenaltyWeights.LightGrid` | 3rdparty/qrcodegen/qrcodegen.cpp:587-661 | a grid without dark modules costs two points less than its length for every row and column, three for each 2 by 2 square and 90 for the balance |
| `PenaltyWeights.FinderCost` | 3rdparty/qrcodegen/qrcodegen.cpp:752-758 | a finder pattern between light modules counts twice, with 40 points each time, and nothing else in it costs |
| `PenaltyWeights.MarginsNeeded` | 3rdparty/qrcodegen/qrcodegen.cpp:752-758 | a pattern of unit n counts if one light margin has at least 4n modules and the other at least n, and twice if both have 4n |
| `PenaltyWeights.Chequered` | 3rdparty/qrcodegen/qrcodegen.cpp:587-661 | a chequered grid of odd size costs nothing |
| `CellBitmap.Code.GridBit` | 3rdparty/quirc/decode.c:409-413 | the bit of a packed bitmap is the module of the grid it stands for |
| `CellBitmap.Code.constructor` | 3rdparty/quirc/identify.c:1143-1159 | packing the cells row by row gives a bitmap that stands for the grid; a grid that is too large is not packed |
| `DataReading.ReadData` | 3rdparty/quirc/decode.c:544-569 | the raw bits are the modules along the decoder's path with the mask taken off, and the rest are zero |
| `Segments.MakeNumeric` | 3rdparty/qrcodegen/qrcodegen.cpp:79-99 | a segment comes out exactly for digits, three of them in ten bits, two in seven and one in four |
| `Segments.MakeAlphanumeric` | 3rdparty/qrcodegen/qrcodegen.cpp:102-122 | a segment comes out exactly for the 45 characters, two of them in eleven bits and one in six |
| `Segments.MakeEci` | 3rdparty/qrcodegen/qrcodegen.cpp:143-158 | a segment comes out exactly for values from 0 to 999999, in one, two or three bytes |
| `Segments.MakeSegments` | 3rdparty/qrcodegen/qrcodegen.cpp:125-140 | no text gives no segment; otherwise there is one, of digits, letters or bytes; that it is the shortest is SegmentChoice.ChosenIsDensest |
| `SegmentChoice.ChosenIsDensest` | 3rdparty/qrcodegen/qrcodegen.cpp:125-140 | no segment that spells the text, in whatever mode, takes fewer bits than the chosen one, in any version |
| `SegmentChoice.TextFitsMeans` | 3rdparty/qrcodegen/qrcodegen.cpp:264-283 | the chosen segment fits a version and level if and only if some segment that spells the text does |
| `SegmentChoice.RankIsStrength` | 3rdparty/qrcodegen/qrcodegen.cpp:285-289 | a level is ranked higher exactly if it leaves less room for data, in every version |
| `SegmentChoice.LargestTexts` | 3rdparty/qrcodegen/qrcodegen.hpp:43 | a text fits version 40 at level Low exactly if it has at most 7089 characters when they are digits, 4296 when they are letters, and 2953 otherwise |
| `SegmentChoice.NoLongerText` | 3rdparty/qrcodegen/qrcodegen.hpp:43 | no text of more than 7089 characters fits, in any mode, version and level |
| `SegmentChoice.GuaranteedLength` | 3rdparty/qrcodegen/qrcodegen.hpp:260-261 | every text of at most 2953 bytes fits at level Low |
| `Capacities.Tabulated` | 3rdparty/qrcodegen/qrcodegen.cpp:695-699 | the number of data codewords is the one the standard tabulates, for all 40 versions and 4 levels |
| `Capacities.CapacityGrows` | 3rdparty/qrcodegen/qrcodegen.cpp:695-699 | a larger version never has fewer data codewords |
| `Encoding.GetTotalBits` | 3rdparty/qrcodegen/qrcodegen.cpp:179-193 | the length of the stream, or -1 if a length does not fit its field |
| `Encoding.AppendTail` | 3rdparty/qrcodegen/qrcodegen.cpp:299-308 | terminator, filling to a whole byte and pad bytes reach the capacity exactly |
| `Encoding.TailFacts` | 3rdparty/qrcodegen/qrcodegen.cpp:299-308 | the tail has the length that is missing and starts with a terminator or is too short for a segment |
| `DataBytes.Padding` | 3rdparty/qrcodegen/qrcodegen.cpp:299-308 | behind the bits of the segments come zeros up to a whole byte, at least four of them unless the symbol ends before, and then the bytes 0xEC and 0x11 in turn, 0xEC first, to the end |
| `DataBytes.ByteBits` | 3rdparty/qrcodegen/qrcodegen.cpp:310-313 | the bits of a byte are those of its value, the most significant first |
| `Encoding.ChooseVersion` | 3rdparty/qrcodegen/qrcodegen.cpp:264-283 | the least version that fits is found, or none fits and the error says why |
| `Encoding.BoostLevel` | 3rdparty/qrcodegen/qrcodegen.cpp:285-289 | with boosting on, the level is the highest at which the data still fits the version; otherwise it is kept |
| `Encoding.EncodeSegments` | 3rdparty/qrcodegen/qrcodegen.cpp:259-317 | invalid arguments are refused, otherwise segments are refused exactly if no version of the range holds them; the symbol has the least version, the raised level and shows the padded stream |
| `Encoding.PackBits` | 3rdparty/qrcodegen/qrcodegen.cpp:310-313 | packing bits into bytes loses nothing |
| `BitStrings.ValueOfBits` | 3rdparty/qrcodegen/qrcodegen.cpp:823-828 | a number written with enough bits is read back |
| `SegmentStream.NumeralsBack` | 3rdparty/quirc/decode.c:659-693 | digits are read back from their bits, and exactly these bits are taken |
| `SegmentStream.LettersRead` | 3rdparty/quirc/decode.c:720-748 | letters are read back from their bits, and exactly these bits are taken |
| `SegmentStream.BytesBack` | 3rdparty/quirc/decode.c:750-770 | bytes are read back from their bits, and exactly these bits are taken |
| `Characters.LetterIsPlace` | 3rdparty/qrcodegen/qrcodegen.cpp:230 | a byte is encoded as its place among the digits, the capital letters and nine signs, and only these bytes are letters |
| `Characters.LetterOf` | 3rdparty/quirc/decode.c:708-712 | the decoder's character for each of the 45 values is the one at that place |
| `Characters.DigitIs` | 3rdparty/quirc/decode.c:650-651 | the decoder's character for each of the ten digits is the one at its place |
| `Characters.KanjiBack` | 3rdparty/quirc/decode.c:792-806 | every two-byte code of Shift JIS in the two ranges is what its 13-bit value decodes to |
| `SegmentStream.EciValue` | 3rdparty/quirc/decode.c:812-833 | the decoder sees the assigned value if and only if it is below 128; above it keeps the prefix bits |
| `SegmentStream.EciRead` | 3rdparty/quirc/decode.c:812-833 | an ECI segment is consumed exactly, whatever its value |
| `SegmentStream.StreamRead` | 3rdparty/quirc/decode.c:835-881 | decoding the stream of any segments gives their texts one after the other and goes on with the tail |
| `SegmentStream.TailRead` | 3rdparty/quirc/decode.c:838-873 | terminator or too few bits end the decoding, and the padding is ignored |
| `SegmentStream.StreamRoom` | 3rdparty/quirc/decode.c:835-881 | the text of a stream is never longer than three tenths of its bits, so it fits the payload |
| `PayloadReading.TakeBits` | 3rdparty/quirc/decode.c:619-636 | the value of the next bits is returned, fewer if fewer are left, and the stream moves past them |
| `PayloadReading.DecodeNumeric` | 3rdparty/quirc/decode.c:659-693 | for any bits, state and outcome are those of SegmentOutcomes.Outcome and SegmentStream.NumeralsBack |
| `PayloadReading.DecodeAlpha` | 3rdparty/quirc/decode.c:720-748 | for any bits, state and outcome are those of SegmentOutcomes.Outcome and SegmentStream.LettersRead |
| `PayloadReading.DecodeByte` | 3rdparty/quirc/decode.c:750-770 | for any bits, state and outcome are those of SegmentOutcomes.Outcome and SegmentStream.BytesBack |
| `PayloadReading.DecodeKanji` | 3rdparty/quirc/decode.c:772-810 | for any bits, state and outcome are those of SegmentOutcomes.Outcome and SegmentOutcomes.KanjiSegmentRead |
| `PayloadReading.DecodeEci` | 3rdparty/quirc/decode.c:812-833 | for any bits, state and outcome are those of SegmentOutcomes.EciOutcome |
| `SegmentOutcomes.Outcome` | 3rdparty/quirc/decode.c:659-810 | a segment of digits, letters, bytes or kanji is refused as too long exactly if its characters and a closing zero do not fit the payload, as too short exactly if its bits are not all there, and otherwise takes exactly its bits and appends exactly its characters; the widths of the length fields are those of the standard |
| `SegmentOutcomes.KanjiSegmentRead` | 3rdparty/quirc/decode.c:772-810 | a kanji segment is read back as the two bytes of each kanji |
| `SegmentOutcomes.EciOutcome` | 3rdparty/quirc/decode.c:812-833 | one, two or three bytes are taken by the range of the first one, and the value is the number in all of them; the segment is too short exactly if they are not all there |
| `PayloadReading.DecodePayload` | 3rdparty/quirc/decode.c:835-881 | for any bit string decoding ends, stays within the data bits and the payload buffer, agrees with the specification and puts a zero behind the payload |
| `PayloadReading.Finish` | 3rdparty/quirc/decode.c:875-878 | there is always room for the closing zero: the branch that would give a character up for it is never taken |
| `Payload.DecodedStep` | 3rdparty/quirc/decode.c:838-872 | supporting fact: a round of decoding either ends or leaves fewer bits |
| `Identify.Quirc.FloodFillLine` | 3rdparty/quirc/identify.c:132-164 | the maximal run of equal pixels around the start is recoloured and reported |
| `Identify.Quirc.FloodFillSeed` | 3rdparty/quirc/identify.c:209-285 | unless the stack is full, exactly the pixels connected to the seed change colour, and the reported spans partition them; with a full stack only connected pixels change, and every connected pixel that is missed is still reached from one that is pending on the stack |
| `FillState.FillComplete` | 3rdparty/quirc/identify.c:209-285 | with no context left, the filled pixels are exactly the connected ones |
| `FillState.Missed` | 3rdparty/quirc/identify.c:232-241 | at any moment of a fill, a connected pixel not yet filled is reached from a pending one through pixels of the old colour |
| `FillState.ContextDone` | 3rdparty/quirc/identify.c:276-280 | a context whose two scans are complete can be dropped without forgetting a pixel |
| `Images.AreaIsSize` | 3rdparty/quirc/identify.c:342-345 | the summed lengths of the spans are the number of pixels |
| `Identify.Quirc.RegionCode` | 3rdparty/quirc/identify.c:347-379 | a new area gets the next label, and -1 is returned exactly for white, outside and when no label is left; only black pixels change, known regions are kept and seeds carry their labels even if the stack overflows; unless it does, labels stay disjoint whole black areas with their pixel counts |
| `Labels.UnlabelledArea` | 3rdparty/quirc/identify.c:347-379 | the area of an unlabelled black pixel is the same before and after other areas are labelled |
| `Labels.LabelAdded` | 3rdparty/quirc/identify.c:364-378 | giving the next label to a whole area keeps the image correctly labelled |
| `Labels.SameLabel` | 3rdparty/quirc/identify.c:347-379 | two pixels carry the same label if and only if a path through black pixels joins them |
| `Labels.ClearedConnected` | 3rdparty/quirc/identify.c:431-465 | a region turned black for the corner search is not joined to any other area |
| `Identify.Quirc.FindRegionCorners` | 3rdparty/quirc/identify.c:431-465 | unless the stack is full, the two fills leave the image as it was, and the corners are extreme over the whole region in the directions given by its farthest pixel; labels and seeds stay in order in any case |
| `Identify.Quirc.ServeAll` | 3rdparty/quirc/identify.c:347-465 | for any list of requests for codes and corners: labels and seeds stay in order and known regions are kept; unless some black area has room for as many spans as the stack has places, every answer is right in the end, and every region counts its whole area |
| `Corners.FarCorner` | 3rdparty/quirc/identify.c:388-406 | scoring only span ends finds a pixel of the region farthest from the reference |
| `Corners.FourCorners` | 3rdparty/quirc/identify.c:408-429 | scoring only span ends finds the pixels that maximise each of the four linear scores over the region |
| `Corners.DistanceMeans` | 3rdparty/quirc/identify.c:388-406 | the first score is the square of the distance: the sum of its two legs, zero only for equal pixels, and unchanged by mirroring and swapping the axes |
| `Corners.AlongMeans` | 3rdparty/quirc/identify.c:408-429 | the other scores are linear and give the two coordinates for the unit vectors |
| `Corners.BoxCorners` | 3rdparty/quirc/identify.c:388-465 | a region that reaches the four vertices of its bounding box has exactly these as its corners, one after the other around the box, whatever its shape is otherwise, if the reference is in the middle |
| `LogPump.EveryRun` | core/mobile/log.go:48-105 | in every interleaving lines are written in push order and at most once, each to the sink that was set when its batch was taken; every line is on its way, was pushed while no sink was set, was taken while no sink was set, or was the oldest of a full queue; the queue stays within the largest limit set; and whenever lines are pending with a sink somebody is going to look |
| `LogPump.GoesWhereTaken` | core/mobile/log.go:92-102 | every line written, and every line of a batch, belongs to a step that took it with the sink set at that moment |
| `LogPump.OneSink` | core/mobile/log.go:54-102 | if no other sink is ever set, every line is written to that one |
| `LogPump.LostWithoutSink` | core/mobile/log.go:64-99 | lines are lost for want of a sink only if none was set when they were pushed or taken |
| `LogPump.StaysBounded` | core/mobile/log.go:70-77 | the queue is never longer than the largest limit in force so far, and a dropped line is older than all that are pending and has at least as many newer ones as the smallest limit |
| `LogPump.AllIsWritten` | core/mobile/log.go:89-105 | with a sink, the steps of callers and runner come to an end, and then every pending line has been written in order |
| `LogPump.NotStuck` | core/mobile/log.go:82-105 | as long as a caller or the runner has something left to do, one of them can take a step |
| `LogPump.OrderKept` | core/mobile/log.go:64-105 | no step disturbs the order of the lines |
| `LogPump.AccountKept` | core/mobile/log.go:64-105 | no step loses a line without account |
| `LogPump.WakeupKept` | core/mobile/log.go:54-105 | no step loses a wakeup |
| `LogSections.PumpObject.SetSink` | core/mobile/log.go:54-62 | the critical section is the corresponding step; the sink is set and nothing else changes |
| `LogSections.PumpObject.Push` | core/mobile/log.go:64-80 | the critical section is the corresponding step, and what it makes of the fields: no sink drops the line, a full queue its oldest line |
| `LogSections.PumpObject.Take` | core/mobile/log.go:92-99 | the critical section is the corresponding step on the fields, and hands all pending lines over |
| `LogSections.PumpObject.WriteBatch` | core/mobile/log.go:100-102 | the sink that was read under the lock receives the lines of the batch, all of them and in order |
| `LogSections.PumpObject.Write` | core/mobile/log.go:101 | the writing of one line is the corresponding step, and the line goes to the sink of its batch |
| `AutoSelector.EligibleMembers` | src/configs/AutoSelectorPlan.cpp:125-183 | the eligible members in group order, or the unavailable ones if there are no others; the report counts every member once |
| `SelectorRules.EligibleMeans` | src/configs/AutoSelectorPlan.cpp:125-183 | a member can be used exactly if its verdict is good, or if its last test failed and no member of the group has a good verdict |
| `SelectorRules.EligibleKeepOrder` | src/configs/AutoSelectorPlan.cpp:140-170 | the usable members keep the order of the group |
| `SelectorRules.PlacedKeepsOrder` | src/configs/AutoSelectorPlan.cpp:190-196 | the persisted members keep their order |
| `SelectorRules.ResultsExpire` | src/configs/AutoSelectorPlan.cpp:37-43 | a test counts up to the second at which its validity ends, and no longer; only a failed test that counts makes a member unavailable |
| `SelectorRules.FailureExpires` | src/configs/AutoSelectorPlan.cpp:71-73 | no failure excludes a member for good |
| `SelectorRules.CountersMean` | src/configs/AutoSelectorPlan.cpp:146-170 | the counters of the report are the numbers of members other than the selector and of those with a fresh positive latency |
| `AutoSelector.CoreSwitches` | src/configs/AutoSelectorPlan.cpp:77-90 | a chain needs too many core switches exactly if landing and front proxy both run on Xray and the member does not |
| `AutoSelector.Conserved` | include/configs/AutoSelectorPlan.h:49-53 | members in the group are the eligible ones plus all the skipped ones |
| `AutoSelector.OrderMembers` | src/configs/AutoSelectorPlan.cpp:186-206 | the persisted members that are still eligible come first, in their order; the newcomers behind them stand with rising positive latencies first, then the untested, then the failed ones |
| `AutoSelector.OrderedIsPermutation` | src/configs/AutoSelectorPlan.cpp:186-206 | that order is a permutation of the eligible members |
| `AutoSelector.SortedIsSorted` | src/configs/AutoSelectorPlan.cpp:115-123 | no member of the sorted list comes before one ahead of it in the order |
| `AutoSelector.SortedByLatency` | src/configs/AutoSelectorPlan.cpp:98-123 | in the sorted list positive latencies come first and do not decrease, then the zeros, then the negative ones |
| `AutoSelector.TiesKeepOrder` | src/configs/AutoSelectorPlan.cpp:202-203 | members with equal latencies keep their order, and so do failed ones |
| `AutoSelector.NewcomersByLatency` | src/configs/AutoSelectorPlan.cpp:198-205 | behind the persisted members the newcomers are sorted in this way |
| `AutoSelector.CappedIsFastest` | src/configs/AutoSelectorPlan.cpp:307-317 | no member left out is faster than one kept: a measured one is left out only for measured ones that are as fast, an untested one only for members that have not failed |
| `AutoSelector.SortIsStable` | src/configs/AutoSelectorPlan.cpp:202-203 | members neither of which is faster keep their order |
| `AutoSelector.PoolIsReproduced` | src/configs/AutoSelectorPlan.cpp:263-267 | planning again with the planned pool as the persisted one reproduces it, whatever the latencies are by then |
| `AutoSelector.KeptAreBest` | src/configs/AutoSelectorPlan.cpp:307-317 | after a rerank no dropped member comes before a kept one |
| `AutoSelector.PlanAutoSelector` | src/configs/AutoSelectorPlan.cpp:240-278 | a null profile, a profile that is no selector, a missing group and a group without usable members give their four errors; otherwise the settings are normalized, the report counts every member, the pool is the capped order and the build its prefix, with truncation and need of ranking exactly as promised |
| `AutoSelector.TruncationMeans` | src/configs/AutoSelectorPlan.cpp:263-267 | for a group that lists no profile twice, a plan is truncated exactly if more members are eligible than the cap allows |
| `AutoSelector.RerankAutoSelectorPool` | src/configs/AutoSelectorPlan.cpp:307-322 | the new pool is sorted with the fastest first, then the untested, then the failed members, and keeps the fastest of the eligible ones within the cap, all of them for a negative cap; it is stamped with a later reading of the clock; other profiles are left alone |
| `AutoSelector.Selector.Normalize` | include/configs/outbounds/autoselector.h:135-161 | every numeric setting and the balance mode come into range: the build fits in the pool, watching is no slower than the full round, the ready set sits inside the closely checked set and that inside the build; settings in range are kept |

## Left out

- Floating point image work of `identify.c` (thresholding, perspective, capstones, grids, alignment search): heuristics
  without an exact specification. `CellBitmap.Code` starts from sampled cells.
- `quirc_flip`, and mirrored symbols.
- The version information bits: the decoder takes the version from the size alone, so only the drawing is modelled.
- Kanji encoding: the encoder has none. Decoding kanji is modelled and total.
- `encodeBinary`: it is `encodeSegments` with one byte segment, and `Encoding.EncodeSegments` covers that.
- Allocation, the `INT_MAX` guards of the encoder and the widths of counters and scores, apart from the bound on the penalty.
- The exceptions of `QrCode` and of the Reed-Solomon functions for a version, mask, degree or data length out of range are
  preconditions; the errors that `encodeSegments` and the segment factories report are modelled.
- `AutoSelectorUnmeasuredCandidates` and the texts of the skip reasons.
- Saving a reranked profile, regular expressions, country codes, database lookups and the clock of the auto selector.
- Fairness of the log pump: that an enabled step is taken in the end is assumed of the scheduler, not modelled; and setting the process log's output is left out.
- The rest of the repository (user interface, updater, core process, subscriptions, database).
