# PC Bio Unlock: a verified model

PC Bio Unlock lets a phone unlock a computer. This project models the parts of it that carry logic of their
own and proves what they promise:

- **The QR Code encoder** (`Bits`, `Galois`, `Bch`, `ReedSolomon`, `Blocks`, `Versions`, `Grids`, `Zigzag`, `Masks`,
  `Patterns`, `Capacity`, `Penalty`, `GridScore`, `QrSymbol`, `Segments`, `Encoder`, `Limits`) that shows the
  pairing payload, and a reference reader (`Reader`). Main results: the reader gives back exactly the segments,
  and for text the text, of every symbol the encoder builds, at all 40 versions, four levels and eight masks; and
  a text gets a symbol exactly if it is no longer than the limit of its mode and level, which is
  2953 bytes at the low one.
- **What a standard reader needs besides** (`Pictures`, `Tables`, `SymbolPictures`, `ScoreExamples`): a reader that
  shares its formulas with the encoder would read a wrong symbol too, so every formula is tied to a second
  description from ISO/IEC 18004: pictures of the patterns, tiles of the masks, the order of the scan, parities for
  format and version bits, the block table, and scores worked out by hand.
- **The packet framing** (`Framing`, `LegacyProtocol`, `Transport`) that both sides speak over sockets with short
  reads, short writes and would-block results. Main results: of a list of packets written on one side the other
  side reads a prefix, in order, under every schedule of such calls, and the whole list if no call fails
  (`Transport`, from PC to PC, PC to phone and phone to PC); junk in front of a frame is skipped exactly if it
  leaves the header matcher at zero.
- **The blind relay** (`Relay`, `RelayRuns`, `RelayDelivery`, `RelayAccess`) as a transition system over its tables.
  Main results, over whole runs: one response per request, every message returned at most once, everything
  delivered is genuine, a message stays until it expires or is consumed, and a poll comes back empty exactly if
  nothing is due.
- **The unlock handler and session** (`UnlockStates`, `UnlockJoin`, `UnlockSchedules`, `UnlockPoll`,
  `UnlockSession`, `UnlockSessionRuns`): the thread join as interleaved atomic steps, the poll loop, and the
  per-socket state machine. Main results: exactly which reachable states of the join can still return, exactly
  when a success can be lost, belong to another device or be overwritten, and what every success means.
- **Two codecs** (`Base32`, `LogonBuffer`): the grouped pairing code, and the packed Windows logon buffer.

`dafny verify dfyconfig.toml` checks everything.

## How the model is built

- A `uint8_t` of the encoder is the string of its eight bits, most significant first, so exclusive or and shifts
  are operations on bit strings; the 32-bit accumulator of Base32 is a string of 32 bits, and shifting drops bits
  off its top. C's `int` limits appear where the code tests them (`INT_MAX` in `GetTotalBits`).
- `QrCode` is a class whose grids are sequence fields that its methods reassign (the C++ vectors are values);
  its methods are proved against the pointwise definition `SymbolGrid`, which does not mention drawing order.
  Loop bodies of the source that are long are methods of their own.
- Sockets deliver and take bytes under an arbitrary finite list of `Turn`s; when the list is used up, calls move
  all they can. Random ids, the clock, the fate of an attempt to send, JSON parsing and decryption are parameters.
- The relay's handlers are methods of `Service`, each proved to be one `Step`; the run theorems are about `Step`.
  Random ids are taken to be fresh, and a request carries its bearer token already hashed.
- The threads of an unlock session take their steps in any order. A step that no thread is about to take, such as a
  packet on a socket without a flow, changes nothing, so every list of events stands for a run that can happen.

## What turned out to be false

- `UnlockHandler::GetResult` can deadlock. The main thread keeps the mutex from the end of its wait to the end of
  the function and joins the workers meanwhile, while a worker that has seen the counter complete still wants that
  mutex. It can do so with any number of workers (`UnlockSchedules.DeadlockIsReachable`), and
  `UnlockSchedules.ReturnsExactly` says of every reachable state whether the call can still return: exactly if all
  workers have finished, or the main thread does not yet hold the mutex with the counter complete.
- A worker's success can be lost, because the check and the store on lines 82 and 83 are two steps. It can happen
  exactly with two or more connections (`UnlockSchedules.SuccessIsLostExactly`). If the two steps were one, no
  success would be lost with any number of them (`UnlockJoin.SuccessSurvivesAtomicStores`).
- Behind junk that ends in the middle of a header match, the reader misses the next frame
  (`Framing.StrayByteLosesFrame`); `Framing.Resynchronizes` gives the exact condition.
- Payloads that are empty or longer than 65535 bytes do not survive the PC's framing, which cuts the length to
  sixteen bits without a check; `Framing.FrameReadsBack` is an equivalence.
- A success need not belong to the device the session ends up with: on a server a second phone can name itself on
  its own socket and so change the device while the state still says success. `UnlockSessionRuns.DeviceMismatchExactly`
  says when this can happen: for servers exactly if two known devices have different keys, and for clients never.
- The end of a flow looks at the state and stores its error in two steps without the lock, so it can overwrite a
  state that another flow has set in between. It can do so exactly if the object has more than one socket
  (`UnlockSessionRuns.OverwritesExactly`).
- Hexadecimal decoding on the phone also accepts a sign or a single last digit; `LegacyProtocol.CanonicalHex` says
  which texts survive decoding and encoding.

## Model

| member | source | states |
|---|---|---|
| Bits.BitBuffer.AppendBits | deps/qrcodegen.cpp:822-827 | The value's low bits are appended most significant first; the range error comes exactly for a length outside 0..31 or a value that does not fit, and then nothing changes |
| Bits.BitsOfAt | deps/qrcodegen.cpp:779-781 | Bit k of a bit string is the bit that shifting and masking the number finds |
| Galois.Multiply | deps/qrcodegen.cpp:739-748 | The peasant loop computes the carry-less product reduced modulo 0x11D |
| Galois.MulIsProduct | deps/qrcodegen.cpp:739-748 | The field's multiplication is the polynomial product followed by long division by 0x11D, for all bytes |
| Galois.MulCommutes | deps/qrcodegen.cpp:739-748 | The product is commutative |
| Galois.MulAssociates | deps/qrcodegen.cpp:739-748 | The product is associative |
| Galois.MulDistributes | deps/qrcodegen.cpp:739-748 | The product distributes over exclusive or |
| Galois.OneMul | deps/qrcodegen.cpp:739-748 | One is neutral |
| ReedSolomon.MultiplyInPlace | deps/qrcodegen.cpp:715-719 | Overwriting the coefficients from the left multiplies each old one with the root and adds its old right neighbour |
| ReedSolomon.StepKeepsLow | deps/qrcodegen.cpp:713-719 | The pass keeps the array equal to the low coefficients of the product, while the leading one is inside the array and when it drops out |
| ReedSolomon.ComputeDivisor | deps/qrcodegen.cpp:701-723 | For every degree 1..255 the result with a leading one is the product of all (x - 2^i); other degrees are refused |
| ReedSolomon.GeneratorVanishes | deps/qrcodegen.cpp:710-721 | Every 2^i below the degree is a root of the generator |
| ReedSolomon.RootsDouble | deps/qrcodegen.cpp:710-721 | The roots, bit by bit: the first is 1, each next one the double of the one before, reduced by x^8 + x^4 + x^3 + x^2 + 1 |
| ReedSolomon.ComputeRemainder | deps/qrcodegen.cpp:726-736 | The loop over the data is the shift-register division |
| ReedSolomon.RemainderBalances | deps/qrcodegen.cpp:726-736 | At every root of the divisor the shifted data and the remainder have equal values |
| ReedSolomon.CodewordVanishes | deps/qrcodegen.cpp:726-736 | For data of any length, data followed by its remainder is a polynomial that is zero at each root of the generator |
| Blocks.LayoutCovers | deps/qrcodegen.cpp:502-507 | Short and long blocks cover total = blocks * ecc + data exactly, for any block count |
| Blocks.MakeBlock | deps/qrcodegen.cpp:512-519 | Block i is its slice of the data, a padding byte if it is short, and its remainder; the next slice starts where it ends |
| Blocks.SplitIntoBlocks | deps/qrcodegen.cpp:509-520 | All blocks in order, each data byte in exactly one of them |
| Blocks.Interleave | deps/qrcodegen.cpp:522-532 | Rows across the blocks, without the padding byte of short blocks |
| Blocks.AddEccAndInterleave | deps/qrcodegen.cpp:498-533 | Refuses exactly a wrong data length, and otherwise returns the interleaved codewords |
| Blocks.InterleavedLength | deps/qrcodegen.cpp:531-532 | The source's assertion: exactly the raw number of codewords is emitted |
| Blocks.DataRecovered | deps/qrcodegen.cpp:522-530 | Each data byte is at the position a reader computes for it |
| Blocks.EccRecovered | deps/qrcodegen.cpp:522-530 | Each error-correction byte is at the position a reader computes for it |
| Blocks.Deinterleaves | deps/qrcodegen.cpp:509-532 | De-interleaving returns every data byte once and in order |
| Versions.RawDataModules | deps/qrcodegen.cpp:679-691 | The source's assertion: between 208 and 29648 modules at every version |
| Versions.EverySpecFits | deps/qrcodegen.cpp:792-808 | In every table entry each block has room for its error correction and a data byte |
| Versions.LayoutFor | deps/qrcodegen.cpp:502-507 | The layout of a version and level holds exactly its raw and its data codewords |
| Tables.LayoutIsStandard | deps/qrcodegen.cpp:792-808 | Short and long blocks, data and error correction of all 160 layouts, as the table of the standard lists them |
| Zigzag.VisitedAtItsStep | deps/qrcodegen.cpp:542-549 | Every module outside column 6 is visited, for every grid size 4v + 17 |
| Zigzag.VisitedOnce | deps/qrcodegen.cpp:542-549 | No module is visited twice |
| Zigzag.ScanOrder | deps/qrcodegen.cpp:542-551 | Where every step goes: pairs from right to left around column 6, upwards in every other one, in each row the right column first |
| Zigzag.ScanIsConnected | deps/qrcodegen.cpp:542-551 | The scan starts in the lower right corner, and each pair starts in the row where the one before it ends |
| Capacity.RankIsOrder | deps/qrcodegen.cpp:542-556 | The number of the bit a free module gets is the number of free modules before it in that order |
| Zigzag.DrawStep | deps/qrcodegen.cpp:550-553 | One step gives the visited module the next bit if it is free and leaves all else alone |
| Zigzag.ReadsBackDrawn | deps/qrcodegen.cpp:536-560 | Reading free modules in scan order returns the drawn bits, over any grid and any function modules |
| Bch.RegisterIsModulo | deps/qrcodegen.cpp:419-421 | The shift-and-subtract loop is polynomial long division |
| Patterns.FormatIsCodeword | deps/qrcodegen.cpp:416-423 | The format bits, unmasked, are level and mask followed by what makes them a multiple of 0x537 |
| Tables.FormatIsStandard | deps/qrcodegen.cpp:416-423 | Each of the fifteen format bits is the parity of data bits that the standard asks for, inverted where its mask says so; levels have the numbers of the standard |
| Patterns.VersionIsCodeword | deps/qrcodegen.cpp:447-452 | The version bits are the version followed by what makes them a multiple of 0x1F25 |
| Tables.VersionIsStandard | deps/qrcodegen.cpp:447-452 | Each of the eighteen version bits is a bit of the version or a parity of its bits |
| Patterns.FormatCopies | deps/qrcodegen.cpp:425-438 | Each of the two copies carries all fifteen format bits, where the loops put them |
| Patterns.FormatModules | deps/qrcodegen.cpp:425-439 | The format modules are exactly those of the two copies and the dark module |
| Patterns.VersionCopies | deps/qrcodegen.cpp:454-461 | The two version blocks are mirror images and carry bit i where the loop puts it |
| Patterns.AlignApart | deps/qrcodegen.cpp:664-676 | Alignment patterns lie inside the grid and do not overlap each other, at every version |
| Patterns.AlignShows | deps/qrcodegen.cpp:400-408 | Every alignment pattern shows in full behind all that are drawn later |
| Pictures.AlignmentPositions | deps/qrcodegen.cpp:664-676 | From 6 to the seventh row before the end, at equal distances from the second position on; the distance is the least even one that reaches, but 26 at version 32 |
| Pictures.FinderIsPicture | deps/qrcodegen.cpp:465-474 | A finder pattern with its separator is the 9*9 picture |
| Pictures.AlignmentIsPicture | deps/qrcodegen.cpp:477-482 | An alignment pattern is the 5*5 picture |
| Pictures.FunctionModules | deps/qrcodegen.cpp:387-413 | Exactly which modules are function modules |
| Capacity.AreasAddUp | deps/qrcodegen.cpp:679-691 | The areas of the function patterns add up to what the raw-module formula leaves out |
| Capacity.EnoughFreeModules | deps/qrcodegen.cpp:557-559 | The source's assertion: at every version the scan finds room for all codeword bits |
| Penalty.AddHistory | deps/qrcodegen.cpp:771-776 | The history shifts by one and takes the new run, with the border added to the first |
| Penalty.CountPatterns | deps/qrcodegen.cpp:751-757 | Counts the 1:1:3:1:1 cores with wide light runs on the left and on the right |
| Penalty.PatternsAreWindows | deps/qrcodegen.cpp:751-757 | At the end of a light run the count is the number of finder-like windows that end at its start |
| Penalty.HistoryBound | deps/qrcodegen.cpp:752-753 | The history bound the source asserts: entry 1 is at most the size, hence at most three times the size |
| Penalty.TerminateAndCount | deps/qrcodegen.cpp:760-768 | Closing the line adds exactly the windows at its end |
| Penalty.RunsAreMaximal | deps/qrcodegen.cpp:590-601 | The intervals the declarative score sums over are exactly the maximal runs of one colour |
| Penalty.ScoreLine | deps/qrcodegen.cpp:590-611 | The streaming scorer computes the declarative score of a line |
| GridScore.CountBlocks | deps/qrcodegen.cpp:635-644 | Counts the 2*2 blocks of one colour |
| GridScore.CountDark | deps/qrcodegen.cpp:646-653 | Counts the dark modules |
| GridScore.BalanceFormula | deps/qrcodegen.cpp:654-658 | The closed form is the least k that balances the colours, and k lies in 0..9 |
| GridScore.PenaltyScore | deps/qrcodegen.cpp:587-661 | The whole scorer computes lines, blocks and balance of the declarative score |
| GridScore.ScoreBound | deps/qrcodegen.cpp:659-659 | The source's assertion: the score is at most 2568888, so it is below the initial minimum |
| ScoreExamples.SolidLine | deps/qrcodegen.cpp:590-611 | A line of n >= 5 modules of one colour scores n - 2 |
| ScoreExamples.FinderLine | deps/qrcodegen.cpp:751-757 | A line that is a finder pattern scores 80 |
| ScoreExamples.NarrowBorders | deps/qrcodegen.cpp:751-757 | A finder pattern with only three light modules on either side is none |
| ScoreExamples.WideBorder | deps/qrcodegen.cpp:751-757 | With four on one side it is one |
| ScoreExamples.SolidGrid | deps/qrcodegen.cpp:587-661 | A grid of one colour scores 2n(n - 2) + 3(n - 1)^2 + 90 |
| QrSymbol.QrCode.SetFunctionModule | deps/qrcodegen.cpp:485-490 | Paints and marks one module, nothing else |
| QrSymbol.QrCode.GetModule | deps/qrcodegen.cpp:382-384 | A module's colour, light outside the grid |
| QrSymbol.QrCode.DrawTimingPatterns | deps/qrcodegen.cpp:388-392 | Paints and marks exactly row 6 and column 6 |
| QrSymbol.QrCode.DrawFinderPattern | deps/qrcodegen.cpp:465-474 | Paints and marks exactly the part of the 9*9 pattern inside the grid |
| QrSymbol.QrCode.DrawAlignmentPattern | deps/qrcodegen.cpp:477-482 | Paints and marks exactly the 5*5 pattern |
| QrSymbol.QrCode.GetAlignmentPatternPositions | deps/qrcodegen.cpp:664-676 | Inserting at the front gives the ascending positions |
| QrSymbol.QrCode.DrawAlignmentPatterns | deps/qrcodegen.cpp:399-408 | All patterns but the three at finder corners |
| QrSymbol.QrCode.DrawFormatBits | deps/qrcodegen.cpp:416-440 | Both copies of the 15 bits and the dark module, nothing else |
| QrSymbol.QrCode.DrawVersion | deps/qrcodegen.cpp:443-462 | Both copies of the 18 bits from version 7 on, nothing before |
| QrSymbol.QrCode.DrawFunctionPatterns | deps/qrcodegen.cpp:387-413 | On an empty grid exactly the function modules are marked and every one has its final colour |
| QrSymbol.QrCode.DrawCodewords | deps/qrcodegen.cpp:536-560 | Refuses exactly a wrong count; a free module gets the bit whose number is how many free modules come before it in the order of the scan, all other modules stay |
| QrSymbol.QrCode.ApplyMask | deps/qrcodegen.cpp:563-584 | Inverts exactly the free modules that the tile of the mask selects |
| Masks.MaskIsTiled | deps/qrcodegen.cpp:570-580 | Each mask repeats its tile over the whole plane |
| Masks.Chessboard | deps/qrcodegen.cpp:571-571 | Mask 0 differs between all neighbours |
| Masks.RowStripes | deps/qrcodegen.cpp:572-572 | Mask 1 inverts every other row |
| Masks.ColumnStripes | deps/qrcodegen.cpp:573-573 | Mask 2 inverts one column in three |
| Masks.DiagonalStripes | deps/qrcodegen.cpp:574-574 | Mask 3 inverts one diagonal in three |
| QrSymbol.QrCode.Undo | deps/qrcodegen.cpp:353-353 | Applying a trial mask again leaves no trace outside the format bits |
| QrSymbol.QrCode.TryMask | deps/qrcodegen.cpp:342-353 | The penalty of a trial is that of the finished symbol with that mask |
| QrSymbol.QrCode.ChooseMask | deps/qrcodegen.cpp:339-355 | The lowest mask whose finished symbol has minimal penalty |
| QrSymbol.BestIsLowest | deps/qrcodegen.cpp:339-355 | The best mask has the least score of all eight finished symbols, and the lowest number among those |
| QrSymbol.QrCode.constructor | deps/qrcodegen.cpp:320-363 | The grid is the unmasked drawing with one mask applied once and its format bits drawn; the mask is the one asked for or the best one |
| QrSymbol.NewQrCode | deps/qrcodegen.cpp:320-332 | Fails exactly for a version or mask out of range or a wrong number of data codewords |
| QrSymbol.CodewordModules | deps/qrcodegen.cpp:536-584 | In the finished symbol a module of no function pattern has the codeword bit of its place in the scan, inverted where the tile of the mask says so |
| QrSymbol.FormatModulesShow | deps/qrcodegen.cpp:416-440 | In the finished symbol both copies show the format bits of level and mask, and the dark module is dark |
| SymbolPictures.FinderShows | deps/qrcodegen.cpp:465-474 | In the finished symbol the three finder patterns show in full |
| SymbolPictures.AlignmentShows | deps/qrcodegen.cpp:399-408 | In the finished symbol all alignment patterns show in full |
| SymbolPictures.TimingShows | deps/qrcodegen.cpp:388-392 | In the finished symbol row 6 and column 6 alternate between the finder patterns, also across alignment patterns |
| SymbolPictures.VersionShows | deps/qrcodegen.cpp:443-462 | In the finished symbol both copies show the version bits from version 7 on |
| QrSymbol.FormatInformation | deps/qrcodegen.cpp:417-423 | The loop computes the format bits |
| QrSymbol.VersionInformation | deps/qrcodegen.cpp:447-452 | The loop computes the version bits |
| Segments.MakeNumeric | deps/qrcodegen.cpp:79-99 | Succeeds exactly on digits, with three digits in ten bits and the rest in four or seven |
| Segments.MakeAlphanumeric | deps/qrcodegen.cpp:102-122 | Succeeds exactly on the character set, with two characters in eleven bits and a last one in six |
| Segments.PackedReadsBack | deps/qrcodegen.cpp:79-122 | A numeric or alphanumeric payload of any length decodes to the characters it was made from |
| Segments.GroupFormat | deps/qrcodegen.cpp:79-122 | Three digits are a number of ten bits, two seven, one four; two characters 45 times the first plus the second in eleven bits, one six |
| Segments.PayloadFormat | deps/qrcodegen.cpp:79-122 | How many bits n digits or n characters have |
| Segments.CharacterFormat | deps/qrcodegen.cpp:230-230 | The value of every alphanumeric character, and that there are no others |
| Segments.MakeBytes | deps/qrcodegen.cpp:69-76 | Fails exactly above INT_MAX bytes; eight bits for each byte |
| Bits.BytesReadBack | deps/qrcodegen.cpp:72-75 | A byte payload decodes to its bytes |
| Segments.MakeEci | deps/qrcodegen.cpp:143-158 | Succeeds exactly for 0..999999, in one, two or three bytes |
| Segments.EciReadsBack | deps/qrcodegen.cpp:147-154 | An ECI payload announces its own length and decodes to its value |
| Segments.MakeSegments | deps/qrcodegen.cpp:125-140 | No segment for an empty text and otherwise one in the first mode that fits the whole text, numeric before alphanumeric before bytes; it is well formed and decodes to the text |
| Segments.ModeFormat | deps/qrcodegen.cpp:125-140 | Digits alone are numeric, characters with an alphanumeric value alphanumeric, and all other texts bytes |
| Segments.GetTotalBits | deps/qrcodegen.cpp:179-193 | The real length of the stream, or -1 exactly if a count does not fit or the length exceeds INT_MAX |
| Segments.HeaderFields | deps/qrcodegen.cpp:57-66 | Mode indicators, and the width of the count field for versions 1 to 9, 10 to 26 and 27 to 40 |
| Segments.SegmentParses | deps/qrcodegen.cpp:290-296 | Header, count and payload parse back to the segment and leave what follows |
| Segments.StreamParses | deps/qrcodegen.cpp:290-305 | The stream of well-formed segments parses back to exactly those, also with fewer than four bits for a terminator |
| Encoder.MessageIsTerminated | deps/qrcodegen.cpp:299-308 | The message bits are a prefix of the padded bits, followed by a terminator or fewer than four bits |
| Encoder.PaddingFormat | deps/qrcodegen.cpp:299-308 | Every bit behind the message: zeros up to the first whole byte with room for a terminator, then 0xEC and 0x11 in turn |
| Encoder.Pad | deps/qrcodegen.cpp:299-308 | Terminator, alignment and alternating pad bytes fill the capacity exactly |
| Encoder.PackBits | deps/qrcodegen.cpp:310-313 | Or-ing bit by bit packs the bits into bytes, big-endian |
| Encoder.Concatenate | deps/qrcodegen.cpp:289-297 | The stream of all segments in order |
| Encoder.FindVersion | deps/qrcodegen.cpp:264-281 | The least version of the range that fits; none only if none fits |
| Encoder.BoostLevel | deps/qrcodegen.cpp:283-287 | The highest level that still fits, never below the one asked for |
| Encoder.EncodeSegments | deps/qrcodegen.cpp:259-317 | Errors exactly as the source; otherwise least version, boosted level and a symbol that shows the segments |
| Limits.LargestVersion | deps/qrcodegen.cpp:264-281 | Version 40 holds at least a codeword more than any other version, at every level |
| Limits.SegmentFitsExactly | deps/qrcodegen.hpp:269-274 | A numeric, alphanumeric or byte segment fits some version if and only if it has no more characters than the limit of its mode and level |
| Limits.TextFitsExactly | deps/qrcodegen.hpp:258-265 | The segments of a text fit some version if and only if the text is no longer than the limit of its mode and level |
| Reader.FormatReadsBack | deps/qrcodegen.cpp:416-432 | Level and mask can be read from the format bits of any finished symbol |
| Reader.CodewordsReadBack | deps/qrcodegen.cpp:536-584 | Unmasking and scanning a finished symbol returns all codewords |
| Reader.BlocksHaveZeroSyndromes | deps/qrcodegen.cpp:498-533 | Every block read out of a finished symbol vanishes at all roots of the generator |
| Reader.ReadsBack | deps/qrcodegen.cpp:259-359 | The reader returns exactly the segments of a symbol, at every version, level and mask |
| Reader.EncodeText | deps/qrcodegen.cpp:247-250 | A symbol comes back exactly if the text is no longer than the limit of its mode and level, at least up to 2953 bytes at the low level; it decodes to the segment of the text, at a level not below the one asked for |
| Reader.EncodeBinary | deps/qrcodegen.cpp:253-256 | A symbol comes back exactly up to the limit of the level, 2953 bytes at the low one; it decodes to one byte segment with the data |
| Framing.Socket.ReadData | common/src/connection/BaseConnection.cpp:140-156 | Exactly the bytes asked for, however they are cut up; an error exactly at the first call that fails for good, with the error of that failure, or at the end of the stream |
| Framing.Socket.ReadHeader | common/src/connection/BaseConnection.cpp:48-67 | Stops right behind the first header its matcher recognizes |
| Framing.Socket.ReadPacket | common/src/connection/BaseConnection.cpp:48-102 | Under every schedule a returned packet is the next one of the stream; the call fails exactly at the first turn that is no progress and no retry, with the error of that turn, or with the error that fits the stream |
| Framing.Socket.WriteData | common/src/connection/BaseConnection.cpp:158-172 | All bytes if no call fails for good; otherwise a prefix of them and the error of the first such call |
| Framing.Socket.WritePacket | common/src/connection/BaseConnection.cpp:104-138 | The frame if no call fails for good; otherwise a prefix of it and the error of the first such call |
| Framing.Socket.WritePackets | common/src/connection/BaseConnection.cpp:104-138 | Successive writes put the frames on the connection one behind the other, or a prefix of that; all of it under benign schedules |
| Framing.Socket.ReadPackets | common/src/connection/BaseConnection.cpp:48-102 | Successive reads return successive packets of the stream |
| Framing.Resynchronizes | common/src/connection/BaseConnection.cpp:52-67 | Behind junk without a header, the next header is recognized exactly if the junk leaves the matcher at 0; otherwise all of it is lost |
| Framing.StrayByteLosesFrame | common/src/connection/BaseConnection.cpp:62-65 | One stray first header byte makes the reader miss a frame |
| Framing.FrameReadsBack | common/src/connection/BaseConnection.cpp:104-138 | A frame reads back exactly if the id fits sixteen bits and the payload has 1..65535 bytes |
| Framing.FrameFormat | common/src/connection/BaseConnection.cpp:104-138 | The bytes of a frame: the eight header bytes, id and length high byte first, payload |
| Framing.FramesReadBack | common/src/connection/BaseConnection.cpp:48-138 | Any list of such packets, with skippable junk between them, is read back in order |
| Framing.BrokenStreamIsPrefix | common/src/connection/BaseConnection.cpp:48-138 | From a stream of frames that breaks off anywhere, a reader gets a prefix of the packets, never a torn or invented one |
| LegacyProtocol.DataStreams.WritePacket | android-app/app/src/main/java/com/pcbiounlock/cloud/LegacyProtocol.kt:51-54 | Refuses exactly empty and oversized payloads and otherwise writes the same frame as the PC, or a prefix of it if the connection fails |
| LegacyProtocol.DataStreams.ReadPacket | android-app/app/src/main/java/com/pcbiounlock/cloud/LegacyProtocol.kt:56-65 | Returns the next packet of the stream, and fails exactly if there is none |
| LegacyProtocol.DataStreams.WritePackets | android-app/app/src/main/java/com/pcbiounlock/cloud/LegacyProtocol.kt:51-54 | Successive writes put the frames one behind the other, up to the first write that fails |
| LegacyProtocol.DataStreams.ReadPackets | android-app/app/src/main/java/com/pcbiounlock/cloud/LegacyProtocol.kt:56-65 | Successive reads return successive packets of the stream, up to the first failure |
| Transport.PcToPc | common/src/connection/BaseConnection.cpp:48-138 | What one PC reads of the packets another PC writes is a prefix of the list under every pair of schedules, and the list itself under benign ones |
| Transport.PcToPhone | android-app/app/src/main/java/com/pcbiounlock/cloud/LegacyProtocol.kt:56-65 | What the phone reads of the packets the PC writes is a prefix of the list, and the list itself if the PC's calls are benign |
| Transport.PhoneToPc | android-app/app/src/main/java/com/pcbiounlock/cloud/LegacyProtocol.kt:51-54 | What the PC reads of the packets the phone writes is a prefix of the list, and the list itself if the connection takes it all and the PC's calls are benign |
| LegacyProtocol.HexRoundTrip | android-app/app/src/main/java/com/pcbiounlock/cloud/LegacyProtocol.kt:92-93 | Decoding undoes encoding, whatever other digits the parser knows |
| LegacyProtocol.CanonicalHex | android-app/app/src/main/java/com/pcbiounlock/cloud/LegacyProtocol.kt:92-93 | A text, also one with digits beyond ASCII, survives decoding and encoding exactly if it consists of pairs of lower-case digits |
| Relay.Service.SelectOldest | cloud/src/index.ts:89-98 | A row with the least created_at of a non-empty selection |
| Relay.Service.HandlePostDevice | cloud/src/index.ts:53-59 | One step: a new device of the session's user, with its name and times; a name of a wrong length is refused |
| Relay.Service.HandlePostRequest | cloud/src/index.ts:65-74 | One step: expired rows go, the request is inserted for the calling device, whose last_seen_at is set |
| Relay.Service.HandlePostCommand | cloud/src/index.ts:75-86 | One step: only the owner, expired rows go, the command is inserted |
| Relay.Service.HandleGetCommand | cloud/src/index.ts:87-94 | One step: an oldest live command is returned and consumed |
| Relay.Service.HandleGetRequest | cloud/src/index.ts:95-101 | One step: an oldest live request is returned and stays |
| Relay.Service.HandlePostResponse | cloud/src/index.ts:102-113 | One step: the request is consumed and the response inserted, or nothing changes |
| Relay.Service.HandleGetResponse | cloud/src/index.ts:114-121 | One step: the response is returned and consumed |
| RelayRuns.Origin | cloud/src/index.ts:65-121 | In every run every row was inserted by an earlier call and differs from what it inserted only by being consumed |
| RelayRuns.OneResponse | cloud/src/index.ts:102-113 | Over a whole run a request accepts at most one response |
| RelayRuns.ReturnedOnce | cloud/src/index.ts:87-121 | Over a whole run every command and every response is returned at most once, across expiry deletions |
| RelayRuns.FetchedOnce | cloud/src/index.ts:114-121 | Over a whole run at most one call returns a response to a request |
| RelayRuns.IndexNeverFires | cloud/migrations/0001_init.sql:32-32 | The unique index on responses is never violated |
| RelayRuns.ResponsesAreGenuine | cloud/src/index.ts:65-121 | A fetched response was posted for that request of that device, by the device's owner, less than 120 seconds before |
| RelayRuns.CommandsAreGenuine | cloud/src/index.ts:75-94 | A returned command was posted as a command to that device, by its owner, less than 120 seconds before |
| RelayRuns.RequestsAreGenuine | cloud/src/index.ts:65-101 | A user sees only live, unanswered requests of own devices, as the device posted them |
| RelayRuns.CommandsInOrder | cloud/src/index.ts:87-94 | With an ascending clock a device gets its commands in order of creation, over the whole run |
| RelayDelivery.PendingIsRow | cloud/src/index.ts:65-121 | A message that no call has consumed, and that no call has found expired, is in the tables as it was posted |
| RelayDelivery.RowIsPending | cloud/src/index.ts:65-121 | What is unconsumed in the tables is such a message |
| RelayDelivery.PollFinds | cloud/src/index.ts:87-121 | A poll for commands, requests or a response comes back empty if and only if no posted message is due: pending, for that device and request, and less than 120 seconds old |
| RelayDelivery.PollDelivers | cloud/src/index.ts:87-121 | Otherwise it hands out a message that is due with its payload, and of commands and requests an oldest one |
| RelayDelivery.TimesAreNoted | cloud/src/index.ts:65-121 | When a message was consumed and when a device was last seen is noted |
| RelayAccess.TokenIsRegistered | cloud/src/index.ts:26-29 | A device token stands for a device if and only if that device was registered with it |
| RelayAccess.OwnerRegistered | cloud/src/index.ts:53-59 | A user owns a device if and only if the user registered it |
| RelayAccess.SessionIsLogin | cloud/src/index.ts:21-25 | A session token stands for a user if and only if the last login with it was the user's and has not ended |
| RelayAccess.DeviceAsSent | cloud/src/index.ts:53-59 | A device is stored with its user, name and times |
| RelayAccess.UnauthorizedExactly | cloud/src/index.ts:53-121 | A call is unauthorized exactly if its token stands for nobody |
| RelayAccess.InvalidExactly | cloud/src/index.ts:17-20 | Names have 1 to 80 and payloads 2 to 8192 characters; other texts are refused, and nothing else |
| RelayAccess.CommandExactly | cloud/src/index.ts:75-86 | A command is posted exactly if the device is the user's and the text has the right length |
| RelayAccess.ResponseExactly | cloud/src/index.ts:102-113 | A response is accepted exactly if the request is due for a device of the user |
| UnlockJoin.RunKeepsInv | common/src/handler/UnlockHandler.cpp:67-111 | The invariant of the join in every interleaving: counter, mutex, who may still notify, whose results are stored |
| UnlockJoin.NoLostWakeup | common/src/handler/UnlockHandler.cpp:81-97 | Once all workers have finished, the main thread is not left waiting and can take a step until it returns |
| UnlockJoin.Lifetimes | common/src/handler/UnlockHandler.cpp:96-110 | Past the wait every RunServer call has returned; connections are deleted after all threads have ended |
| UnlockJoin.ResultIsSomeones | common/src/handler/UnlockHandler.cpp:76-111 | The returned result, a success in particular, is what one RunServer call returned |
| UnlockSchedules.ReturnsExactly | common/src/handler/UnlockHandler.cpp:67-111 | From a reachable state the call can still return if and only if all workers have finished or main does not hold the mutex with the counter complete |
| UnlockSchedules.DeadlockIsReachable | common/src/handler/UnlockHandler.cpp:84-107 | With any number of workers a state is reachable in which nobody can move and the call has not returned |
| UnlockSchedules.SuccessCanBeLost | common/src/handler/UnlockHandler.cpp:76-87 | With any two or more workers a run returns the failure of one although another has succeeded, for every such pair of results |
| UnlockSchedules.SuccessIsLostExactly | common/src/handler/UnlockHandler.cpp:67-111 | Some finished run loses a success if and only if there are at least two connections |
| UnlockJoin.SuccessSurvivesAtomicStores | common/src/handler/UnlockHandler.cpp:82-83 | If the check and the store of line 82 and 83 are never separated, a success is never lost |
| UnlockPoll.ServerLoop.RunServer | common/src/handler/UnlockHandler.cpp:114-187 | Which observations of the first turn that ends the loop lead to success, time-out, cancellation, a polled state or a missing password, and with what device and password; None exactly if every turn goes on; the broadcast calls alternate and it broadcasts exactly while it waits |
| UnlockPoll.VerdictIsExplained | common/src/handler/UnlockHandler.cpp:131-186 | Every turn's outcome in terms of what was observed |
| UnlockSession.UnlockConnection.BeginAuthFlow | common/src/connection/unlock/BaseUnlockConnection.cpp:41-44 | The first step of a flow, under the state lock: its connection state, and whether a request is to be sent |
| UnlockSession.UnlockConnection.SendFirstRequest | common/src/connection/unlock/BaseUnlockConnection.cpp:45-53 | The second step, without the lock: the flow goes on exactly if the request was written |
| UnlockSession.UnlockConnection.MarkRequested | common/src/connection/unlock/BaseUnlockConnection.cpp:47-49 | The third step, under the lock again: the connection has its request |
| UnlockSession.UnlockConnection.CheckState | common/src/connection/unlock/BaseUnlockConnection.cpp:60-60 | When a read has failed, the flow goes on to store its error exactly if no state is set |
| UnlockSession.UnlockConnection.StoreError | common/src/connection/unlock/BaseUnlockConnection.cpp:61-74 | The last step of such a flow: closed, timed out or any other read error, whatever the state is by now |
| UnlockSession.UnlockConnection.OnPacketReceived | common/src/connection/unlock/BaseUnlockConnection.cpp:78-114 | One step for a packet in every connection state: the device is paired or unknown, the response gives the state it means, and packets out of turn change nothing |
| UnlockSession.UnlockConnection.SendUnlockRequest | common/src/connection/unlock/BaseUnlockConnection.cpp:116-132 | The request is written, or the state names the failure: closed, timed out, or anything else |
| UnlockSession.UnlockConnection.ProcessUnlockResponse | common/src/connection/unlock/BaseUnlockConnection.cpp:158-224 | Which responses lead to each of the eight states a response can give |
| UnlockSessionRuns.SuccessIsHonest | common/src/connection/unlock/BaseUnlockConnection.cpp:78-224 | After any events a success means: the stored token is this session's and came from a socket that was sent a request |
| UnlockSessionRuns.FlowMovesForward | common/src/connection/unlock/BaseUnlockConnection.cpp:41-114 | Within a flow the connection state never moves backwards, and a flow that has written a request writes no other |
| UnlockSessionRuns.OneRequestPerFlow | common/src/connection/unlock/BaseUnlockConnection.cpp:41-132 | A flow writes at most one request to its socket, whatever happened before and happens on other sockets meanwhile |
| UnlockSessionRuns.ClientSuccessIsTheDevices | common/src/connection/unlock/BaseUnlockConnection.cpp:41-224 | In client flows the device never changes, and a success was sealed under its key |
| UnlockSessionRuns.DeviceMismatchExactly | common/src/connection/unlock/BaseUnlockConnection.cpp:41-224 | The success of a new connection object can come to belong to a device with another key if and only if the object is a server and two known devices have different keys |
| UnlockSessionRuns.OverwritesExactly | common/src/connection/unlock/BaseUnlockConnection.cpp:41-75 | The end of a flow can overwrite a state that another flow has set if and only if the object has more than one socket |
| Base32.ToBase32String | common/src/utils/StringUtils.cpp:113-129 | The unmasked, wrapping accumulator emits the bits of the bytes in groups of five, the last group filled with zeros |
| Base32.CodeLength | common/src/utils/StringUtils.cpp:113-129 | The code of n bytes has ceil(8n / 5) symbols |
| Base32.AlphabetFormat | common/src/utils/StringUtils.cpp:113-129 | The symbols are the capital letters and the digits 2 to 7, in order |
| Base32.DecodesBack | common/src/utils/StringUtils.cpp:113-129 | Decoding without padding returns the bytes, for every byte string |
| Base32.WithSeperators | common/src/utils/StringUtils.cpp:89-94 | The chunks of the string joined with the separator |
| Base32.GroupFormat | common/src/utils/StringUtils.cpp:89-94 | A hyphen stands behind every full group but the last, and all else is the string in order, for every group size |
| Base32.StripUndoesGrouping | common/src/utils/StringUtils.cpp:89-94 | Removing the hyphens undoes the grouping, for every group size |
| Base32.PairingCode | desktop/src/ui/PairingForm.cpp:37-40 | Stripped and decoded, the pairing code gives back the payload |
| LogonBuffer.UnicodeStringInitWithString | natives/win-pcbiounlock/src/helpers.cpp:86-110 | Accepts exactly non-null strings of at most 32767 characters |
| LogonBuffer.KerbInteractiveUnlockLogonInit | natives/win-pcbiounlock/src/helpers.cpp:136-190 | Succeeds exactly for three accepted strings in a known scenario |
| LogonBuffer.KerbInteractiveUnlockLogonPack | natives/win-pcbiounlock/src/helpers.cpp:210-260 | The bytes of the buffer: message type, zeroed logon id, and three string fields whose strings follow the header and each other without gap or overlap and end with the buffer, whose size fits a DWORD |
| LogonBuffer.PackedBytes | natives/win-pcbiounlock/src/helpers.cpp:210-260 | The bytes of a packed buffer: message type, lengths, offset, zeroed logon id, and characters low byte first |
| LogonBuffer.Buffer.UnpackInPlace | natives/win-pcbiounlock/src/helpers.cpp:414-430 | The offsets in the bytes become pointers if all range checks pass, and nothing changes otherwise |
| LogonBuffer.UnpackExactly | natives/win-pcbiounlock/src/helpers.cpp:414-430 | Whatever the buffer holds: if all three strings end within the byte count, in 64-bit arithmetic, the three pointers are set, and otherwise nothing |
| LogonBuffer.UnpackingYieldsStrings | natives/win-pcbiounlock/src/helpers.cpp:414-430 | A packed buffer passes its range checks, and unpacking yields the three strings |
| LogonBuffer.ShortCountIsRefused | natives/win-pcbiounlock/src/helpers.cpp:415-422 | With any smaller byte count the buffer is left as it is |

## Left out

- Segments.MakeNumeric: the character count is a mathematical number. The `int` of the source overflows beyond 2147483647 characters, which C++ leaves undefined; the same holds for alphanumeric text.
- QrSymbol.QrCode.constructor: grids are sequence fields rather than arrays, because the vectors are values of the object; aliasing does not arise.
- Reader.ReadsBack: the reader takes level and mask from the first format copy and corrects no errors; that blocks are codewords is `BlocksHaveZeroSyndromes`.
- RelayRuns.ReturnedOnce: holds for atomic handlers; the source does not make SELECT and UPDATE of one GET handler one step.
- LogonBuffer.KerbInteractiveUnlockLogonPack: the header has the layout and the enumeration codes of a 64-bit Windows, whose headers are not part of this model; a 32-bit build is not modelled.
- Choosing the connection objects of GetResult, including the fall-through from UDP to the cloud client, would only add an easy member.
- Sockets, Bluetooth, HTTP, Qt, Android, registry and COM plumbing; OpenSSL, BouncyCastle and JSON internals.
- The relay's account, login and password-hashing routes.
- `PairingServer::m_NumConnections`, which is not a count of live clients; `StringUtils::Replace` with an empty replacement; `Split` with an empty delimiter.
- Settings and device storage, version comparison, locale and enum conversions, PAM file editing.
