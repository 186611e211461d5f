# Verified models of darkbox, pngLua and ptnio

This project models four parts of the repository in Dafny and proves what they are for.

1. **The DEFLATE and zlib decoder** (`deflate.lua`). The bit reader, the Huffman tables, the headers of
   dynamic blocks, the ring window, the block loop and Adler-32 are methods and classes, each proved
   against functions on a flat bit list and the unbounded output (`DeflateSpec`, `BlockSpec`). On those
   functions the laws are proved: canonical codes are those of RFC 1951 and decode uniquely, and every
   stream that a specification encoder (`Encoder`) writes is decoded to what was encoded, from the single
   token up to the zlib wrapper. In the other direction, a stream that is decoded by standard means is one
   that the encoder writes (`StreamConverse.DecodesIffEncoded`).
2. **PNG un-filtering in place** (`png.lua` over `stream.lua`). The walk of the cursor over the shared
   buffer is modelled step by step and proved to invert the filters of RFC 2083 row by row.
3. **Bitwise operations by arithmetic** (`numberlua.lua`), each proved to be the operation on bits.
4. **darkbox and ptnio.** The line and circle loops draw exactly characterised sets of cells; the text
   escaper and the command parser are inverse; the send commands of ptnio are modelled twice, as loops
   over sockets with arbitrary peers, and as a two-party protocol over every interleaving with failures
   at any moment, of which the loops are runs.

## How it is laid out

| files | what they hold |
|---|---|
| `Bits`, `BitOps` | numbers as bits; `numberlua.lua` |
| `BitStreams`, `Huffman`, `HuffmanRfc`, `HuffmanBuild`, `HuffmanRead`, `HuffmanRoundTrip` | the bit reader and the Huffman tables |
| `Window`, `DeflateSpec`, `BlockSpec`, `LzTables`, `Decoder` | output, items, blocks and streams: the functions and the loops |
| `Encoder`, `DeflateRoundTrip`, `ItemConverse`, `StreamConverse`, `Zlib`, `Truncation` | the encoder, the round trips in both directions, and input that is cut short |
| `DeflateFormat` | the format in numbers, independent of the tables and of the encoder |
| `DistanceSymbols`, `HeaderRuns`, `HeaderStandard` | where the program leaves the standard |
| `PngFilter`, `Png`, `PngImage`, `PngSamples` | the filters, the cursor, the rows, the pixels in numbers |
| `Line`, `Circle`, `Darkbox`, `DarkboxIo`, `DarkboxRoundTrip`, `DarkboxOverrun`, `DarkboxLines` | darkbox |
| `Nms`, `Transfer`, `TransferClient`, `TransferRefusal`, `TransferSteps`, `TransferProtocol`, `NmsProtocol`, `LoopRuns` | ptnio |

`dafny verify dfyconfig.toml` checks everything.

## Where the code is not what it seems

- Distance symbol 30 is reserved by RFC 1951, but the base table runs one entry too far and the missing
  bit count reads one bit, so the program accepts it (`DistanceSymbols`).
- A length of 258 is decoded from symbol 284 with all extra bits set too, for which the standard has symbol
  285 (`DistanceSymbols.LongestLengthTwice`).
- Literal and distance code lengths are decoded by two runs with separate state, the standard has one
  sequence. `HeaderStandard.HeaderAgreesIff` gives the exact condition under which this makes no
  difference, and headers of both kinds on which it does are exhibited there.
- A comment in the bit reader says that after a failed read further calls fail too. They fail exactly when
  more bits are asked for than are left (`BitStreams.BitStream.AfterFailedRead`).
- `read_string` stores its terminator at index `max_length`, one cell beyond the arrays that are passed to
  it, whenever the input does not begin with a shorter string: `DarkboxOverrun.OverrunIff`. This is so for
  every text of 1024 characters or more, and for the command buffer whenever the input ends between
  commands. The modelled buffers have that cell.
- A row of a PNG image that is cut short is an error when its filter type is 1 to 4. With type 0 the missing
  samples are read as smaller numbers. Where even the filter byte is missing, the instance's filter type is
  nil and the default of the class, 0, is found instead; the row is read as one of zero samples. So an image
  whose data ends between rows is decoded without an error; its missing rows are black, transparent where there
  is an alpha channel, and of the first colour of a palette (`PngImage.CutImage`).
- The bit library named `bit`, which is tried first, returns signed numbers. This shows in one place only:
  a read of 32 bits, as for the header of a gzip file, gives a negative number when the top bit is set
  (`BitStreams.BitStream.ReadNative`).
- A word alone on its line is displayed on one line with the next: the newline behind it only ends the word
  (`DarkboxLines.LineComesBack`). Of a first word of more than 128 characters one is lost
  (`DarkboxLines.LongWordLosesOne`).
- At the end of the input darkbox displays 128 end-of-file characters, a space and one more before it exits;
  `Darkbox.END_MARK` is that string.
- `recv_code` reports SUCCESS when the peer has closed. `TransferProtocol.ReliableIff` says when that matters:
  not over Unix-domain sockets, which report a send to a closed peer, but over the TCP connections of the
  Windows build (lib/znsock/ipc.c:20-31), where such a send can pass silently.

## Model

| member | source | states |
|---|---|---|
| BitOps.XorBits | tools/png2darkbox/pngLua/numberlua.lua:189-220 | the reference: bit i of Xor(a, b) is set exactly when the bits of a and b differ, for all naturals |
| BitOps.AndBits | tools/png2darkbox/pngLua/numberlua.lua:226-226 | the reference: bit i of And(a, b) is set exactly when both bits are |
| BitOps.BitopBase2 | tools/png2darkbox/pngLua/numberlua.lua:189-206 | the base-2 digit loop, whose quotients shrink until one operand is zero, computes Xor for all naturals |
| BitOps.XorMemo.Lookup | tools/png2darkbox/pngLua/numberlua.lua:179-213 | the two-level memo table always answers Xor of its keys, whether the entry is new or cached |
| BitOps.XorMemo.Bxor | tools/png2darkbox/pngLua/numberlua.lua:189-220 | the base-16 digit loop over the memo table computes Xor for all naturals, so it agrees with the base-2 loop |
| BitOps.SumIsXorPlusCarries | tools/png2darkbox/pngLua/numberlua.lua:226-226 | a + b = xor + 2 * and, the identity that makes band an integer |
| BitOps.BandIsBitwise | tools/png2darkbox/pngLua/numberlua.lua:226-226 | band is bitwise AND for all naturals |
| BitOps.BorIsBitwise | tools/png2darkbox/pngLua/numberlua.lua:223-229 | bnot is bitwise NOT and bor bitwise OR on values below 2^32 |
| BitOps.MaskIsMod | tools/png2darkbox/pngLua/numberlua.lua:226-226 | band with 2^k - 1 is the remainder modulo 2^k |
| BitOps.RshiftBits | tools/png2darkbox/pngLua/numberlua.lua:234-237 | bit i of rshift is bit i + disp of the low 32 bits |
| BitOps.LshiftBits | tools/png2darkbox/pngLua/numberlua.lua:240-243 | bit i of lshift is bit i - disp, and nothing leaves the low 32 bits |
| BitOps.NegativeShifts | tools/png2darkbox/pngLua/numberlua.lua:234-243 | displacements below zero shift the other way, bit for bit |
| BitOps.ExtractBits | tools/png2darkbox/pngLua/numberlua.lua:259-262 | bit i of extract is bit field + i of the 32-bit value, below the width only |
| BitOps.ReplaceBits | tools/png2darkbox/pngLua/numberlua.lua:265-271 | replace takes the bits of v inside the field and those of n outside it |
| BitOps.ExtractOfReplace | tools/png2darkbox/pngLua/numberlua.lua:259-271 | extract after replace gives v mod 2^width |
| BitOps.ReplaceKeepsOtherFields | tools/png2darkbox/pngLua/numberlua.lua:259-271 | replace leaves every disjoint field as it was |
| BitOps.BswapReversesBytes | tools/png2darkbox/pngLua/numberlua.lua:274-280 | bswap reverses the four bytes |
| BitOps.BswapInvolution | tools/png2darkbox/pngLua/numberlua.lua:274-280 | bswap is its own inverse on values below 2^32 |
| BitOps.RrotateRotates | tools/png2darkbox/pngLua/numberlua.lua:283-287 | bit i of rrotate is bit (i + disp) mod 32, for any integer disp, negative ones included |
| BitOps.RotationsAdd | tools/png2darkbox/pngLua/numberlua.lua:283-287 | rotating by a and then by b is rotating by a + b, and by (a + b) mod 32 |
| BitOps.LrotateUndoesRrotate | tools/png2darkbox/pngLua/numberlua.lua:283-292 | lrotate undoes rrotate |
| BitOps.ArshiftIsFloorDivision | tools/png2darkbox/pngLua/numberlua.lua:299-303 | arshift by 0 to 31 is floor division of the signed 32-bit value by 2^disp |
| BitStreams.BitStream.constructor | tools/png2darkbox/pngLua/deflate.lua:294-297 | a new reader stands before all bits of the input, least significant bit of each byte first |
| BitStreams.BitStream.NextByte | tools/png2darkbox/pngLua/deflate.lua:307-307 | the byte stream below the reader: one byte after the other, then nothing |
| BitStreams.BitStream.ReadArithmetic | tools/png2darkbox/pngLua/deflate.lua:326-339 | a read returns the next nbits bits as a slice of the flat bit list, keeps buf_byte < 2^buf_nbit, and takes only the bytes it needs; a read that fails loses no bits |
| BitStreams.BitStream.ReadNative | tools/png2darkbox/pngLua/deflate.lua:304-324 | the same with a library of 32-bit operations, while the filled buffer fits into 32 bits: the signed library that is tried first gives the same numbers, except for a read of a whole word with its top bit set, which is negative |
| BitStreams.BitStream.Read | tools/png2darkbox/pngLua/deflate.lua:294-345 | with either library and with none, the reader gives the same slices for every read of at most 24 bits, and keep buf_nbit < 8 between reads |
| BitStreams.BitStream.AfterFailedRead | tools/png2darkbox/pngLua/deflate.lua:304-339 | two reads in a row, the first of which fails: the second gives the bits it asks for if so many are left, those that the first had fetched included, and fails otherwise |
| BitStreams.BitStream.SkipToByte | tools/png2darkbox/pngLua/deflate.lua:730-730 | reading nbits_left_in_byte bits lands on the next byte boundary |
| BitStreams.BitStream.NbitsLeftInByte | tools/png2darkbox/pngLua/deflate.lua:298-300 | the number of buffered bits |
| Huffman.SortedIsUnique | tools/png2darkbox/pngLua/deflate.lua:381-400 | sorting by (nbits, val) has one result whatever the order of pairs(init) was |
| Huffman.CodeIncreases | tools/png2darkbox/pngLua/deflate.lua:402-413 | the codes of a sorted table strictly increase, so no two are equal |
| Huffman.CodeIsKraftSum | tools/png2darkbox/pngLua/deflate.lua:402-413 | the i-th code is 2^n_i * (1 + sum of 2^-n_j over j < i), scaled to integers |
| Huffman.CodesFitIffKraft | tools/png2darkbox/pngLua/deflate.lua:402-413 | every code has exactly its length in bits if and only if the Kraft inequality holds |
| Huffman.LookIndex | tools/png2darkbox/pngLua/deflate.lua:415-420 | every key of look is the code of an entry, and its value is that entry's symbol |
| HuffmanRfc.CodeAtIsRfcCode | tools/png2darkbox/pngLua/deflate.lua:402-413 | below the marker bit, each code is the one that the bl_count and next_code procedure of section 3.2.2 of RFC 1951 gives the symbol |
| HuffmanRfc.CanonicalFitsIffKraft | tools/png2darkbox/pngLua/deflate.lua:378-413 | the Kraft inequality on the code lengths decides whether the table's codes fit |
| HuffmanBuild.FromLengths | tools/png2darkbox/pngLua/deflate.lua:378-420 | the table built from a list of code lengths, keys visited in any order, is the canonical one |
| HuffmanBuild.FromRanges | tools/png2darkbox/pngLua/deflate.lua:387-420 | the table built from value ranges is the canonical one of the lengths they describe |
| HuffmanBuild.AssignCodes | tools/png2darkbox/pngLua/deflate.lua:402-413 | the loop that assigns codes, multiplying at each change of length, gives the canonical codes |
| HuffmanRead.MsbArithmetic | tools/png2darkbox/pngLua/deflate.lua:435-443 | msb with arithmetic reverses the bits it is given |
| HuffmanRead.MsbNative | tools/png2darkbox/pngLua/deflate.lua:428-434 | msb with 32-bit operations does the same |
| HuffmanRead.SkipShort | tools/png2darkbox/pngLua/deflate.lua:452-454 | no code can be found before minbits bits, so they can be taken at once |
| HuffmanRead.FirstRead | tools/png2darkbox/pngLua/deflate.lua:445-454 | taking minbits bits, reversing them and adding the marker reaches the same point as starting from marker 1 and reading one bit at a time |
| HuffmanRead.ReadSymbol | tools/png2darkbox/pngLua/deflate.lua:448-470 | t:read gives the symbol and the position of bit-by-bit decoding; it fails exactly when the input ends inside a code |
| HuffmanRead.SymbolConsumes | tools/png2darkbox/pngLua/deflate.lua:448-470 | a decoded symbol takes at least one bit and leaves the rest untouched |
| HuffmanRoundTrip.PrefixFree | tools/png2darkbox/pngLua/deflate.lua:402-420 | no proper prefix of a code is a code when the codes fit |
| HuffmanRoundTrip.SymbolRoundTrip | tools/png2darkbox/pngLua/deflate.lua:448-470 | under Kraft every symbol is read back from its code, whatever bits follow |
| HuffmanRoundTrip.SymbolsRoundTrip | tools/png2darkbox/pngLua/deflate.lua:448-470 | repeated reads over the concatenated codes give any symbol sequence back and stop right after it |
| Window.AdlerClosedForm | tools/png2darkbox/pngLua/deflate.lua:808-814 | folding adler32 from 1 gives the two sums of section 8.2 of RFC 1950 modulo 65521 in one word below 2^32 |
| Window.WeightedSumIs | tools/png2darkbox/pngLua/deflate.lua:808-814 | the weight of byte i in the second sum is n - i |
| Window.LookBack | tools/png2darkbox/pngLua/deflate.lua:706-709 | in every reachable state the window entry at distance d is the byte written d outputs ago, and is unset exactly when d exceeds the output; distances above 32768 wrap |
| Window.CopyIsPeriodic | tools/png2darkbox/pngLua/deflate.lua:706-709 | an overlapping copy repeats with period d |
| Window.OutState.Output | tools/png2darkbox/pngLua/deflate.lua:187-193 | one output appends a byte, keeps the ring window equal to the last 32768 bytes, and updates the checksum |
| Window.OutState.CopyMatch | tools/png2darkbox/pngLua/deflate.lua:706-709 | the copy loop is the overlapping copy on the unbounded output; it raises its error exactly when the distance is too large, and then outputs nothing |
| LzTables.BuildLenBase | tools/png2darkbox/pngLua/deflate.lua:640-650 | the loop fills the length bases of section 3.2.5 of RFC 1951 |
| LzTables.BuildLenExtra | tools/png2darkbox/pngLua/deflate.lua:651-667 | both forms of the loop fill the numbers of extra length bits |
| LzTables.BuildDistBase | tools/png2darkbox/pngLua/deflate.lua:673-682 | the loop fills the distance bases of the standard and one more, 32769 at symbol 30 |
| LzTables.BuildDistExtra | tools/png2darkbox/pngLua/deflate.lua:683-698 | both forms of the loop fill the numbers of extra distance bits, of symbols 0 to 29 only |
| Decoder.ReadLength | tools/png2darkbox/pngLua/deflate.lua:668-671 | a length symbol with its extra bits gives the length of the standard |
| Decoder.ReadDistance | tools/png2darkbox/pngLua/deflate.lua:699-703 | a distance symbol with its extra bits; symbol 31 fails, symbol 30 is read with one extra bit because its bit count is missing |
| Decoder.ParseMatch | tools/png2darkbox/pngLua/deflate.lua:668-709 | a match gives the copy that its symbols stand for, or an error with nothing written |
| Decoder.ParseCompressedItem | tools/png2darkbox/pngLua/deflate.lua:632-712 | one item: a literal, a match or the end of the block, as on the flat bit list |
| Decoder.ParseItems | tools/png2darkbox/pngLua/deflate.lua:747-750 | the item loop ends on every input and gives the same bytes and the same position as the specification |
| Decoder.Decode | tools/png2darkbox/pngLua/deflate.lua:585-616 | one run of code lengths with its repeat symbols |
| Decoder.ParseHuffmanTables | tools/png2darkbox/pngLua/deflate.lua:569-625 | the two tables of a dynamic block from its header |
| Decoder.ParseStoredBlock | tools/png2darkbox/pngLua/deflate.lua:729-737 | a stored block: to the byte boundary, two lengths of which the second is not checked, then the bytes |
| Decoder.FixedTables | tools/png2darkbox/pngLua/deflate.lua:743-744 | the fixed tables are the canonical ones of section 3.2.6 of RFC 1951 |
| Decoder.ParseBlock | tools/png2darkbox/pngLua/deflate.lua:715-756 | one block of any type; an unknown type is an error |
| Decoder.Inflate | tools/png2darkbox/pngLua/deflate.lua:759-767 | inflate ends on every finite input, with the bytes and the reader position of the specification |
| BlockSpec.BlockBounded | tools/png2darkbox/pngLua/deflate.lua:715-756 | a finished block takes at least one bit; finished or failed, a block outputs at most 129 bytes for each bit it has consumed |
| BlockSpec.StreamBounded | tools/png2darkbox/pngLua/deflate.lua:759-767 | the output is at most 129 bytes for each bit consumed; on failure the bits are counted up to the item, length or header that failed |
| DistanceSymbols.ExpansionBound | tools/png2darkbox/pngLua/deflate.lua:759-767 | inflate outputs at most 1032 bytes for each byte of input |
| DistanceSymbols.DistanceStandardIff | tools/png2darkbox/pngLua/deflate.lua:673-703 | a decoded distance is one of the standard exactly when its symbol is below 30 |
| DistanceSymbols.SymbolThirtyCopies | tools/png2darkbox/pngLua/deflate.lua:673-709 | for every length and whatever the codes, symbol 30 with extra bit b is accepted and copies from b + 1 bytes back, if there are so many; the standard has no such symbol |
| DistanceSymbols.HigherSymbolsFail | tools/png2darkbox/pngLua/deflate.lua:699-703 | for every length, every distance symbol above 30 fails |
| DistanceSymbols.LongestLengthTwice | tools/png2darkbox/pngLua/deflate.lua:640-671 | a length of 258 is decoded from symbol 284 with all extra bits set as well as from symbol 285 |
| DeflateRoundTrip.TokenRoundTrip | tools/png2darkbox/pngLua/deflate.lua:632-712 | a literal or a match (length 3 to 258, distance 1 to 32768 and within the output) encoded with any codes under Kraft is decoded as itself |
| DeflateRoundTrip.TokensRoundTrip | tools/png2darkbox/pngLua/deflate.lua:632-756 | the item loop gives exactly the LZ77 expansion of any token list and leaves the reader just after the end-of-block code |
| DeflateRoundTrip.HeaderRoundTrip | tools/png2darkbox/pngLua/deflate.lua:569-625 | a dynamic header is read back as the code lengths it was made for, repeat symbols included |
| DeflateRoundTrip.BlockRoundTrip | tools/png2darkbox/pngLua/deflate.lua:715-756 | a block of each type is read back at any bit position, whatever the padding and the second length of a stored block are |
| DeflateRoundTrip.StreamRoundTrip | tools/png2darkbox/pngLua/deflate.lua:759-767 | inflate of an encoded list of blocks gives their output and stops right after the last block |
| DeflateRoundTrip.FixedKraft | tools/png2darkbox/pngLua/deflate.lua:743-744 | the fixed codes satisfy Kraft |
| DeflateFormat.OrderIs | tools/png2darkbox/pngLua/deflate.lua:576-577 | the order of the code length codes in closed form: 16, 17, 18 and 0, then outward from 8 and 7 to 1 and 15 |
| DeflateFormat.CodeLengthFields | tools/png2darkbox/pngLua/deflate.lua:574-582 | three-bit field i of a header gives the length of the symbol at that place, lowest bit first, and symbols without a field get 0 |
| DeflateFormat.HeaderCountFields | tools/png2darkbox/pngLua/deflate.lua:570-574 | five, five and four bits for the numbers of codes beyond 257, 1 and 4 |
| DeflateFormat.LengthSymbols | tools/png2darkbox/pngLua/deflate.lua:590-608 | what each symbol of the code length alphabet stands for: one length, 3 to 6 repetitions, 3 to 10 or 11 to 138 zeros, any other an error |
| DeflateFormat.BlockFields | tools/png2darkbox/pngLua/deflate.lua:715-717 | a block begins with the bit that marks the last one and two bits of type, the lower one first |
| DeflateFormat.StoredBody | tools/png2darkbox/pngLua/deflate.lua:727-736 | type 0: bits up to the byte boundary, the length in 16 bits, 16 bits that are not looked at, and that many bytes |
| DeflateFormat.FixedLiterals | tools/png2darkbox/pngLua/deflate.lua:737-750 | type 1: the codes of the literals, from 00110000 and from 110010000 on, and 0000000 for the end |
| DeflateFormat.FixedMatch | tools/png2darkbox/pngLua/deflate.lua:641-716 | type 1: the codes of all lengths and distances with their extra bits, in closed form, and the copy they stand for or the failure of a distance beyond the output |
| DeflateFormat.KnownStream | tools/png2darkbox/pngLua/deflate.lua:759-767 | the four bytes 4B 84 03 00 are ten times the letter a |
| ItemConverse.SymbolIs | tools/png2darkbox/pngLua/deflate.lua:448-470 | under Kraft, whatever is decoded as a symbol begins with the code of that symbol |
| ItemConverse.ItemIs | tools/png2darkbox/pngLua/deflate.lua:632-712 | every decoded item, except a distance symbol above 29 or symbol 284 for a length of 258, is the encoding of a token that fits |
| ItemConverse.ItemsAre | tools/png2darkbox/pngLua/deflate.lua:747-750 | a run of such items that ends is the encoding of some token list, and its output the expansion of that list |
| StreamConverse.HeaderIs | tools/png2darkbox/pngLua/deflate.lua:569-625 | a header that is read, with codes under Kraft and runs that end where the counts say, is the encoding of some header |
| StreamConverse.StreamIs | tools/png2darkbox/pngLua/deflate.lua:759-767 | a stream decoded by standard means is the encoding of some list of blocks, followed by what is left unread |
| StreamConverse.DecodesIffEncoded | tools/png2darkbox/pngLua/deflate.lua:759-767 | inflate succeeds by standard means with a given output and a given rest if and only if the input is the encoding of blocks with that output, followed by that rest |
| HeaderRuns.TwoRunsAgreeIff | tools/png2darkbox/pngLua/deflate.lua:585-622 | the two runs give what the single sequence of section 3.2.7 of RFC 1951 gives if and only if no run crosses the boundary and the distance lengths do not open with a repeat of a non-zero length |
| HeaderRuns.CrossingRunMisplacesReader | tools/png2darkbox/pngLua/deflate.lua:585-622 | a run that crosses the boundary leaves the reader at another place than the standard, or fails |
| HeaderRuns.MissingCodeLengthFails | tools/png2darkbox/pngLua/deflate.lua:578-621 | when a code length code length cannot be read, which the program does not check, no 257 literal lengths can be decoded from what is left, so the run fails all the same |
| HeaderStandard.StandardRoundTrip | tools/png2darkbox/pngLua/deflate.lua:569-625 | the reference: a header read as one sequence gives the lengths it was written for, runs across the boundary included |
| HeaderStandard.HeaderAgreesIff | tools/png2darkbox/pngLua/deflate.lua:569-625 | on every header the standard allows, the program finds the same tables and the same end if and only if its two runs meet at the boundary |
| HeaderStandard.CrossingHeader | tools/png2darkbox/pngLua/deflate.lua:585-622 | on every header with a run that crosses the boundary the program disagrees with the standard |
| HeaderStandard.OpeningRepeatHeader | tools/png2darkbox/pngLua/deflate.lua:597-599 | and on every header whose distance lengths open by repeating a non-zero literal length |
| HeaderStandard.CrossingExists | tools/png2darkbox/pngLua/deflate.lua:585-622 | such headers exist: two long runs of zeros, with any code length code that has a code for 18 |
| HeaderStandard.OpeningRepeatExists | tools/png2darkbox/pngLua/deflate.lua:597-599 | and of the other kind, with any that has codes for 1, 16 and 18 |
| Zlib.ParseZlibHeader | tools/png2darkbox/pngLua/deflate.lua:540-567 | the header fields are read in order and checked as the program checks them |
| Zlib.HeaderIff | tools/png2darkbox/pngLua/deflate.lua:540-567 | a header is accepted if and only if its two bytes meet section 2.2 of RFC 1950 and ask for no dictionary |
| Zlib.InflateZlib | tools/png2darkbox/pngLua/deflate.lua:817-853 | inflate_zlib: the bytes handed on, success, and whether anything trails |
| HeaderStandard.ProgramDisagrees | tools/png2darkbox/pngLua/deflate.lua:585-622 | one code length code with which there are bits of either kind that the standard reads as a header and the program reads differently |
| Zlib.ZlibRoundTrip | tools/png2darkbox/pngLua/deflate.lua:817-853 | for any encoded stream, any padding, any trailer and anything behind it: the output is that of the blocks, and with checking on the run succeeds exactly when the trailer is the Adler-32 of the output |
| Zlib.AcceptedTrailer | tools/png2darkbox/pngLua/deflate.lua:835-846 | with checking on, an encoded stream is accepted exactly when its trailer is the two sums modulo 65521, most significant byte first |
| Truncation.StreamPersists | tools/png2darkbox/pngLua/deflate.lua:759-767 | with more bytes behind it, a stream that was decoded is decoded to the same output and the bytes are left over; one that failed outputs at least what it did before |
| Truncation.CutStream | tools/png2darkbox/pngLua/deflate.lua:759-767 | a cut encoded stream is decoded if and only if nothing of it was cut off, and outputs a beginning of its output in any case |
| Truncation.CutZlibStream | tools/png2darkbox/pngLua/deflate.lua:817-853 | of a zlib stream cut to its first k bytes the output is a beginning of what was encoded, and the run succeeds if and only if the whole checksum is there and, with checking on, right |
| PngFilter.PaethIsNearest | tools/png2darkbox/pngLua/png.lua:225-233 | the predictor is the neighbour nearest to a + b - c, ties going to a, then b |
| PngFilter.UnfilterUndoesFilter | tools/png2darkbox/pngLua/png.lua:135-209 | undoing any filter of section 6 of RFC 2083 after applying it gives the row back |
| PngFilter.FilterUndoesUnfilter | tools/png2darkbox/pngLua/png.lua:135-209 | and the other way round |
| PngFilter.ImageRoundTrip | tools/png2darkbox/pngLua/png.lua:268-271 | for every image, with any filter chosen for each row, unfiltering leaves the original rows and zeroed filter bytes |
| PngFilter.DecodingIsIdempotent | tools/png2darkbox/pngLua/png.lua:135-209 | decoding an already decoded buffer changes nothing |
| Png.Stream.Seek | tools/png2darkbox/pngLua/stream.lua:33-35 | the cursor moves by any amount, also below the buffer |
| Png.Stream.ReadByte | tools/png2darkbox/pngLua/stream.lua:55-58 | a byte, or nil below the buffer or behind it; the cursor moves on in every case |
| Png.Stream.ReadInt | tools/png2darkbox/pngLua/stream.lua:60-78 | a big-endian number from the next bytes, or from as many as are left, with the cursor one step further for a missing byte |
| Png.Stream.WriteByte | tools/png2darkbox/pngLua/stream.lua:93-96 | overwrites or appends one byte, or nothing below the buffer, and moves on |
| Png.RestoreOne | tools/png2darkbox/pngLua/png.lua:149-155 | the body of each inner loop: the walk back to the left, upper and upper-left neighbours and forward again restores one byte in place, at the first pixel and in the first row too; a missing byte is an error |
| Png.RestorePixel | tools/png2darkbox/pngLua/png.lua:147-158 | bpp such steps restore one pixel and step back to its start, unless a byte is missing |
| Png.ReadPixel | tools/png2darkbox/pngLua/png.lua:88-124 | a pixel of each colour type from the numbers read one after the other, wherever the buffer ends, or an error for a missing palette entry |
| Png.WholePixel | tools/png2darkbox/pngLua/png.lua:88-124 | of a pixel that lies wholly in the buffer these are its samples |
| PngSamples.BytesAre | tools/png2darkbox/pngLua/stream.lua:14-21 | the number of one, two, three and four bytes, the first counting most and four being signed |
| PngSamples.BigEndianIsValue | tools/png2darkbox/pngLua/stream.lua:14-19 | for any number of bytes the sum of b[i] * 256^(n - 1 - i) |
| PngSamples.GreyPixels | tools/png2darkbox/pngLua/png.lua:90-117 | at 8 bits a grey pixel is its byte three times, with alpha 255 or with the next byte as alpha |
| PngSamples.ColourPixels | tools/png2darkbox/pngLua/png.lua:97-123 | at 8 bits a colour pixel is three bytes, red first, with alpha 255 or with the fourth byte as alpha |
| PngSamples.PalettePixel | tools/png2darkbox/pngLua/png.lua:103-110 | at 8 bits a palette pixel is the colour at its byte, counting from 0, with alpha 255, or an error |
| PngSamples.WideGreyPixels | tools/png2darkbox/pngLua/png.lua:90-117 | the same for grey at 16 bits, the high byte first |
| PngSamples.WideColourPixels | tools/png2darkbox/pngLua/png.lua:97-123 | and for colour at 16 bits |
| PngSamples.WidePalettePixel | tools/png2darkbox/pngLua/png.lua:103-110 | and for palette indices of 16 bits |
| PngSamples.CutInt | tools/png2darkbox/pngLua/stream.lua:60-78 | at the end of the buffer a number is that of the bytes that are left, 0 if there are none |
| PngSamples.OddRows | tools/png2darkbox/pngLua/png.lua:135-218 | an unknown colour type is an error, an unknown filter type gives a row without pixels and clears its byte, and a filtered row that is not all there is an error |
| PngSamples.EightBitRow | tools/png2darkbox/pngLua/png.lua:143-145 | pixel i of a row of each colour type at 8 bits, from the bytes of the row |
| Png.ScanLine | tools/png2darkbox/pngLua/png.lua:135-218 | what becomes of a row on any buffer, at any depth and colour type: an error for an invalid colour type, a missing palette entry or a missing byte of a filtered row; an unknown filter type only clears its byte; a row of type 0 is read as far as it goes, and so is a row without a filter byte, which is given one |
| Png.WholeRow | tools/png2darkbox/pngLua/png.lua:135-209 | a row that lies wholly in the buffer is unfiltered in place: the pixels are those of the original row, nothing outside the row changes, its filter byte becomes 0, and the cursor moves by bpl + 1 |
| Png.MissingRow | tools/png2darkbox/pngLua/png.lua:135-146 | a row that begins behind the end of the buffer comes out in full length with all samples 0, or as an error if the palette is empty; the buffer grows by one 0 |
| PngImage.DecodeImage | tools/png2darkbox/pngLua/png.lua:268-271 | the row loop on any buffer: the rows, the buffer and the cursor, or an error, row by row |
| PngImage.ImageDecoded | tools/png2darkbox/pngLua/png.lua:268-271 | for a buffer of complete rows of known filter types the whole buffer is unfiltered in place the rows are the pixels of the original image, and the cursor is behind the last row |
| PngImage.DecodedAgain | tools/png2darkbox/pngLua/png.lua:268-271 | decoding the decoded buffer again gives the same rows, buffer and cursor, or the same error |
| PngImage.CutImage | tools/png2darkbox/pngLua/png.lua:268-271 | image data that ends after k complete rows, n rows too early: the first k rows are those of the image and the other n are rows of zero samples |
| PngImage.PngToPixels | tools/png2darkbox/pngLua/png.lua:262-271 | compressed data to pixels: inflating and then decoding gives the pixels of the original rows |
| PngImage.PngEndToEnd | tools/png2darkbox/pngLua/png.lua:262-271 | compressed data to rows: whatever filters, tokens and codes an encoder chose, inflating and unfiltering gives the original rows |
| Line.MinorAtIsNearest | darkbox/darkbox.c:360-379 | the minor coordinate is the nearest integer to that of the ideal line |
| Line.LineEnds | darkbox/darkbox.c:360-379 | the line begins at A and ends at B |
| Line.LineIsConnected | darkbox/darkbox.c:364-379 | each cell is one of the eight neighbours of the one before |
| Line.LineCellsDistinct | darkbox/darkbox.c:364-379 | no cell is drawn twice |
| Line.LineIsNearIdeal | darkbox/darkbox.c:364-379 | every cell satisfies 2 * abs(dx*Y - dy*X) <= max(dx, dy): it is within half a cell of the ideal line |
| Line.ErrorBound | darkbox/darkbox.c:362-379 | at every loop head err = err0 - dy*X + dx*Y is below max(dx, dy) in size, with a fixed sign |
| Line.OneStep | darkbox/darkbox.c:369-378 | one turn of the loop moves the longer axis by one and the other as the ideal line asks |
| Line.DrawLine | darkbox/darkbox.c:360-379 | the loop ends and draws exactly the max(dx, dy) + 1 cells of the ideal line in order, for all endpoints |
| Circle.CircleIsSymmetric | darkbox/darkbox.c:419-428 | the circle is closed under all eight reflections about its centre |
| Circle.OneCellPerDiagonal | darkbox/darkbox.c:418-437 | each diagonal of an octant from the middle one to that of the radius holds exactly one cell, the last with rx^2 + ry^2 <= r^2 + 1, and the others none |
| Circle.NextUp | darkbox/darkbox.c:430-432 | the error term stays rx^2 + ry^2 + 2*ry - r^2 when the loop goes up |
| Circle.NextLeft | darkbox/darkbox.c:433-436 | and when it goes left |
| Circle.DrawCircle | darkbox/darkbox.c:412-438 | for r >= 0 the loop runs r + 1 times and the cells drawn are exactly the circle; for negative r nothing is drawn |
| DarkboxIo.Console.GetChar | darkbox/darkbox.c:114-114 | the next byte of the input, then end of file |
| DarkboxIo.Console.Puts | darkbox/darkbox.c:251-251 | fputs displays the buffer up to its first zero |
| DarkboxIo.Console.Escape | darkbox/darkbox.c:106-128 | -e writes its input as display commands of at most 1024 characters, quotes and backslashes escaped |
| DarkboxIo.Console.ReadString | darkbox/darkbox.c:502-533 | read_string: spaces skipped, quotes, escapes, the end characters, the length limit and the end of the input; the characters are stored from the front and the terminator right behind them, at index max_length if there are so many |
| DarkboxIo.ParseCmd | darkbox/darkbox.c:174-224 | parse_cmd: a command with its count and letters, one of two errors, or a line that is echoed, up to the exit at the end of the input |
| DarkboxIo.ReadCount | darkbox/darkbox.c:202-204 | the count of a command: decimal, stopped at the largest long, cut to 32 bits |
| DarkboxIo.Execute | darkbox/darkbox.c:227-258 | execute_cmd for the commands that display text, end the line or end the program |
| DarkboxIo.Serve | darkbox/darkbox.c:134-139 | the main loop ends on every input and displays what the specification says |
| DarkboxRoundTrip.ScanUndoesEscape | darkbox/darkbox.c:106-128 | read_string undoes the escaping of one command and stops right after its closing quote |
| DarkboxRoundTrip.DisplayUndoesEscape | darkbox/darkbox.c:106-139 | for every text of non-zero bytes of any length, the server fed with the output of -e displays exactly that text, uses up the input and ends |
| DarkboxRoundTrip.ZeroByteEndsText | darkbox/darkbox.c:502-533 | a zero byte ends the displayed text, and what was escaped after it is run as commands |
| DarkboxRoundTrip.DisplayedIff | darkbox/darkbox.c:106-139 | the text comes back if and only if it has no zero byte |
| DarkboxOverrun.StringReads | darkbox/darkbox.c:502-533 | of a string as it is written, in spaces, quotes and escapes, read_string stores the characters it stands for, cut at max_length |
| DarkboxOverrun.OverrunIff | darkbox/darkbox.c:521-532 | the terminator goes to index max_length, beyond the array, if and only if the input does not begin with a string of fewer than max_length characters |
| DarkboxOverrun.OverrunAtEnd | darkbox/darkbox.c:521-532 | at the end of the input every buffer is overrun |
| DarkboxOverrun.EscapedOverrunsIff | darkbox/darkbox.c:111-128 | a command that -e wrote overruns the text buffer if and only if it holds 1024 characters without a zero byte |
| DarkboxOverrun.DisplayedOverruns | darkbox/darkbox.c:106-139 | displaying an escaped text always overruns the command buffer, and the text buffer if and only if the text has at least 1024 characters |
| DarkboxLines.UnquotedString | darkbox/darkbox.c:502-533 | a word ends at the first blank, tab, line end or zero and at nothing else; at most max_length characters are stored, and the character behind them is read |
| DarkboxLines.QuotedString | darkbox/darkbox.c:502-533 | a string in quotes ends at the next quote or zero and at nothing else |
| DarkboxLines.EscapedCharacter | darkbox/darkbox.c:522-524 | a backslash makes any character one of the string |
| DarkboxLines.LineComesBack | darkbox/darkbox.c:180-198 | a line that is no command is displayed as it was, its word of at most 128 characters followed by a blank, up to its newline or the end of the input |
| DarkboxLines.LongWordLosesOne | darkbox/darkbox.c:174-198 | of a longer first word the character behind the first 128 is replaced by a blank |
| DarkboxLines.QuotedLines | darkbox/darkbox.c:180-198 | the same for a string in quotes; one that holds a newline is displayed alone |
| DarkboxLines.EndOfInput | darkbox/darkbox.c:174-198 | at the end of the input 128 characters 255, a blank and one more are displayed |
| DarkboxLines.CommandWord | darkbox/darkbox.c:200-224 | a command word: dash or slash, decimal digits for a count or none for 1, and letters |
| DarkboxLines.BadWord | darkbox/darkbox.c:205-224 | a command word without a letter behind its digits is an error of one kind, one with another character among its letters of the other, and nothing is displayed |
| DarkboxLines.NewLineCommand | darkbox/darkbox.c:253-258 | -n, with any count, in small and capital letters, among letters without a meaning: that many newlines, and the input goes on behind the word |
| DarkboxLines.QuitCommand | darkbox/darkbox.c:329-336 | the letter q ends the program, whatever follows |
| DarkboxLines.OtherCommand | darkbox/darkbox.c:227-258 | the letters whose commands are not followed further, small and capital |
| DarkboxLines.DisplayedText | darkbox/darkbox.c:242-250 | -d displays the word or the text in quotes behind it, of at most 1024 characters |
| DarkboxLines.TwoLines | darkbox/darkbox.c:134-139 | two commands on two lines are run as two |
| DarkboxLines.EscapedIs | darkbox/darkbox.c:106-128 | what -e writes, character by character: quotes and backslashes marked, 1024 characters to a command |
| Darkbox.ParseAtEnd | darkbox/darkbox.c:174-198 | at the end of the input the parser displays the buffer full of end-of-file characters and exits |
| Nms.FrameLayout | lib/nms.c:26-43 | a frame is its length in two bytes, low byte first, and the data |
| Nms.FrameRoundTrip | lib/nms.c:26-43 | a frame is received as it was sent, whatever follows it |
| Nms.FrameIsUnique | lib/nms.c:75-96 | what is received as a frame was exactly that frame on the wire |
| Nms.CutFrameFails | lib/nms.c:75-96 | a frame that ends early is refused |
| Nms.Socket.Recv | lib/znsock/socket.c:31-52 | waits for all bytes; fewer only when the peer has closed |
| Nms.Socket.NmsSend | lib/nms.c:26-43 | two length bytes and the data, or an error after the head at most |
| Nms.Socket.NmsRecvNoAlloc | lib/nms.c:75-96 | takes one frame from the stream into the buffer, or fails |
| Transfer.SendCode | ptnio/server/commands/server_cmd_utils.c:107-110 | a code is sent and a failure to send it is ignored |
| Transfer.ServerCmdSend | ptnio/server/commands/server_cmd_tcp.c:118-167 | the refusals in order; else the frames are forwarded until an empty one, a failure or the end, with one code each |
| Transfer.ServerCmdNmsSend | ptnio/server/commands/server_cmd_nms.c:70-125 | the same refusals; then the frames themselves are forwarded, an empty one only when it is the first, and one code more is sent at the end |
| TransferClient.RecvCode | ptnio/client/client_utils.c:23-31 | the code, 0xFF on an error, and SUCCESS when the peer has closed |
| TransferClient.ClientHandleSend | ptnio/client/client_handle.c:102-134 | the exit code and the bytes sent, for any input, any replies and any failing send |
| TransferClient.RefusedClient | ptnio/client/client_handle.c:115-133 | a first code other than 0 is the exit code and nothing is sent; a connection that breaks before it gives 255 |
| TransferClient.FirstBadReply | ptnio/client/client_handle.c:118-128 | later too, the first code other than 0 ends the transfer and is the exit code |
| TransferClient.ExitCodes | ptnio/client/client_handle.c:118-133 | the exit codes in numbers: 12 when a send of the client fails first, 3 when one of the server does, else 0 |
| TransferClient.NmsExitCodes | ptnio/server/commands/server_cmd_nms.c:97-124 | the same for nms_send |
| TransferRefusal.RefusedCommand | ptnio/server/commands/server_cmd_tcp.c:118-145 | a refused command from end to end, for both commands: the client exits with 1 for missing arguments, 4 for an unknown id and 2 for lack of memory, sends nothing and leaves its input unread |
| TransferClient.LoopsMeet | ptnio/client/client_handle.c:118-128 | client and server together, whichever sends of either side fail: exactly the chunks whose sends all succeeded are forwarded, and the exit code names the first failure or is SUCCESS if there was none |
| TransferClient.TransferMeets | ptnio/client/client_handle.c:118-133 | a whole transfer: SUCCESS exactly when every send succeeded, and then all of the input was forwarded |
| TransferClient.NmsLoopsMeet | ptnio/server/commands/server_cmd_nms.c:97-124 | the same for nms_send: the receiver takes exactly the chunks whose sends succeeded, even when a head without its data was written after them |
| TransferClient.NmsTransferMeets | ptnio/server/commands/server_cmd_nms.c:97-124 | a whole nms_send: SUCCESS exactly when every send succeeded, two for each chunk or one for an empty input, and then all of the input arrives |
| TransferClient.NmsForwards | ptnio/server/commands/server_cmd_nms.c:97-124 | frames of any sizes are forwarded as they are up to the first whose sends fail, with one code for each frame |
| TransferClient.NmsKeepsFraming | ptnio/server/commands/server_cmd_nms.c:97-124 | the receiver sees the same chunks one by one, up to the first that failed; an empty input arrives as one empty frame |
| TransferProtocol.StepKeepsInv | ptnio/server/commands/server_cmd_tcp.c:145-167 | every step of either side, failures included, keeps the invariant on buffers, connection and TCP socket |
| TransferProtocol.ForwardsPrefix | ptnio/server/commands/server_cmd_tcp.c:145-164 | in every run, what was written to the TCP socket is a prefix of what the client read |
| TransferProtocol.OneFrameUnacknowledged | ptnio/client/client_handle.c:118-128 | while both sides are at work, at most one frame is unacknowledged and at most one code is on its way |
| TransferProtocol.SuccessMeansAll | ptnio/client/client_handle.c:118-133 | if the client exits with SUCCESS the TCP socket received all of the input, unless the server was stopped and the connection swallowed a send |
| TransferProtocol.ReliableIff | ptnio/client/client_handle.c:118-133 | for each input the exit code can be relied on in all runs exactly when the input is empty or a send to a closed connection never passes silently |
| TransferSteps.LostInput | ptnio/client/client_utils.c:23-31 | for both commands and every input that is not empty, a run that ends with SUCCESS though nothing was forwarded: the closed connection is taken for an acknowledgement |
| TransferProtocol.NoFaultMeansSuccess | ptnio/client/client_handle.c:118-133 | without failures from outside the client ends with SUCCESS, the server has finished, and the transfer is whole |
| TransferProtocol.NeverStuck | ptnio/client/client_handle.c:102-134 | until both sides have finished, one of them can move without any failure |
| TransferSteps.StepCounts | ptnio/server/commands/server_cmd_tcp.c:145-167 | every step of either command, failures included, brings the end nearer |
| TransferSteps.RunsAreFinite | ptnio/client/client_handle.c:102-134 | no run of either command is longer than a bound that depends on the length of the input alone |
| LoopRuns.SendIsRun | ptnio/client/client_handle.c:102-134 | the loops of client and server are runs of the protocol: for every input and every number of sends that succeed there is a run with the same exit code and the same bytes on the TCP socket |
| LoopRuns.NmsSendIsRun | ptnio/server/commands/server_cmd_nms.c:97-124 | the same for nms_send |
| LoopRuns.BrokenConnection | ptnio/client/client_utils.c:23-31 | for every input a run in which the client ends with 255 because the connection broke, and one in which it takes that for a code |
| LoopRuns.RefusedRun | ptnio/server/commands/server_cmd_tcp.c:122-141 | for each refusal a run in which the client ends with its code |
| NmsProtocol.StepKeepsInv | ptnio/server/commands/server_cmd_nms.c:97-124 | the same for nms_send, with its two sends for each frame and its last code |
| NmsProtocol.ForwardsPrefix | ptnio/server/commands/server_cmd_nms.c:97-124 | in every run, what the receiver takes from the TCP socket frame by frame is a prefix of what the client read, even behind a head whose data never came |
| NmsProtocol.SuccessMeansAll | ptnio/server/commands/server_cmd_nms.c:97-124 | if the client exits with SUCCESS the receiver has all of the input, unless the server was stopped and the connection swallowed a send |
| NmsProtocol.ReliableIff | ptnio/server/commands/server_cmd_nms.c:97-124 | the exit code can be relied on under the same condition as that of send |
| NmsProtocol.NoFaultMeansSuccess | ptnio/server/commands/server_cmd_nms.c:97-124 | without failures from outside the client ends with SUCCESS, and all of the input has arrived in whole frames, an empty input as one empty frame |
| NmsProtocol.NeverStuck | ptnio/server/commands/server_cmd_nms.c:97-124 | until both sides have finished, one of them can move without any failure, also when the last code goes to a client that has closed |

## Left out

- Lua numbers are mathematical integers and C `int` does not overflow, within the ranges the contracts state; negative and fractional operands of the bit operations are not modelled.
- Decoder.Inflate: fails at once on a failed read, where the program goes on to the next use of the missing value; in between it outputs nothing. The longest way is that of a missing code length code length, see `HeaderRuns.MissingCodeLengthFails`. Error texts and debug output are not modelled.
- gunzip, whose checksum function is commented out in the source, and the use of a preset dictionary, which the source refuses.
- Memo tables that change nothing but speed (`tfirstcode`, the tables kept between calls of `parse_compressed_item`); the memo of the XOR digits is modelled.
- BitStreams.BitStream.ReadNative: says nothing about reads that need more than 32 buffered bits, because 32-bit operations lose bits there; no caller in the modelled code makes one.
- BitStreams.BitStream.Read: covers reads of at most 24 bits; the 32-bit reads of the gzip header are not part of this model.
- HuffmanRead.ReadSymbol: asks for a shortest code of at most 24 bits; header code lengths are at most 15.
- HuffmanBuild.FromRanges: asks for ranges in ascending order, as both calls in the source have them.
- Png.ScanLine: begins at a cursor at or behind the first byte, where the row loop always is; interlaced images are not supported by the source. Bit depths below 8 are modelled as the source has them, with pixels of no bytes.
- Png.ReadPixel: begins at such a cursor too.
- Reading the chunks of the image file, and the palette from it, is not modelled.
- `tohex`, `btest`, `tobit` and the variadic bit32 forms: easy members.
- Darkbox commands other than display, newline and quit: reading integers by `strtol`, cursor and colour commands, boxes. A run that meets one ends in the outcome `Other`; the line and circle loops are modelled on their own.
- The console itself: moving the cursor and putting a space is one cell appended to a trace; standard error is the error value that `DarkboxIo.ParseCmd` returns; bytes above 127 are neither spaces nor letters, as in the C locale.
- DarkboxIo.ReadCount: takes `long` to have 64 bits; where it has 32, larger counts stop at 2147483647.
- DarkboxIo.Execute: stops at a letter whose command is not modelled.
- DarkboxIo.Serve: ends where Execute stops.
- Sockets are byte sequences: a send delivers all of its data or fails, a receive waits for its full length or the peer's close; timeouts, `nms_recv` with allocation, the connection set-up and the registry of socket ids are not modelled.
- `server_cmd_recv`: its counted loop does not keep to the count from 0xFFFF on, and no clean end-to-end claim holds.
- `fllist`, argument parsers, `choice`, `cbatbox`, `tcs_o`, the input server, the class library: outside the four parts.
