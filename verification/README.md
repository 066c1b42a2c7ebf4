# Verification of the compression, messaging, hashing and game code

A Dafny model of the parts of this repository that carry its hardest logic, with proofs
of what they promise:

- the DEFLATE and zlib encoder and decoder of lodepng.c: hash chains and LZ77, boundary
  package-merge in a garbage-collected pool, canonical Huffman trees, run-length coded code
  lengths, stored, fixed and dynamic blocks, Adler-32;
- the PNG scanline pipeline of lodepng.c: filters, padding, Adam7 interlacing, in place,
  with its 32-bit sizes;
- the message queue thread of msg_handle.c, as a state machine over its atomic steps;
- AES (aes.c), SHA-1, SHA-512 and MD5 on messages in pieces;
- the four-in-a-row board and search of four.c and ai_core.c;
- the variable-length code tables of minimp3.c.

Code that updates buffers, lists or tables step by step is modelled by methods and classes
whose contracts tie them to functions on values; the properties are proved of those
functions. `dafny verify dfyconfig.toml` checks the whole project.

How the modules build on each other:

- bits and codes: Powers, BitStream, PrefixCode, HuffmanTree, TreeInvariant
- code lengths: PackageMerge, PackageOptimal, PackageExact, PackageSums, BpmPool, LeafSort, CodeLengths, CodeLengthRle
- LZ77: Lz77, HashChain, LzEncoder
- decoder: Inflate (the format as functions), Inflator (the loops); what a stream means:
  StreamFormat, LengthsFormat, BlockFormat; the tables in closed form: DeflateTables, KnownStream
- encoder: SymbolWriter, LengthsWriter, BlockCost, Deflator, DeflateStream, Zlib,
  AdlerForm
- images: ScanlineFilter, ImageFilter, ReversedBits, Adam7, Adam7Moves, Scanlines; with 32-bit
  sizes: Sizes32, Passes32, ScanlineEncoder, ScanlineDecoder, ScanlineCodec, Idat
- threads: MsgQueue, MsgHandle, MsgProgress
- ciphers: AesField, AesProduct, AesSbox, AesInverse, AesRounds, AesCipher, AesKeys
- hashes: HashStream, Sha1, Sha512, HashConstants, Md5, Md5Block, SineConstants
- games: Four, FourGame, FourRun, AiCore
- MP3 tables: VlcBits, Vlc, VlcSize, VlcBuild, VlcRead

## Model

| member | source | states |
|---|---|---|
| `DeflateStream.Deflate` | c_code/linux/user/get_android_screen/lodepng.c:2017-2056 | for every input, window size and block type: defined unless the empty string is compressed with fixed trees; the error is 0, 60, 61 or 90 exactly as the settings say; without error the output, with anything after it, inflates to what was stored, and it inflates to the input if and only if the input survives (always for compressed blocks; for stored blocks exactly when it is not empty and `Storable`) |
| `DeflateStream.RoundTrip` | c_code/linux/user/get_android_screen/lodepng.c:2058-2069 | where compressing is defined, compressing and then running the decoder gives error 0 and the input back if and only if the input survives |
| `DeflateStream.StoredContentIs` | c_code/linux/user/get_android_screen/lodepng.c:1653-1687 | what the stored blocks hold is the input if and only if every byte from 2^32 on equals the byte 2^32 before it and the last block has the right length |
| `DeflateStream.StoredRoundTrip` | c_code/linux/user/get_android_screen/lodepng.c:1225-1251 | reading all stored blocks from block i on, whatever follows them, succeeds and yields the stored content |
| `DeflateStream.WrapLosesByte` | c_code/linux/user/get_android_screen/lodepng.c:1659 | an input of 2^32 + 1 bytes that is not storable: its first byte comes back in place of its last one |
| `DeflateStream.WrapAtEnd` | c_code/linux/user/get_android_screen/lodepng.c:1659-1683 | every input of at most 2^32 bytes is storable |
| `DeflateStream.StoredAccepted` | c_code/linux/user/get_android_screen/lodepng.c:1234-1240 | of the legal stored blocks exactly those are refused, with error 52, that are empty and end the input |
| `Deflator.DeflateDynamic` | c_code/linux/user/get_android_screen/lodepng.c:1724-1967 | writes the bits of one dynamic block whose tokens expand to data[datapos..dataend); its three trees never fail or overflow for blocks of at most 262144 bytes; no two codes with lengths up to 15 would take fewer bits for these tokens; and the hash chains stay usable for the next block |
| `Deflator.DeflateFixed` | c_code/linux/user/get_android_screen/lodepng.c:1969-2015 | the same for a block with the fixed trees, with or without LZ77 |
| `BlockFormat.InflateBlockOk` | c_code/linux/user/get_android_screen/lodepng.c:1253-1281 | a block at any bit position of a stream is read back: its tokens are expanded after the output so far and the bit pointer moves past exactly its bits |
| `BlockFormat.ReadTreesOk` | c_code/linux/user/get_android_screen/lodepng.c:983-1129 | reading the header of a dynamic block returns the trees its encoder used and skips exactly the header |
| `Inflator.InflateData` | c_code/linux/user/get_android_screen/lodepng.c:1253-1281 | the imperative decoder agrees, on output and error code, with the functional definition of the format on every byte string, valid or not; the rows on the tables below say what that definition is |
| `DeflateTables.ClclPositions` | c_code/linux/user/get_android_screen/lodepng.c:501-502 | in what was read as lengths of the code length alphabet, symbols 16, 17, 18 and 0 come from fields 0 to 3, symbols 8 to 15 from every second field from 4 on, and 7 down to 1 from those between; fields left out are 0 |
| `DeflateTables.RepeatSymbols` | c_code/linux/user/get_android_screen/lodepng.c:1039-1102 | symbol 16 repeats the last length 3 to 6 times, 17 stands for 3 to 10 zeros, 18 for 11 to 138, with 2, 3 and 7 extra bits |
| `DeflateTables.LengthSymbols` | c_code/linux/user/get_android_screen/lodepng.c:480-487 | the lengths from 3 on are dealt out to the symbols without gap or overlap, with one more extra bit every four symbols; 258 has a symbol of its own |
| `DeflateTables.DistanceSymbols` | c_code/linux/user/get_android_screen/lodepng.c:490-498 | the distances from 1 on likewise, with one more extra bit every two symbols |
| `DeflateTables.FixedCodes` | c_code/linux/user/get_android_screen/lodepng.c:908-924 | the fixed code of every symbol is the one that section 3.2.6 of RFC 1951 lists |
| `DeflateTables.CanonicalRules` | c_code/linux/user/get_android_screen/lodepng.c:611-649 | codes of one length are consecutive numbers in symbol order, and shorter codes come before longer ones |
| `KnownStream.LetterInflates` | c_code/linux/user/get_android_screen/lodepng.c:1253-1281 | three bytes that another encoder writes for one letter, with anything after them, inflate to it and end after 18 bits |
| `KnownStream.StoredLetter` | c_code/linux/user/get_android_screen/lodepng.c:1225-1251 | the letter in a stored block of six bytes is read |
| `KnownStream.LetterUnzips` | c_code/linux/user/get_android_screen/lodepng.c:2126-2169 | a zlib stream of nine bytes decompresses to the letter, checksum included |
| `Inflator.CopyBytes` | c_code/linux/user/get_android_screen/lodepng.c:1190-1204 | copying byte by byte when the ranges overlap and at once otherwise is the same as repeating the match byte by byte |
| `LzEncoder.EncodeLZ77` | c_code/linux/user/get_android_screen/lodepng.c:1474-1649 | the stored values are those of tokens that expand to exactly in[inpos..insize), whatever the hash chains hold; the tokens are chosen from the longest runs found as the source does, a match that is not very long giving way to the next position if that one is longer by more than one; the only errors are 60 and 90 for the window size; the chains are valid afterwards |
| `HashChain.Hash.Search` | c_code/linux/user/get_android_screen/lodepng.c:1521-1583 | whatever the chains lead to, the match is the first of the longest real repetitions among the slots looked at, inside the window and the input and at most 258 long; the slots are linked, and the search ends only at its limits, at a long enough match or at the end of the chain |
| `HashChain.Hash.Insert` | c_code/linux/user/get_android_screen/lodepng.c:1454-1463 | entering a position links its slot to the head of both lists and makes it their head, and keeps every slot of both circular chains pointing at bytes that are really there |
| `Lz77.CopyRestores` | c_code/linux/user/get_android_screen/lodepng.c:1190-1204 | copying a repetition restores the bytes it was found in, overlapping or not |
| `Lz77.AddLengthDistance` | c_code/linux/user/get_android_screen/lodepng.c:1328-1360 | a length and a distance become the symbols and extra bits that stand for them |
| `SymbolWriter.WriteLZ77Data` | c_code/linux/user/get_android_screen/lodepng.c:1695-1721 | appends exactly the bits of the tokens whose values it is given |
| `TreeInvariant.CompleteTree` | c_code/linux/user/get_android_screen/lodepng.c:546-604 | error 55 cannot occur for lengths whose Kraft sum is exactly 1 |
| `TreeInvariant.DecodeSymbolOk` | c_code/linux/user/get_android_screen/lodepng.c:947-965 | for every code the array tree could be built for: decoding the bits written for a symbol returns that symbol and skips exactly its length |
| `TreeInvariant.DecodedIsCode` | c_code/linux/user/get_android_screen/lodepng.c:947-965 | the converse: a symbol other than 0 is only returned for the bits of its own code |
| `PrefixCode.PrefixFree` | c_code/linux/user/get_android_screen/lodepng.c:611-649 | no canonical code is a prefix of the code of another symbol |
| `HuffmanTree.MakeFromLengths` | c_code/linux/user/get_android_screen/lodepng.c:611-667 | counting, first codes, codes and the array tree give the canonical code of the lengths, or error 55 exactly when its tree cannot be built |
| `HuffmanTree.HuffmanDecodeSymbol` | c_code/linux/user/get_android_screen/lodepng.c:947-965 | the loop over the array tree is the recursive walk from its root |
| `PackageMerge.LengthsValid` | c_code/linux/user/get_android_screen/lodepng.c:758-787 | boundary package-merge on n sorted weights with n <= 2^bits: every leaf gets a length in 1..bits, and the Kraft sum is exactly 1 |
| `PackageMerge.FinalChain` | c_code/linux/user/get_android_screen/lodepng.c:859-865 | the last chain stands for exactly 2n-2 entries of the last list, with nested leaf counts and at most one node for each list |
| `PackageExact.FinalFirst` | c_code/linux/user/get_android_screen/lodepng.c:758-787 | that chain stands for the lightest 2n-2 entries of the full last list of package-merge |
| `PackageExact.Optimal` | c_code/linux/user/get_android_screen/lodepng.c:758-787 | the lengths boundary package-merge gives sorted leaves cost no more than any lengths from 1 to the limit that satisfy Kraft's inequality |
| `PackageOptimal.CodesCostMore` | c_code/linux/user/get_android_screen/lodepng.c:670-671 | the cost of every such code is at least the weight of the lightest 2n-2 entries |
| `BpmPool.BpmLists.BoundaryPM` | c_code/linux/user/get_android_screen/lodepng.c:758-787 | the recursion on the pool, with its mark and sweep, changes the chains as the same recursion on immutable chains does; it is stopped exactly when a sum of two `int` weights would not fit |
| `BpmPool.BpmLists.Create` | c_code/linux/user/get_android_screen/lodepng.c:698-728 | the node handed out is reachable from no chain, and the free nodes stay unreachable |
| `BpmPool.BpmLists.Collect` | c_code/linux/user/get_android_screen/lodepng.c:703-721 | a collection leaves every link alone and frees at least half of the pool, so a free node is always found |
| `BpmPool.BpmLists.Run` | c_code/linux/user/get_android_screen/lodepng.c:836-860 | all calls go through exactly when no sum overflows, and then the pool holds the final lists of package-merge |
| `PackageSums.BuildLimited` | c_code/linux/user/get_android_screen/lodepng.c:758-787 | in every state of the recursion the heads of list c, and so every sum formed for it, are at most 2^(c-1) times the two largest frequencies together |
| `PackageSums.NoOverflow` | c_code/linux/user/get_android_screen/lodepng.c:769-772 | no sum overflows for weights that add up to at most 262145, what a full block and its end code count, with up to 15 lists and any number of leaves, three included |
| `LeafSort.Sort` | c_code/linux/user/get_android_screen/lodepng.c:731-755 | the merge sort between two buffers sorts the leaves stably by weight and loses none |
| `CodeLengths.HuffmanCodeLengths` | c_code/linux/user/get_android_screen/lodepng.c:789-876 | for every alphabet: error 80 exactly for no symbols or too many; a write out of bounds exactly for an alphabet of one symbol; otherwise, for weights that add up to at most 262145, lengths in 1..maxbitlen for every present symbol, Kraft sum exactly 1, length 0 for absent symbols when two are present, no longer code for a more frequent symbol, and no code within the limit that takes fewer bits in all |
| `Deflator.MakeFromFrequencies` | c_code/linux/user/get_android_screen/lodepng.c:879-894 | the tree of any frequencies a block can have is built without error or overflow, gives every counted symbol a code, and is optimal for them |
| `SymbolWriter.CountTokens` | c_code/linux/user/get_android_screen/lodepng.c:1798-1810 | the frequencies are how often each symbol occurs in the tokens, and the end code once |
| `BlockCost.TokensLength` | c_code/linux/user/get_android_screen/lodepng.c:1695-1721 | the bits of the tokens are the frequencies times the code lengths, and extra bits that no code changes |
| `CodeLengthRle.EncodeLengths` | c_code/linux/user/get_android_screen/lodepng.c:1827-1870 | for every list of lengths up to 15 the run-length form, expanded as the decoder does, gives the list back; all repeat counts fit their extra bits, and no repeat comes first |
| `Zlib.UpdateAdler` | c_code/linux/user/get_android_screen/lodepng.c:2091-2112 | deferring the modulo over up to 5550 bytes in 32-bit sums gives the byte by byte definition of Adler-32, from any start value |
| `AdlerForm.AdlerIs` | c_code/linux/user/get_android_screen/lodepng.c:2091-2118 | the checksum is made of one plus the sum of the bytes and of the sum of the bytes weighted by their distance from the end, modulo 65521 |
| `Zlib.AdlerChain` | c_code/linux/user/get_android_screen/lodepng.c:2091-2118 | a checksum continues over a concatenation |
| `Zlib.Decompress` | c_code/linux/user/get_android_screen/lodepng.c:2126-2169 | header checks, decoder and checksum give the errors and output of the functional definition on every byte string |
| `Zlib.Compress` | c_code/linux/user/get_android_screen/lodepng.c:2188-2228 | where it is defined, the zlib stream decompresses to the data, with or without the checksum test, if and only if the data survives; the empty string stored gives error 52 |
| `BitStream.ReadBits` | c_code/linux/user/get_android_screen/lodepng.c:454-463 | the bits from the bit pointer on, least significant first |
| `BitStream.ValueOfLowBits` | c_code/linux/user/get_android_screen/lodepng.c:430-434 | a number that fits its field is read back |
| `ScanlineFilter.PaethPredictor` | c_code/linux/user/get_android_screen/lodepng.c:3829-3838 | of left, above and upper left the reordered comparisons choose the one nearest to left + above - upper left, and of equally near ones the first |
| `ScanlineFilter.Predictions` | c_code/linux/user/get_android_screen/lodepng.c:3963-4034 | the other filters predict 0, the byte to the left, the byte above, and half the sum of these rounded down |
| `ScanlineFilter.OneReconstruction` | c_code/linux/user/get_android_screen/lodepng.c:3963-4034 | the filtered bytes and the line above determine the line |
| `ScanlineFilter.FilterScanline` | c_code/linux/user/get_android_screen/lodepng.c:5138-5192 | stores the differences of each of the five filters; filters 1, 3 and 4 touch a whole pixel even on a shorter line, and nothing else changes |
| `ScanlineFilter.UnfilterScanline` | c_code/linux/user/get_android_screen/lodepng.c:3963-4034 | reconstructs the line, also inside the buffer it reads from, touching no more than a whole pixel on a shorter line, and refuses unknown filters with error 36 |
| `ImageFilter.Filter` | c_code/linux/user/get_android_screen/lodepng.c:5203-5421 | for every buffer: every access is in range if and only if each row, with the whole pixel its filter touches, fits, and so do the five rows of the strategies that try all filters; then every row is filtered with the type chosen for it |
| `ImageFilter.Unfilter` | c_code/linux/user/get_android_screen/lodepng.c:4037-4066 | unfilters all rows, also onto the buffer they are read from and for lines shorter than a pixel; error 36 exactly if some row has an unknown type |
| `ReversedBits.AddPaddingBits` | c_code/linux/user/get_android_screen/lodepng.c:5423-5445 | stays in its buffers exactly when every bit has its place, and then every line is moved to its padded place and the padding is 0 |
| `ReversedBits.RemovePaddingBits` | c_code/linux/user/get_android_screen/lodepng.c:4129-4155 | every line is moved to its packed place, also inside one buffer, and no other bit changes |
| `ReversedBits.LeftmostHighest` | c_code/linux/user/get_android_screen/lodepng.c:2377-2382 | the first pixel of a byte is in its most significant bit |
| `Adam7.SlotOfPixel` | c_code/linux/user/get_android_screen/lodepng.c:3862-3888 | every pixel of the image has a slot in its pass |
| `Adam7.PassPattern` | c_code/linux/user/get_android_screen/lodepng.c:3842-3845 | the passes follow the pattern of eight by eight pixels in section 8.2 of the PNG Specification |
| `Adam7.PixelOfSlot` | c_code/linux/user/get_android_screen/lodepng.c:3862-3888 | every slot of a pass is that of one pixel, and no other |
| `Adam7.SlotsApart` | c_code/linux/user/get_android_screen/lodepng.c:5456-5503 | different slots do not overlap in the interlaced data |
| `Adam7.PredictionIsSize` | c_code/linux/user/get_android_screen/lodepng.c:4681-4693 | the size predicted pass by pass by the decoder is filter_passstart[7] |
| `Adam7.StartsOrdered` | c_code/linux/user/get_android_screen/lodepng.c:3877-3887 | passstart <= padded_passstart <= filter_passstart for every pass |
| `Passes32.Interlace` | c_code/linux/user/get_android_screen/lodepng.c:5456-5503 | in 32-bit sizes: every access is in range if and only if every slot is, and where nothing wraps every slot holds its pixel |
| `Passes32.Deinterlace` | c_code/linux/user/get_android_screen/lodepng.c:4079-4127 | within the limit of the decoder no access leaves the buffers, also where sizes wrap; where none does every pixel holds what its slot held |
| `Scanlines.ProcessedOnce` | c_code/linux/user/get_android_screen/lodepng.c:4159-4207 | filtered data determines every bit of the image it came from |
| `ScanlineDecoder.PostProcess` | c_code/linux/user/get_android_screen/lodepng.c:4159-4207 | for every image within the limit of the decoder: unfilters, packs and deinterlaces in place without leaving its buffers; where no size wraps the error is that of the data, and without error the data is that of the image produced |
| `ScanlineEncoder.PreProcess` | c_code/linux/user/get_android_screen/lodepng.c:5507-5592 | loops with 32-bit sizes and an index test at every access, for every choice of filters: all tests pass if and only if `InBounds`; the output has the 32-bit size, and where nothing wraps it is the data of the image |
| `ScanlineCodec.ScanlineRoundTrip` | c_code/linux/user/get_android_screen/lodepng.c:4159-4207 | for every image the decoder admits, both interlace methods and every choice of filters: the encoder stays in bounds exactly when `InBounds`, and where no size wraps the decoder returns every bit of the image |
| `Sizes32.PixelsConserved` | c_code/linux/user/get_android_screen/lodepng.c:3862-3888 | the seven passes together have exactly w*h pixels |
| `Sizes32.FitsInBounds` | c_code/linux/user/get_android_screen/lodepng.c:5507-5592 | where no product wraps, the encoder stays in bounds and its buffer has the true size |
| `Sizes32.WrapShows` | c_code/linux/user/get_android_screen/lodepng.c:5507-5592 | within the pixel limit of the decoder every wrap shows: the encoder leaves its buffers or its data is too short |
| `Sizes32.LongRow` | c_code/linux/user/get_android_screen/lodepng.c:5521 | a row of 2^26 pixels of 64 bits passes the limit of the decoder; the encoder has one byte for it and stays inside exactly if it does not try all filters and uses filter 0 or 2 |
| `Sizes32.BigSquare` | c_code/linux/user/get_android_screen/lodepng.c:5521-5543 | for 65536 by 65536 pixels of 8 bits the encoder writes past a buffer of 65536 bytes, with every choice of filters |
| `Sizes32.BigInterlaced` | c_code/linux/user/get_android_screen/lodepng.c:3877-3887 | an interlaced image within the limit whose passes wrap |
| `Idat.PixelLimit` | c_code/linux/user/get_android_screen/lodepng.c:4541-4547 | the two tests of a 32-bit product refuse exactly the images with more than 268435455 pixels |
| `Idat.DecodeIdat` | c_code/linux/user/get_android_screen/lodepng.c:4541-4714 | error 92 for too many pixels, the error of the zlib stream, 91 for a wrong size, otherwise the image of the data; where a size wraps, which rows decide the error and from which byte on the image stays black |
| `Idat.LongRowBlack` | c_code/linux/user/get_android_screen/lodepng.c:4705-4712 | data of the right size for a row of 2^26 pixels of 64 bits gives at most one pixel; all other bytes are 0 |
| `Idat.IdatRoundTrip` | c_code/linux/user/get_android_screen/lodepng.c:5678-5692 | preprocess, compress, decompress, postprocess: the image is recovered if and only if it is within the decoder's limit and no size of the encoder wraps |
| `MsgHandle.EveryRun` | c_code/linux/user/msg_handle/msg_handle.c:84-205 | in every interleaving that has touched nothing destroyed: queue length = semaphore value + pushes not yet posted + the token the consumer holds, a pop finds a message, and the callbacks are a prefix of the push order |
| `MsgHandle.PopNeverEmpty` | c_code/linux/user/msg_handle/msg_handle.c:84-104 | a pop takes the oldest message that was pushed and not taken |
| `MsgHandle.OrderlyIsSafe` | c_code/linux/user/msg_handle/msg_handle.c:136-205 | if every call has pushed when the destroy message is pushed and none starts later, nothing destroyed is ever touched, and when the consumer frees the handle every call is over and every message was delivered once, in push order |
| `MsgHandle.RulesAreSafe` | c_code/linux/user/msg_handle/msg_handle.c:191-205 | callers who send no negative command and destroy after all sends returned are orderly, so every message is delivered exactly once before destroy returns |
| `MsgHandle.DisorderIsUnsafe` | c_code/linux/user/msg_handle/msg_handle.c:127-205 | the rule is exact: one breach of it in any reachable state can be continued to a run that touches something destroyed |
| `MsgHandle.LostMessage` | c_code/linux/user/msg_handle/msg_handle.c:136-205 | a run without any such access in which a send that raced with destroy returns and its message is never delivered |
| `MsgProgress.DestroyReturns` | c_code/linux/user/msg_handle/msg_handle.c:84-205 | after any run of callers who keep to the rules, whatever the schedule, the started calls and the consumer make at most `Bound` steps, and they are only stuck when every call is over and destroy has returned |
| `MsgProgress.CanFinish` | c_code/linux/user/msg_handle/msg_handle.c:84-205 | from every such state a schedule leads to the end of all calls |
| `MsgQueue.Queue.PushTail` | c_code/linux/user/msg_handle/msg_handle.c:105-124 | the linked list with head and tail pointers gains the message at its end |
| `MsgQueue.Queue.PopHead` | c_code/linux/user/msg_handle/msg_handle.c:84-104 | takes the first message, or reports none |
| `MsgQueue.Queue.RemoveAll` | c_code/linux/user/msg_handle/msg_handle.c:56-74 | empties the list and returns the number of entries it had |
| `AesField.MixInverse` | c_code/general/aes/aes.c:430-486 | the inverse of MixColumns undoes it |
| `AesProduct.MixCoefficients` | c_code/general/aes/aes.c:65-82 | the columns are multiplied in GF(2^8) by 2, 3, 1, 1 and by 14, 11, 13, 9 |
| `AesSbox.SboxIsAffine` | c_code/general/aes/aes.c:86-118 | every entry of the table is the affine map of the inverse in GF(2^8), as section 5.1.1 of FIPS 197 says |
| `AesInverse.GfInv` | c_code/general/aes/aes.c:225-253 | the extended Euclidean algorithm on bytes, whose dividend starts with a ninth bit that is not stored, ends with the inverse in the field, and 0 for 0 |
| `AesInverse.SBox` | c_code/general/aes/aes.c:282 | the S-box without tables is the table |
| `AesInverse.IsBox` | c_code/general/aes/aes.c:283 | the inverse S-box without tables is the inverse table |
| `AesRounds.MixSubColumns` | c_code/general/aes/aes.c:430-456 | the fused round is SubBytes, ShiftRows and MixColumns of FIPS 197, in place |
| `AesRounds.InvMixSubColumns` | c_code/general/aes/aes.c:458-486 | the fused inverse round is InvMixColumns, InvShiftRows and InvSubBytes |
| `AesCipher.CipherInverse` | c_code/general/aes/aes.c:549-621 | decryption undoes encryption for every number of rounds and every round keys |
| `AesCipher.CbcRoundTrip` | c_code/general/aes/aes.c:578-640 | CBC encryption and decryption in place give back any number of blocks, and both initial vectors end equal |
| `AesCipher.CbcEncrypt` | c_code/general/aes/aes.c:578-592 | each block is encrypted with the chain of section 6.2 of NIST SP 800-38A, also in place; without a key it fails |
| `AesKeys.SetKey` | c_code/general/aes/aes.c:490-545 | accepts the lengths 16, 24, 32, 128 and 192 and expands the key word by word as section 5.2 of FIPS 197 says, with its round constants, for all three sizes |
| `AesKeys.Encrypt128` | c_code/general/aes/aes.c:664-690 | keys made on the way give the same ciphertext as the schedule; the key left is the last round key |
| `AesKeys.Decrypt128` | c_code/general/aes/aes.c:713-739 | from the key encryption left, the block and the original key are recovered |
| `AesKeys.Encrypt256` | c_code/general/aes/aes.c:776-815 | the same with two round keys for each update |
| `AesKeys.Decrypt256` | c_code/general/aes/aes.c:853-892 | the same for 256 bits |
| `AesKeys.KeyingStylesAgree` | c_code/general/aes/aes.c:490-892 | for 128 and 256 bits the three ways of keying agree, and decryption returns the block and the key |
| `HashStream.HashPieces` | c_code/general/sha1/sha1.c:255-327 | for every split into pieces the digest is the block function folded over the whole message, padded with the length that the counter shows |
| `HashStream.TextIsPadded` | c_code/general/sha1/sha1.c:264-313 | that text is the padded message of the standard if and only if the words of bytes the counter lost are a multiple of an eighth of a word |
| `HashStream.PadLengthLeast` | c_code/general/sha1/sha1.c:316-317 | the padding is the shortest one that leaves room for exactly the length field |
| `Sha1.Process` | c_code/general/sha1/sha1.c:95-249 | a circle of sixteen words and five renamed registers compute the 80 rounds of section 6.1.2 of FIPS 180-4 |
| `HashConstants.Sha1Constants` | c_code/general/sha1/sha1.c:137-218 | the round constants are the square roots of 2, 3, 5 and 10, times 2^30 and rounded down |
| `Sha1.DigestPieces` | c_code/general/sha1/sha1.c:82-327 | the digest of pieces is that of the message when the counter lost nothing that shows, and the condition is exact for the hashed text |
| `Sha1.LongPieceLost` | c_code/general/sha1/sha1.c:266-270 | one update with 2^32 bytes: the hashed text is not the padded message |
| `Sha512.Process` | c_code/general/sha512/sha512.c:175-242 | eight renamed registers compute the 80 rounds of section 6.4.2 of FIPS 180-4 |
| `HashConstants.RoundConstants` | c_code/general/sha512/sha512.c:131-173 | the round constants are the first 64 bits of the fractional parts of the cube roots of the first 80 primes |
| `HashConstants.Initial512` | c_code/general/sha512/sha512.c:98-109 | SHA-512 starts from the square roots of the first eight primes |
| `HashConstants.Initial384` | c_code/general/sha512/sha512.c:110-121 | SHA-384 starts from those of the next eight |
| `Sha512.DigestPieces` | c_code/general/sha512/sha512.c:93-331 | the digest of any pieces is SHA-512 or SHA-384 of the message |
| `Md5.Md5Context.Update` | c_code/general/md5sum/md5.c:93-132 | the aligned fast path and the byte path hash the same blocks, and the bit counter follows |
| `Md5.Md5Context.Final` | c_code/general/md5sum/md5.c:137-169 | the message is padded as RFC 1321 says |
| `Md5.HashMessage` | c_code/general/md5sum/md5.c:77-169 | for every split into pieces at any alignment the digest is the block function folded over the padded message, whatever the block function is |
| `Md5Block.Transform` | c_code/general/md5sum/md5.c:172-265 | sixty-four macros on four registers in turn, with their words, rotations and constants, compute the steps of section 3.4 of RFC 1321 |
| `SineConstants.Constants` | c_code/general/md5sum/md5.c:184-260 | the sixty-four constants are the whole parts of 2^32 times the sines of 1 to 64, computed by recurrence in units of 2^-64 |
| `SineConstants.SineOfOne` | c_code/general/md5sum/md5.c:184-260 | the recurrence starts from the sine of 1, enclosed by partial sums of its series |
| `SineConstants.CosineOfOne` | c_code/general/md5sum/md5.c:184-260 | and uses twice the cosine of 1, enclosed likewise |
| `Md5Block.DigestPieces` | c_code/general/md5sum/md5.c:77-169 | the digest of pieces at any alignment is MD5 of the whole message |
| `FourGame.FourBoard.Add` | c_code/general/theAiGames/four_in_a_row_1/four.c:90-110 | defined exactly for the columns of the board; then drops the piece on all four bitboards, or refuses a full column and changes nothing |
| `FourGame.FourBoard.Remove` | c_code/general/theAiGames/four_in_a_row_1/four.c:112-128 | takes the top piece back from all four bitboards |
| `FourGame.FourBoard.IsFinish` | c_code/general/theAiGames/four_in_a_row_1/four.c:130-147 | after a move: true if and only if the mover has four in a row anywhere |
| `Four.OneBoard` | c_code/general/theAiGames/four_in_a_row_1/four.c:90-110 | a position has exactly one representation |
| `FourRun.Play` | c_code/general/theAiGames/four_in_a_row_1/four.c:90-147 | every run of alternating moves that stops at the first four: the board shows exactly the moves made, a win is reported if and only if somebody has four, and it is the last mover after a position without fours |
| `FourRun.PlayAndTakeBack` | c_code/general/theAiGames/four_in_a_row_1/four.c:90-128 | taking all moves back in reverse restores every word of the board |
| `FourRun.SetField` | c_code/general/theAiGames/four_in_a_row_1/four.c:149-162 | the position is the pieces of each column, let fall |
| `FourRun.GetField` | c_code/general/theAiGames/four_in_a_row_1/four.c:163-177 | the cells of the position |
| `FourRun.FallThenShow` | c_code/general/theAiGames/four_in_a_row_1/four.c:149-177 | a field reads out as it was set if and only if none of its pieces floats |
| `FourRun.SaveAndRestore` | c_code/general/theAiGames/four_in_a_row_1/four.c:149-177 | reading the board out and setting it again restores every word of it |
| `AiCore.MaxScore` | c_code/general/theAiGames/four_in_a_row_1/ai_core.c:83-138 | for every random choice: the value is minus that of the column returned, which is WIN for a four, an undecided value at the last ply and before it what the opponent may be judged to leave, and no column is worth more; a full board is tied; -WIN exactly when the side to move can force four within `steps` plies, WIN exactly when every move loses; and the board is as before |
| `AiCore.JudgedMeans` | c_code/general/theAiGames/four_in_a_row_1/ai_core.c:83-138 | whatever the undecided values are, a judgement is extreme exactly when a four can be forced, and then its column forces it |
| `AiCore.WinsLonger` | c_code/general/theAiGames/four_in_a_row_1/ai_core.c:83-138 | what can be forced within n plies can be forced within n + 1 |
| `VlcBuild.InitVlc` | c_code/linux/user/minimp3/minimp3.c:927-1026 | for every prefix-free code with lengths up to 31 and every number of bits: the counts of entries stay in the range of an `int` if and only if the table and one full table more have at most 2^31 entries; then it succeeds with a table of the computed size, and for up to 32768 symbols the 16-bit table is the intended one if and only if every table that has entries starts below 32768 |
| `VlcRead.GetVlcFinds` | c_code/linux/user/minimp3/minimp3.c:1029-1058 | on a stream that goes on with the code of a symbol, at any bit offset, the lookup returns it and skips exactly its code if and only if the code is no longer than min(max_depth, 3) tables of `bits` bits |
| `VlcRead.StoredFinds` | c_code/linux/user/minimp3/minimp3.c:1029-1058 | in the stored table the lookup of a symbol goes to the intended tables if and only if those on the path of its code start below 32768, wherever others start, and then it finds the symbol |
| `VlcRead.GetVlc2` | c_code/linux/user/minimp3/minimp3.c:1060-1070 | the macro with its 32-bit cache reads the stream as that lookup does |
| `VlcRead.CutPointer` | c_code/linux/user/minimp3/minimp3.c:1029-1058 | a prefix-free code for which a pointer of 32768 is cut to -32768, so that the lookup leaves the table |

## Findings

Properties that the code does not have, each with an input that shows it and with the exact
condition under which the code does what is expected.

- **Stored data of more than 2^32 bytes** (c_code/linux/user/get_android_screen/lodepng.c:1659-1683). The position
  in the input is a 32-bit `unsigned` and wraps. `DeflateStream.WrapLosesByte` gives an input
  of 2^32 + 1 bytes that comes back changed; `DeflateStream.StoredContentIs` is exact.
- **Storing the empty string** (c_code/linux/user/get_android_screen/lodepng.c:1658). No block is written, which is
  not a DEFLATE stream; `Zlib.Compress` states the error 52 that decompressing it gives.
- **An empty stored block at the end** (c_code/linux/user/get_android_screen/lodepng.c:1235). The test for the end
  counts one byte too many and refuses a legal stream (`DeflateStream.StoredAccepted`).
- **The empty string with fixed trees** (c_code/linux/user/get_android_screen/lodepng.c:2027 and 2036). The block
  size is the input size, by which the code divides: `DeflateStream.Deflate` is defined if and
  only if the input is not empty or the block type is not 1.
- **Image sizes in 32 bits** (c_code/linux/user/get_android_screen/lodepng.c:5521-5532, 5214, 3877-3887).
  The encoder checks no size and computes in 32 bits. Sizes wrap for images that the decoder's
  own limit (lines 4541-4547) admits (`Sizes32.LongRow`, `Sizes32.BigInterlaced`), and for larger
  ones the encoder writes past its buffer (`Sizes32.BigSquare`). Filters 1, 3 and 4 write a whole
  pixel (lines 5148-5183) even where the wrapped length of a line is shorter, so the row of
  `Sizes32.LongRow` stays in bounds with filters 0 and 2 only. `ScanlineEncoder.PreProcess` and
  `Idat.IdatRoundTrip` are exact. The decoder stays inside its buffers for every image within its
  limit (`ScanlineDecoder.PostProcess`), but `Idat.LongRowBlack` is an image it leaves black.
- **An alphabet of one symbol** (c_code/linux/user/get_android_screen/lodepng.c:822-827). `lengths[1]` is
  written whatever the size of the array is: `CodeLengths.HuffmanCodeLengths` writes out of
  bounds if and only if there is no error and the alphabet has one symbol.
- **Destroying a message handle** (c_code/linux/user/msg_handle/msg_handle.c:191-205). A send that is
  still under way when destroy is called may touch freed memory (`MsgHandle.DisorderIsUnsafe`) or
  be lost without notice (`MsgHandle.LostMessage`). `MsgHandle.OrderlyIsSafe` and
  `MsgHandle.DisorderIsUnsafe` together are exact. The header (msg_handle.h) says only that
  commands must not be negative.
- **SHA-1 pieces of 2^32 bytes or more** (c_code/general/sha1/sha1.c:266-270). The counter sees
  the length of a piece modulo 2^32 (`Sha1.LongPieceLost`); `HashStream.TextIsPadded` is exact.
- **VLC tables** (c_code/linux/user/minimp3/minimp3.c:90, 927-1058). Entries have 16 bits, and a lookup
  follows at most three tables whatever depth it is given; the entries are counted in an `int`.
  `VlcRead.CutPointer` is a code whose table is broken; `VlcBuild.InitVlc`, `VlcRead.GetVlcFinds`
  and `VlcRead.StoredFinds` are exact. A code of 32 bits is shifted by 32 (line 968), which C
  leaves undefined, so lengths stay below 32; the shift by a negative number that the same line
  makes for codes shorter than the prefix is undefined too, but its result is not used.
- **A column outside the board** (c_code/general/theAiGames/four_in_a_row_1/four.c:90-98). `four_add` reads `field_v` and
  `nextPosMap` before it tests the column, so the test comes too late for a bad one:
  `FourGame.FourBoard.Add` is defined if and only if the column is on the board.

## Left out

- CodeLengths.HuffmanCodeLengths: which weights of more than 262145 in all overflow is said by the sums of the calls (PackageMerge.RunFits), not by a bound on the weights; and `1u << maxbitlen`, undefined in C for 32 and more, is taken as a power of two.
- TreeInvariant.CompleteTree: alphabets of more than 16383 symbols, whose entries would collide with the marker 32767 for an empty one; DEFLATE has at most 288.
- LzEncoder.EncodeLZ77: that the runs it chooses from are those of the search at each position; what one search finds is said by HashChain.Hash.Search.
- HashChain.GetHash: only the range of the hash value is stated, since nothing proved depends on the value.
- ScanlineEncoder.PreProcess: what the encoder's output holds when a size wraps and no access is out of bounds; only its length is stated.
- ScanlineDecoder.PostProcess: what an interlaced image holds when a size wraps, beyond its length and the possible errors.
- ImageFilter.Filter: how a strategy chooses the filter of each row; any choice is allowed, with or without trying all five.
- MsgHandle.EveryRun: the branch of the consumer in which `sem_wait` fails, which prints a message and loops forever (msg_handle.c:143-149); no progress is possible after it.
- AiCore.MaxScore: the transposition table, the time limit and iterative deepening of `cal_col`.
- VlcBuild.InitVlc: the failing allocation, and sizes in bytes, which fit a 64-bit `size_t`.
- VlcRead.StoredFinds: what a lookup finds after it went to a wrong table, where an entry may happen to give the right symbol.
- VlcRead.GetVlc2: a stream that ends inside the bytes the cache reads ahead.
- Idat.IdatRoundTrip: PNG chunks, CRC-32, colour conversion, palettes, ancillary chunks and custom zlib functions.
- Allocation never fails: error 83 is not modelled.
- The rest of minimp3.c (headers, dequantisation, the synthesis filter bank): mostly floating point tables.
- The other servers, kernel modules, tools and user interfaces of the repository, which are input and output around library calls.
