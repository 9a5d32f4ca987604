# Firmware formats

Proofs about the firmware packers and unpackers of this repository: where one program writes a byte format
and another reads it back, or where a fast form has to equal a simple one.

| component | modules |
|---|---|
| cramfs images: the format, the layout of a tree, the image, what stands where in it | `CramfsFormat`, `CramfsLayout`, `CramfsImage`, `CramfsSuper` |
| mkcramfs: directory scan and duplicates, records, the two writing passes, the program | `CramfsEntry`, `CramfsRecords`, `MkCramfs`, `MkCramfsMain` |
| cramfsck: what reading an image means, that it inverts writing, which images it accepts, the program | `CramfsCheck`, `CramfsRoundTrip`, `CramfsSound`, `CramfsCk` |
| cramfsswap: the rewrite, the program, its effect on images | `CramfsSwap`, `CramfsSwapMain`, `CramfsSwapImage` |
| the decoder of the pack format | `Huffman`, `HuffmanUnpack` |
| MD5, twice, and SHA-1 | `HashStream`, `Words`, `Md5`, `Md5Known`, `Md5Crcalc`, `Md5Firmware`, `Sha1`, `Sha1Known`, `Sha1Firmware` |
| NAND error correction | `NandEcc` |
| CRC-32 and the formats that use it | `Crc32`, `Crc32Known`, `Motorola`, `MyLoader` |
| the ZyXEL checksum and image | `Zyxel` |
| the Buffalo cipher and container | `Buffalo`, `BuffaloKnown`, `BuffaloCrypt` |
| SEAMA containers | `Seama`, `SeamaTool` |
| S-records to binary records | `Srec`, `SrecText`, `SrecTool` |
| Squashfs bit fields | `SquashfsFields` |
| bytes and bits | `Bytes`, `BitSeqs`, `WordBits` |

`dafny verify dfyconfig.toml` checks everything.

Each program is written twice. Functions on sequences and trees say what a format is; classes and methods with
arrays, positions and loops follow the C code, and each is proved to compute what the functions say. The laws
(round trips, sharing, bounds, error detection) are lemmas about the functions and so hold of the programs.
Where a function and a program could share a mistake, the function is tied to something else: bit by bit to the
Boolean functions that the standards name, to known digests and check values, or to explicit offsets and constants of
a finished file. Files are byte sequences with a position. The host is little-endian unless a module takes the byte
order as a parameter.

The conditions under which a law holds are worth knowing where the code falls short of it:

- mkzynfw: the fix-up word makes the body sum to the wanted checksum if and only if the boot extension does not start
  with a zero word; otherwise the sum becomes 0xFFFF (`Zyxel.ImageConsistent`, `Zyxel.FixUpMisses`).
- srec2bin: the records say what the input said if and only if the first address is not zero, no program start runs on
  from the address before it, and no byte runs on from a program start (`Srec.FaithfulIffClean`). The comment in
  src/firmware-tools/srec2bin.c:11-29 promises records without exception.
- srec2bin: a correct count line (S5) is refused as soon as there was a data line, because the program combines the two
  counts with "or" where it should compare them (src/firmware-tools/srec2bin.c:405-408). Reading stops there, with an
  output file that looks complete, so a start line behind it is lost (`SrecText.S5LineRead`, `SrecText.CountLosesStart`).
- cramfsswap: swapping twice restores a file if and only if its checksum was right (`CramfsSwap.SwapTwice`).
- seama: extraction does not check what it reads (src/firmware-tools/seama.c:448-500). At the end of a file it looks once
  more at the last header, and at whatever the buffer holds. If the start of that passes for the wanted metas, the
  output is an empty file and the remaining input files are not looked at. Extraction is right if and only if that
  happens in no file before the one that is looked for (`Seama.ExtractFiles`, `Seama.StaleExample`).
- seama: a file without any image is not accepted (`Seama.SealedVerified`), and an empty wanted string also matches
  the padding of a meta area (`Seama.FoundInMeta`).
- mkmylofw: the alignment macro at src/firmware-tools/mkmylofw.c:101 lacks its outer parentheses, so that its use at
  line 584 means something else than it looks like, with the same result (`MyLoader.PaddingExpression`).

## Model

| member | source | states |
|---|---|---|
| CramfsRoundTrip.RoundTrip | src/cramfs-2.x/mkcramfs.c:461-656 | every image mkcramfs lays out, in either byte order, with or without padding, inserted file and holes, passes all of cramfsck and extracts to exactly the tree it was made from |
| CramfsRoundTrip.WalkBack | src/cramfs-2.x/cramfsck.c:430-490 | the recursive walk over a laid-out tree returns that tree, with sibling order, names, modes, sizes and bytes, and moves the running bounds as computed from the layout |
| CramfsRoundTrip.AfterEndDir | src/cramfs-2.x/cramfsck.c:629-655 | after the walk, `end_dir` is the end of the directory region |
| CramfsRoundTrip.AfterDataBounds | src/cramfs-2.x/cramfsck.c:629-655 | `start_data` is the start of the data region exactly when something is stored, and `end_data` stays within the region |
| CramfsRoundTrip.UncompressBack | src/cramfs-2.x/cramfsck.c:361-405 | reading back the pointer table and blocks written for any data gives the data, with holes or without |
| CramfsRoundTrip.LinkBack | src/cramfs-2.x/cramfsck.c:524-566 | a symbolic link reads back its target |
| CramfsRoundTrip.TestSuperAccepts | src/cramfs-2.x/cramfsck.c:133-202 | the superblock is found at 0 or behind 512 bytes of padding and accepted |
| CramfsRoundTrip.TestCrcAccepts | src/cramfs-2.x/cramfsck.c:204-266 | the checksum that mkcramfs fills in last is the one cramfsck computes over the file with the field cleared; that no other is accepted is said by `CramfsSuper.WrongChecksumDies` |
| CramfsRoundTrip.TestFsAccepts | src/cramfs-2.x/cramfsck.c:629-655 | the closing bounds checks, `end_dir == start_data` among them, all hold |
| CramfsRoundTrip.RootShift | src/cramfs-2.x/cramfsck.c:323-336 | the root offset test passes with and without the shifted-root flag |
| CramfsSound.AcceptsExactly | src/cramfs-2.x/cramfsck.c:133-655 | cramfsck accepts exactly the well-formed images, and extracts exactly the tree that such an image holds; `WellFormed` describes the superblock, the checksum, every record, every block of data and the closing bounds by offsets of the image, without walking |
| CramfsSound.AcceptedIsWellFormed | src/cramfs-2.x/cramfsck.c:133-655 | every accepted image, made by mkcramfs or not, is well-formed and holds the extracted tree |
| CramfsSound.WellFormedIsAccepted | src/cramfs-2.x/cramfsck.c:133-655 | every well-formed image is accepted, if the recursion may go deep enough; the "bad inode offset" test refuses none of them |
| CramfsSound.AcceptedChecksum | src/cramfs-2.x/cramfsck.c:204-266 | an accepted image of version 2 carries, at its start + 32, the checksum of all bytes from its start to its size with this word zero |
| CramfsSound.ContentIff | src/cramfs-2.x/cramfsck.c:492-622 | files, links, devices, pipes and sockets: read if and only if the image holds their blocks at the pointers |
| CramfsSound.RecordIff | src/cramfs-2.x/cramfsck.c:430-470 | a directory record is taken if and only if name, name length and padding are as described |
| CramfsSound.AfterBounds | src/cramfs-2.x/cramfsck.c:430-566 | the running bounds are the least start of a pointer table, the greatest end of a record and the greatest end of data below the root |
| CramfsSound.ClosingIff | src/cramfs-2.x/cramfsck.c:629-655 | the closing checks hold if and only if no data starts within the superblock or before the end of the last record, some data starts right there if there is any, and no data ends behind the size |
| CramfsSuper.WrongChecksumDies | src/cramfs-2.x/cramfsck.c:204-266 | every finished image whose four checksum bytes are replaced by any other four is refused with a checksum error |
| CramfsFormat.InodeRoundTrip | src/cramfs-2.x/linux/cramfs_fs.h:36-52 | an inode survives the bit fields of 16/16, 24/8 and 6/26 bits if and only if every field fits its width |
| CramfsFormat.BlockCountAlt | src/cramfs-2.x/mkcramfs.c:578-584 | in unsigned 32-bit arithmetic this way of counting blocks and that of cramfsck agree on a size if and only if it is not zero |
| CramfsFormat.StoringIsLawful | src/cramfs-2.x/mkcramfs.c:357-363 | the laws assumed of zlib can be met |
| CramfsFormat.PatchNameWord | src/cramfs-2.x/mkcramfs.c:412-428 | setting `offset` in place keeps `namelen`, in both byte orders |
| CramfsFormat.ChunkBound | src/cramfs-2.x/mkcramfs.c:357-363 | pointers, blocks and padding of one file stay within the allowance of 4 + 26 bytes a block, the size, and 3 |
| CramfsImage.SuperRoundTrip | src/cramfs-2.x/mkcramfs.c:376-409 | the superblock reads back field by field |
| CramfsImage.ImageHolds | src/cramfs-2.x/mkcramfs.c:461-656 | the finished image holds every record and every chunk of the layout at its place |
| CramfsImage.BodyLength | src/cramfs-2.x/mkcramfs.c:540-552 | directory bytes end where data starts, and the data where the padding to a block starts |
| CramfsSuper.SuperWords | src/cramfs-2.x/mkcramfs.c:376-392 | on the image itself: magic number, length, the flags of the options, zero; zeros in front of it if it is padded |
| CramfsSuper.SuperIdentity | src/cramfs-2.x/mkcramfs.c:393-397 | on the image itself: the checksum of everything behind the padding with its own word zero; the edition; the blocks of all distinct contents; the number of entries and the root |
| CramfsSuper.SuperTexts | src/cramfs-2.x/mkcramfs.c:386-402 | on the image itself: "Compressed ROMFS", and the given name cut or filled with zeros to 16 bytes |
| CramfsSuper.SuperRoot | src/cramfs-2.x/mkcramfs.c:402-409 | on the image itself: the root inode, and the inserted file behind the superblock |
| CramfsSuper.BlocksAreDistinct | src/cramfs-2.x/mkcramfs.c:592-650 | the blocks written are those of the distinct contents, each counted once |
| CramfsSuper.SizeIs | src/cramfs-2.x/mkcramfs.c:744-832 | the length of an image is superblock, inserted file, every record once and every distinct content once, rounded up to a block |
| CramfsSuper.ChunkWords | src/cramfs-2.x/mkcramfs.c:578-627 | what is stored for a content, block by block: between two pointers lie the bytes that zlib makes of the block, or, with holes, nothing for a block of NULs |
| CramfsRecords.LayContiguous | src/cramfs-2.x/mkcramfs.c:461-552 | the records of every directory form one contiguous run of exactly its size, and all records together one run of the sum of the sizes |
| CramfsRecords.ContiguousSpread | src/cramfs-2.x/mkcramfs.c:461-552 | records of a contiguous run stay within it and no two overlap |
| CramfsRecords.LayLinked | src/cramfs-2.x/mkcramfs.c:461-552 | every non-empty directory points at its first child |
| CramfsRecords.WrittenPatch | src/cramfs-2.x/mkcramfs.c:412-428 | one `set_data_offset` changes one record, to the one with the new offset |
| CramfsEntry.ParseDirectory | src/cramfs-2.x/mkcramfs.c:226-374 | builds the linked entries of a directory, its size as the sum of its record sizes, and the estimate of the image size |
| CramfsEntry.ImageFitsBound | src/cramfs-2.x/mkcramfs.c:767-832 | for every tree the estimate of the directory scan, rounded up, is at least the final image size, so the space check never fires and no write leaves the buffer |
| CramfsEntry.FindIdenticalFile | src/cramfs-2.x/mkcramfs.c:183-205 | stops at the first entry in preorder with the same content, or at the entry itself |
| CramfsEntry.EliminateDoubles | src/cramfs-2.x/mkcramfs.c:207-214 | every data entry gets the representative that the next row describes, every other entry none |
| CramfsEntry.RepresentativeIsFirst | src/cramfs-2.x/mkcramfs.c:183-214 | the representative has the same content, is the earliest such entry in preorder and has none itself; entries with equal content share it |
| MkCramfs.Maker.WriteDirectoryStructure | src/cramfs-2.x/mkcramfs.c:461-552 | the loop over the explicit stack terminates, writes every record once, depth first, in the layout's order, returns the start plus all sizes, and fails only on an offset out of range |
| MkCramfs.Maker.ListSiblings | src/cramfs-2.x/mkcramfs.c:470-523 | lists one directory and pushes its non-empty subdirectories in order |
| MkCramfs.ReverseFrom | src/cramfs-2.x/mkcramfs.c:525-538 | the new part of the stack is reversed in place and nothing below it moves |
| MkCramfs.Maker.PopDirectory | src/cramfs-2.x/mkcramfs.c:540-549 | the popped directory is the one whose children come next, and its inode points at them |
| MkCramfs.ComingAfterListing | src/cramfs-2.x/mkcramfs.c:461-552 | what is still to be written is what lies below the stack, top first, at every turn |
| MkCramfs.PopOffset | src/cramfs-2.x/mkcramfs.c:540-549 | the popped directory's first child is the next record |
| MkCramfs.Maker.WriteRecord | src/cramfs-2.x/mkcramfs.c:470-500 | writes inode and padded name with the offset still zero |
| MkCramfs.Maker.SetDataOffset | src/cramfs-2.x/mkcramfs.c:412-428 | refuses unaligned offsets and those of 2^28 or more; otherwise changes only the offset field of this entry |
| MkCramfs.IsZeroExact | src/cramfs-2.x/mkcramfs.c:554-567 | `is_zero` with its overlapping `memcmp` holds of a block if and only if all its bytes are NUL |
| MkCramfs.Maker.DoCompress | src/cramfs-2.x/mkcramfs.c:578-627 | writes exactly the chunk of the data at the offset, returns its end, leaves the rest of the buffer alone and counts the blocks |
| MkCramfs.Maker.StoreBlock | src/cramfs-2.x/mkcramfs.c:592-616 | one block: its pointer is the end of its bytes, of which a hole has none |
| MkCramfs.Maker.PlaceData | src/cramfs-2.x/mkcramfs.c:637-650 | a duplicate gets the offset of its representative, which has been set by then; anything else is compressed at the next free place |
| MkCramfs.SharedOffset | src/cramfs-2.x/mkcramfs.c:637-642 | `same` is set exactly when the content is stored already, and leads to the stored offset |
| MkCramfs.Maker.WriteData | src/cramfs-2.x/mkcramfs.c:635-656 | over a whole tree every distinct content is compressed exactly once, in preorder, and every inode gets its offset; fails only on an offset out of range |
| MkCramfsMain.MakeImage | src/cramfs-2.x/mkcramfs.c:744-832 | scan, deduplicate, lay out, compress, superblock and checksum: for every image that fits the maximum it succeeds if and only if all offsets fit, and the bytes are the layout's image |
| MkCramfsMain.Finish | src/cramfs-2.x/mkcramfs.c:800-811 | superblock first with a zero checksum, then the checksum over everything behind the padding |
| MkCramfsMain.FilledAfter | src/cramfs-2.x/mkcramfs.c:787-797 | both passes together fill the buffer with the image's body |
| CramfsCk.Run | src/cramfs-2.x/cramfsck.c:658-707 | the imperative checker returns exactly what the recursive reading functions say; reads behind the end of the file and decreasing block pointers are errors there (see below) |
| CramfsCk.Checker.RomfsRead | src/cramfs-2.x/cramfsck.c:288-297 | the read buffer always holds the file's bytes at the asked offset |
| CramfsCk.Checker.DoUncompress | src/cramfs-2.x/cramfsck.c:361-405 | the block loop returns the bytes, or the error, of the recursive reading, and the same `end_data`; a decreasing block pointer is an error there (see below) |
| CramfsCk.Checker.DoDirectoryEntries | src/cramfs-2.x/cramfsck.c:430-490 | the record loop returns the children in order, or the first error |
| CramfsCk.Checker.ExpandFs | src/cramfs-2.x/cramfsck.c:613-627 | one entry by its type, with all below it |
| CramfsCk.Checker.DoFileData | src/cramfs-2.x/cramfsck.c:492-522 | the data of a regular file |
| CramfsCk.Checker.DoSymlinkTarget | src/cramfs-2.x/cramfsck.c:524-566 | the target of a symbolic link |
| CramfsCk.Checker.DoSpecialInode | src/cramfs-2.x/cramfsck.c:568-611 | devices, pipes and sockets |
| CramfsCk.Checker.TestFsMain | src/cramfs-2.x/cramfsck.c:629-655 | the walk and the closing checks |
| CramfsSwap.SwapTwice | src/cramfsswap/cramfsswap.c:60-354 | swapping any accepted file twice gives it back with a fresh checksum; it is the same file, byte for byte, if and only if its checksum was right |
| CramfsSwap.SwapInodeTwice | src/cramfsswap/cramfsswap.c:186-229 | swapping an inode from one byte order and then from the other restores its bytes |
| CramfsSwap.SwapInodeDecodes | src/cramfsswap/cramfsswap.c:186-229 | the swapped inode decodes, in the other byte order, to the same six fields |
| CramfsSwap.SwapInodeEncodes | src/cramfsswap/cramfsswap.c:186-229 | the swapped encoding is the encoding for the other byte order |
| CramfsSwap.ListedTwice | src/cramfsswap/cramfsswap.c:177-254 | the directory pass over its own output fills the same tables and restores the records |
| CramfsSwap.DataPassTwice | src/cramfsswap/cramfsswap.c:261-326 | the data pass over its own output restores the data |
| CramfsSwapMain.Swap | src/cramfsswap/cramfsswap.c:60-354 | the whole program, on a host of either byte order, computes the swap on every input below 2^31 bytes, failures included |
| CramfsSwapMain.ReadDirectory | src/cramfsswap/cramfsswap.c:177-254 | rewrites the records and tabulates sizes and offsets |
| CramfsSwapMain.FindFile | src/cramfsswap/cramfsswap.c:273-281 | the first file whose data starts at `filepos`, if there is one |
| CramfsSwapMain.CountDown | src/cramfsswap/cramfsswap.c:283-287 | takes every file at `filepos` off `remaining`, modulo 2^32 |
| CramfsSwapMain.CopyFile | src/cramfsswap/cramfsswap.c:289-330 | swaps one pointer table and copies the blocks behind it |
| CramfsSwapMain.CopyData | src/cramfsswap/cramfsswap.c:266-331 | the data pass, until `remaining` is zero |
| CramfsSwapImage.SwapImage | src/cramfsswap/cramfsswap.c:60-354 | an unpadded, hole-free, unshifted image becomes exactly the image mkcramfs makes of the same tree for the other byte order, checksum included; every other image is refused |
| CramfsSwapImage.SwapRefused | src/cramfsswap/cramfsswap.c:113-148 | padding, holes or a shifted root make the program give up |
| CramfsSwapImage.DataPassPieces | src/cramfsswap/cramfsswap.c:266-331 | a file is found at every `filepos` reached, each stored chunk is swapped once, and `remaining` ends at zero |
| CramfsSwapImage.ExtentHere | src/cramfsswap/cramfsswap.c:273-330 | one turn: the extent of the file found is its whole chunk |
| CramfsSwapImage.CountMatches | src/cramfsswap/cramfsswap.c:283-287 | every non-empty file and link is counted down exactly once, although data is shared |
| CramfsSwapImage.ListedRecs | src/cramfsswap/cramfsswap.c:177-254 | the directory pass over any records |
| Huffman.CompleteKraft | src/bff/bff_huffman_decompress.c:121-136 | a level table describes a complete tree if and only if its code lengths sum to one |
| Huffman.StepStays | src/bff/bff_huffman_decompress.c:268-305 | in every reachable state the level is within the tree, the code is below inner nodes plus leaves of its level, and the next bit keeps it so |
| Huffman.ReadNode | src/bff/bff_huffman_decompress.c:268-305 | reading the code of a node from the root arrives at that node |
| Huffman.RunCodes | src/bff/bff_huffman_decompress.c:252-311 | decoding the codes of any leaves and the end-of-block code gives these leaves, whatever bits follow |
| Huffman.RunReads | src/bff/bff_huffman_decompress.c:252-311 | conversely, whatever is decoded, the bits read are the codes of the decoded leaves and then the end of block or an unfinished code |
| Huffman.EobPointer | src/bff/bff_huffman_decompress.c:284-292 | the test on the symbol pointer recognises the last code of the last level and no other |
| Huffman.UnpackPacked | src/bff/bff_huffman_decompress.c:156-311 | unpacking a packed file gives back the packed bytes |
| Huffman.UnpackPackedBytes | src/bff/bff_huffman_decompress.c:156-311 | any byte sequence over the symbol table, with any complete table, survives packing and unpacking, whatever follows it |
| Huffman.KnownFile | src/bff/bff_huffman_decompress.c:156-311 | a file byte for byte: header, counts and symbols, and the codes with the most significant bit first |
| HuffmanUnpack.Unpacker.FillInodesin | src/bff/bff_huffman_decompress.c:121-136 | the recursion fills every level's inner-node count as half of all nodes of the next level |
| HuffmanUnpack.Unpacker.ReadCounts | src/bff/bff_huffman_decompress.c:190-216 | level counts from the header, the last one raised by the end-of-block leaf |
| HuffmanUnpack.Unpacker.ReadSymbols | src/bff/bff_huffman_decompress.c:217-246 | all symbols, and where each level starts |
| HuffmanUnpack.Unpacker.ParseHeader | src/bff/bff_huffman_decompress.c:156-247 | the tables describe the file |
| HuffmanUnpack.Unpacker.Decode | src/bff/bff_huffman_decompress.c:252-311 | the loop over bits outputs the symbols of the leaves that the recursive decoder finds |
| HuffmanUnpack.Unpack | src/bff/bff_huffman_decompress.c:314-325 | the whole program computes the unpacked bytes |
| HashStream.StreamFill | src/crcalc/md5.c:375-411 | bytes that complete a block advance the registers by that block |
| HashStream.StreamKeep | src/crcalc/md5.c:375-411 | bytes that do not complete a block only wait |
| Md5.CountMore | src/crcalc/md5.c:385-389 | adding with carry to two 32-bit words counts message bits modulo 2^64 |
| Md5.StreamEnd | src/crcalc/md5.c:413-434 | padding and length complete the last block |
| Md5.PadIs | src/crcalc/md5.c:413-434 | the padding taken from the constant array is that of section 3.1 of RFC 1321 |
| Md5Known.FBits | src/crcalc/md5.c:255-255 | bit by bit the choice of the first argument between the other two |
| Md5Known.GBits | src/crcalc/md5.c:281-281 | bit by bit the choice of the third argument between the first two |
| Md5Known.HBits | src/crcalc/md5.c:307-307 | bit by bit the parity |
| Md5Known.IBits | src/crcalc/md5.c:333-333 | bit by bit y xor (x or not z) |
| Md5Known.KnownDigest | src/crcalc/md5.c:207-434 | the digest of a 55-byte message, with all 64 operations, the sine table, the shifts, padding, length and output |
| Md5Known.LengthIs | src/crcalc/md5.c:413-434 | the two length words together are the number of bits modulo 2^64 |
| Md5Crcalc.State.Process | src/crcalc/md5.c:207-363 | 64 operations written out in four rounds are the compression of section 3.4 of RFC 1321 |
| Md5Crcalc.State.Append | src/crcalc/md5.c:375-411 | a whole `int` of bytes at once: block copies through the buffer extend the message, and the count carries |
| Md5Crcalc.State.Finish | src/crcalc/md5.c:413-434 | returns the digest of the whole message |
| Md5Firmware.Transform | src/firmware-tools/md5.c:203-301 | the other program's rounds are the same compression |
| Md5Firmware.Context.Update | src/firmware-tools/md5.c:122-155 | a byte at a time, with the count carried by comparison |
| Md5Firmware.Context.Count | src/firmware-tools/md5.c:132-138 | the two count words after an update |
| Md5Firmware.Context.Final | src/firmware-tools/md5.c:160-199 | returns the digest of the whole message |
| Md5Firmware.Agree | src/firmware-tools/md5.c:105-199 | for every message and every way of cutting it for each program, both return the digest of the padded message |
| Sha1Firmware.R | src/firmware-tools/sha1.c:95-100 | the circular 16-word schedule holds the last sixteen words of the 80-word schedule of section 7 of FIPS PUB 180-1 |
| Sha1Firmware.P | src/firmware-tools/sha1.c:102-105 | unmasked 64-bit sums have the right low 32 bits |
| Words.LowRotate | src/firmware-tools/sha1.c:93-93 | the masked shift of a wide word rotates its low half |
| Words.LowAdd | src/firmware-tools/sha1.c:102-105 | carries above 32 bits never come back |
| Sha1Firmware.Round1 | src/firmware-tools/sha1.c:113-136 | steps 0 to 19 |
| Sha1Firmware.Round2 | src/firmware-tools/sha1.c:140-163 | steps 20 to 39 |
| Sha1Firmware.Round3 | src/firmware-tools/sha1.c:167-190 | steps 40 to 59 |
| Sha1Firmware.Round4 | src/firmware-tools/sha1.c:194-217 | steps 60 to 79 |
| Sha1Firmware.MajorityAgrees | src/firmware-tools/sha1.c:167-167 | the macro of the third round is the majority function of FIPS PUB 180-1 |
| Sha1Firmware.SelectAgrees | src/firmware-tools/sha1.c:113-113 | the macro of the first round is the choice function of FIPS PUB 180-1 |
| Sha1Firmware.Context.Process | src/firmware-tools/sha1.c:72-226 | the low 32 bits of the state are those of the standard's compression |
| Sha1Firmware.Context.Update | src/firmware-tools/sha1.c:228-265 | extends the message, whatever waits in the buffer |
| Sha1Firmware.Context.Finish | src/firmware-tools/sha1.c:275-299 | returns the digest of the whole message |
| Sha1Firmware.CountLength | src/firmware-tools/sha1.c:281-289 | the length field computed from the two counters |
| Sha1Firmware.Hash | src/firmware-tools/sha1.c:60-299 | the digest does not depend on how the message is cut |
| Sha1Known.ChBits | src/firmware-tools/sha1.c:113-113 | bit by bit the choice of the first argument between the other two |
| Sha1Known.ParityBits | src/firmware-tools/sha1.c:140-140 | bit by bit the parity |
| Sha1Known.MajBits | src/firmware-tools/sha1.c:167-167 | bit by bit the majority |
| Sha1Known.KnownDigest | src/firmware-tools/sha1.c:60-299 | the digest of a 55-byte message, with all 80 steps, the schedule, the constants, padding, length and output |
| Sha1Known.LengthIs | src/firmware-tools/sha1.c:281-289 | the two length words together are the number of bits modulo 2^64 |
| NandEcc.TableHolds | src/firmware-tools/nand_ecc.c:43-60 | all 256 table entries hold the column parities and the parity of their index |
| NandEcc.CalculateEcc | src/firmware-tools/nand_ecc.c:67-119 | the three bytes are the code of the block: 22 inverted parities and two set bits |
| NandEcc.CodeUnique | src/firmware-tools/nand_ecc.c:67-119 | a block has exactly one code |
| NandEcc.ErasedCode | src/firmware-tools/nand_ecc.c:67-119 | the code of an erased block, all ones, is all ones |
| NandEcc.FlipPair | src/firmware-tools/nand_ecc.c:67-119 | one wrong bit inverts exactly the parities its position takes part in |
| NandEcc.SingleError | src/firmware-tools/nand_ecc.c:67-119 | for every block and bit the difference has one bit in each of the eleven pairs and spells the byte and the bit |
| NandEcc.DoubleError | src/firmware-tools/nand_ecc.c:67-119 | two wrong bits give a non-zero difference that is never of that shape |
| NandEcc.CodeError | src/firmware-tools/nand_ecc.c:67-119 | one wrong bit of the stored code gives a difference of this bit alone, which is not of that shape |
| NandEcc.MixedError | src/firmware-tools/nand_ecc.c:67-119 | a wrong data bit and a wrong code bit show and are not of that shape, unless the code bit is one of the two that hold no parity |
| Crc32.InitByIndexBits | src/firmware-tools/mkmylofw.c:264-293 | the generator that feeds the index bits from the list of terms fills the table |
| Crc32.InitByDivision | src/firmware-tools/motorola-bin.c:60-73 | the generator that divides eight times fills the same table: both are the unique table of the bit-by-bit division |
| Crc32.PolynomialFromTerms | src/firmware-tools/mkmylofw.c:268-280 | the list of terms gives the polynomial |
| Crc32.PolyIs | src/firmware-tools/motorola-bin.c:60-66 | `ntohl(0x2083b8ed)` is that polynomial on a little-endian host |
| Crc32.TableStep | src/firmware-tools/mkmylofw.c:296-306 | one table step is eight division steps |
| Crc32.UpdateCrc | src/firmware-tools/mkmylofw.c:296-306 | the table-driven update is the bit-by-bit CRC of section 8 of RFC 1952 |
| Crc32.UpdatedConcat | src/firmware-tools/mkmylofw.c:296-306 | chained updates give the CRC of the concatenation |
| Crc32.BurstDetected | src/firmware-tools/motorola-bin.c:75-82 | messages of equal length that differ only within four consecutive bytes never have the same CRC |
| Crc32Known.CheckValue | src/firmware-tools/mkmylofw.c:296-306 | the check value of this CRC: the digits 1 to 9 give 0xCBF43926 |
| Crc32Known.Residue | src/firmware-tools/mkmylofw.c:296-306 | a message followed by its own CRC leaves the register at 0xDEBB20E3, for every message |
| Motorola.Crc32Buf | src/firmware-tools/motorola-bin.c:75-82 | the loop without inversion computes the stored checksum |
| Motorola.Strip | src/firmware-tools/motorola-bin.c:142-168 | accepts exactly the files that are long enough, whose flags are those of a model and whose checksum fits, and returns what follows the header |
| Motorola.Add | src/firmware-tools/motorola-bin.c:169-225 | the header in front of the firmware, with the checksum over flags and firmware |
| Motorola.StripStamped | src/firmware-tools/motorola-bin.c:130-225 | stripping what was added returns the firmware, for every model |
| Motorola.AcceptedExactly | src/firmware-tools/motorola-bin.c:142-168 | a file is accepted if and only if its first word is the inverted CRC of all the rest and its second word is one of the three flags words |
| Motorola.StampedWords | src/firmware-tools/motorola-bin.c:169-225 | the two words and the firmware behind them, for each model |
| Motorola.ChangedBodyRejected | src/firmware-tools/motorola-bin.c:142-168 | no accepted file differs from another only within four consecutive bytes of the covered region |
| Motorola.ChangedChecksumRejected | src/firmware-tools/motorola-bin.c:142-168 | nor only in its checksum |
| Zyxel.CsumState.Update | src/firmware-tools/mkzynfw.c:445-474 | whatever the split, odd lengths included, the state describes the bytes so far |
| Zyxel.CsumState.Get | src/firmware-tools/mkzynfw.c:477-484 | the one's-complement sum of all bytes, an odd last byte as the high half of a word |
| Zyxel.AddFolded | src/firmware-tools/mkzynfw.c:459-470 | adding with end-around carry keeps the representative of the sum modulo 65535 |
| Zyxel.WordSumConcat | src/firmware-tools/mkzynfw.c:445-474 | the sum of an even prefix and a rest is the sum of the whole |
| Zyxel.FixUpWorks | src/firmware-tools/mkzynfw.c:832-850 | for any body: the appended word makes the sum equal to the wanted one if and only if the wanted one is non-zero or the body sums to zero |
| Zyxel.BodyNotZero | src/firmware-tools/mkzynfw.c:746-829 | no body that write_out_image writes sums to zero, as the user data of the memory map is part of it |
| Zyxel.ImageSums | src/firmware-tools/mkzynfw.c:746-856 | the body with its last word sums to the first word of the boot extension if that is not zero, and to 0xFFFF otherwise |
| Zyxel.FixUpMisses | src/firmware-tools/mkzynfw.c:746-856 | an image that misses its checksum |
| Zyxel.BlocksPlaced | src/firmware-tools/mkzynfw.c:794-831 | every block is at a multiple of its alignment, behind everything before it, with its own bytes |
| Zyxel.ImageConsistent | src/firmware-tools/mkzynfw.c:746-856 | memory map table and blocks are where the headers say, and the body sums to the header's checksum if and only if the boot extension does not start with a zero word |
| Zyxel.ChecksumExample | src/firmware-tools/mkzynfw.c:445-484 | the worked example of section 3 of RFC 1071, and the same with an odd length |
| Zyxel.HeaderFields | src/firmware-tools/mkzynfw.c:561-591 | the 48 bytes of the header, field by field |
| Zyxel.HeaderTrue | src/firmware-tools/mkzynfw.c:746-856 | the checksum field of an image is that of all that follows the header if and only if the boot extension does not start with a zero word |
| Zyxel.TableThere | src/firmware-tools/mkzynfw.c:746-790 | the address field of an image is that of the memory map table, which stands there, less than 16 bytes behind the boot extension |
| Zyxel.MmapFields | src/firmware-tools/mkzynfw.c:597-631 | the 1024 bytes of the memory map table: start, end and checksum of its user data, and the user data |
| Zyxel.Writer.WriteBlocks | src/firmware-tools/mkzynfw.c:794-831 | the loop over the blocks with its running offset |
| Zyxel.Writer.WriteImage | src/firmware-tools/mkzynfw.c:746-856 | the file is the described image; fails exactly when the boot extension is too big |
| Buffalo.CryptTwice | src/firmware-tools/buffalo-lib.c:154-178 | the same call decrypts what it encrypted, for every key, seed and state length |
| Buffalo.StatePermutation | src/firmware-tools/buffalo-lib.c:87-146 | throughout every run the default state is a permutation of the 256 bytes |
| Buffalo.XorByteTwice | src/firmware-tools/buffalo-lib.c:119-146 | combining a byte twice with the same key byte restores it |
| Buffalo.DecryptContainer | src/firmware-tools/buffalo-lib.c:261-419 | decrypting an encrypted container returns product, version, length and data |
| BuffaloKnown.NextLaw | src/firmware-tools/buffalo-lib.c:119-146 | one step in terms of the state before it: the two indices, the exchange, and the key byte, which is found at the sum of the exchanged elements |
| BuffaloKnown.StreamAt | src/firmware-tools/buffalo-lib.c:119-146 | byte k of the stream is the key byte of step k |
| BuffaloKnown.CryptByte | src/firmware-tools/buffalo-lib.c:154-178 | byte k of the result is byte k of the data combined with the element of the state at the sum of the two exchanged ones |
| BuffaloKnown.XorByteBits | src/firmware-tools/buffalo-lib.c:119-146 | combining is bit by bit |
| BuffaloKnown.ScheduleLaw | src/firmware-tools/buffalo-lib.c:87-117 | one step of the key schedule |
| BuffaloKnown.KnownCiphertext | src/firmware-tools/buffalo-lib.c:154-178 | seed, key, schedule and stream on a given key and text |
| BuffaloKnown.ContainerBytes | src/firmware-tools/buffalo-lib.c:261-321 | the container at its offsets: magic, seed, the three lengths, the three encrypted parts with their chained seeds, and the checksum |
| BuffaloKnown.WrongChecksumRefused | src/firmware-tools/buffalo-lib.c:323-419 | a container with any other checksum is refused |
| BuffaloKnown.CsumOfText | src/firmware-tools/buffalo-lib.c:180-193 | on bytes below 128 the checksum is the CRC register, not inverted at the end |
| BuffaloCrypt.BcryptCtx.constructor | src/firmware-tools/buffalo-lib.c:87-117 | the key schedule |
| BuffaloCrypt.BcryptCtx.Turn | src/firmware-tools/buffalo-lib.c:119-146 | one step of the stream, in the state array |
| BuffaloCrypt.XorOnto | src/firmware-tools/buffalo-lib.c:119-146 | the stream combined onto an overlapping lower place |
| BuffaloCrypt.BcryptBuf | src/firmware-tools/buffalo-lib.c:154-178 | in place or onto a lower place of the same buffer, the result is the cipher of the bytes as they were |
| BuffaloCrypt.EncryptBuf | src/firmware-tools/buffalo-lib.c:261-321 | the header with seeds chained through ciphertext bytes, the data and the checksum |
| BuffaloCrypt.WriteHeader | src/firmware-tools/buffalo-lib.c:261-310 | the header part |
| BuffaloCrypt.DecryptBuf | src/firmware-tools/buffalo-lib.c:323-419 | returns what the container says, or the error, while the data moves down over the header |
| BuffaloCrypt.ReadFields | src/firmware-tools/buffalo-lib.c:323-400 | the walk over the fields with all its bounds checks |
| BuffaloCrypt.BuffaloCsum | src/firmware-tools/buffalo-lib.c:180-193 | the checksum with sign-extended bytes |
| BuffaloCrypt.BufLenRoom | src/firmware-tools/buffalo-lib.c:212-228 | the buffer has room for the container |
| BuffaloCrypt.RoundTrip | src/firmware-tools/buffalo-enc.c:115-174 | encrypting a file and decrypting the result in the same buffer gives product, version and data back |
| MyLoader.BlockLength | src/firmware-tools/mkmylofw.c:529-590 | the bytes written for a block are as many as its descriptor's dlen |
| MyLoader.PaddingExpression | src/firmware-tools/mkmylofw.c:574-586 | the alignment macro without outer parentheses still gives the right padding |
| MyLoader.ImageReadsBack | src/firmware-tools/mkmylofw.c:660-728 | walking the descriptors to the null one and summing dlen ends exactly at the end of the file and finds every block's bytes |
| MyLoader.ImageChecksum | src/firmware-tools/mkmylofw.c:1260-1290 | the stored checksum is the CRC of the whole file with the field zero |
| MyLoader.ChecksumWord | src/firmware-tools/mkmylofw.c:1260-1290 | the word at 4 is the CRC of the file with this word zero |
| MyLoader.HeaderWords | src/firmware-tools/mkmylofw.c:594-617 | the other words of the header, at their offsets |
| MyLoader.HeaderIds | src/firmware-tools/mkmylofw.c:594-617 | the four halfwords of the header, at their offsets |
| MyLoader.DescWords | src/firmware-tools/mkmylofw.c:660-713 | the descriptors of the partition table and of every block, and the null one, at their offsets |
| MyLoader.BlockWords | src/firmware-tools/mkmylofw.c:529-590 | a block with its length and CRC in front and 0xFF behind it |
| MyLoader.PartitionWords | src/firmware-tools/mkmylofw.c:620-657 | the partition table: magic number, entries, names, and zeros where there is none |
| MyLoader.Writer.FileCrc | src/firmware-tools/mkmylofw.c:371-415 | the checksum of a file read piece by piece |
| MyLoader.Writer.WriteBlock | src/firmware-tools/mkmylofw.c:529-590 | one block, with its optional header and padding, and the running checksum |
| MyLoader.Writer.WritePartitions | src/firmware-tools/mkmylofw.c:620-657 | the partition table, with the running checksum |
| MyLoader.Writer.WriteBlocks | src/firmware-tools/mkmylofw.c:660-728 | all descriptors, the partition table and all blocks |
| MyLoader.Writer.WriteImage | src/firmware-tools/mkmylofw.c:1260-1290 | the file is the described image |
| Seama.FoundInMeta | src/firmware-tools/seama.c:406-418 | a string is found in a written meta area if and only if it is one of the metas, or empty with padding present |
| Seama.MatchesMetas | src/firmware-tools/seama.c:406-418 | a written meta area matches exactly when it has all wanted metas, whatever is left behind it in the buffer |
| Seama.NextItem | src/firmware-tools/seama.c:185-318 | a sealing header or an image that was written reads back, with its digest and metas |
| Seama.HeaderFields | src/firmware-tools/seama.c:273-293 | the header word by word |
| Seama.ItemFields | src/firmware-tools/seama.c:273-402 | header, digest, meta area and image, each at its offset |
| Seama.VerifiedItems | src/firmware-tools/seama.c:185-270 | a file made of sealing headers and images in any order is accepted if and only if it holds an image |
| Seama.SealedVerified | src/firmware-tools/seama.c:185-270 | every packed image is accepted, and a sealed file if and only if it holds an image |
| Seama.WalkItem | src/firmware-tools/seama.c:448-500 | one turn of the extraction loop for an item that was written |
| Seama.LastTurn | src/firmware-tools/seama.c:448-500 | at the end of the file the loop turns once more with the old header and whatever the buffer holds |
| Seama.ExtractItems | src/firmware-tools/seama.c:448-500 | one file: the image of the first item with all wanted metas; without one, an empty output exactly when the last header and the left-over buffer pass for one |
| Seama.ExtractFiles | src/firmware-tools/seama.c:421-507 | any files: extraction gives the first image with all wanted metas, or nothing when there is none, if and only if no file before it ends with such a header and buffer; otherwise an empty output |
| Seama.ExtractFirst | src/firmware-tools/seama.c:421-507 | an image in the first file is extracted without any condition |
| Seama.StaleExample | src/firmware-tools/seama.c:421-507 | an accepted file for which extraction writes an empty output and never looks at the next file, which has the image |
| SeamaTool.CalculateDigest | src/firmware-tools/seama.c:142-165 | the digest of the next bytes, or of the whole file, read in pieces |
| SeamaTool.CopyFile | src/firmware-tools/seama.c:168-183 | copies all that is left of a file |
| SeamaTool.WriteHeader | src/firmware-tools/seama.c:273-293 | the header with the padded meta size |
| SeamaTool.WriteMetaData | src/firmware-tools/seama.c:300-318 | the metas with their terminators and the padding |
| SeamaTool.Pack | src/firmware-tools/seama.c:366-402 | one packed image |
| SeamaTool.Verify | src/firmware-tools/seama.c:185-270 | whether a good entity is found before the first thing that is not one |
| SeamaTool.MatchMeta | src/firmware-tools/seama.c:406-418 | the search loops find every wanted string or report that one is missing |
| SeamaTool.ReadInto | src/firmware-tools/seama.c:448-466 | a short read leaves the rest of the variable as it was |
| SeamaTool.ReadThrough | src/firmware-tools/seama.c:455-499 | the loops that read in pieces give the bytes and leave the buffer as computed |
| SeamaTool.Turn | src/firmware-tools/seama.c:448-500 | one turn of the loop on the header and buffer variables |
| SeamaTool.ExtractFile | src/firmware-tools/seama.c:446-503 | the walk over one file, with the header and buffer it leaves |
| SeamaTool.Extract | src/firmware-tools/seama.c:421-507 | all input files, those that are not accepted passed over, header and buffer carried from one to the next |
| SeamaTool.SealFiles | src/firmware-tools/seama.c:327-364 | refuses unless every input is accepted; otherwise the header and all inputs |
| SeamaTool.PackSealExtract | src/firmware-tools/seama.c:327-507 | packing, sealing, verifying and extracting in one run: accepted, and the outcome in each case |
| Srec.FaithfulIffClean | src/firmware-tools/srec2bin.c:201-224 | the records expand to exactly the bytes and starts asked for, with nothing in front of them, if and only if no first operation, start, or byte behind a start runs on from what was before; they are then merged maximally |
| Srec.MergedUnique | src/firmware-tools/srec2bin.c:201-224 | only one list of merged records says a given thing |
| Srec.RecordsReadBack | src/firmware-tools/srec2bin.c:157-199 | a reader that checks every length and checksum finds the records again |
| Srec.ChecksumCancels | src/firmware-tools/srec2bin.c:187-192 | length, address, data and checksum of a record add up to zero modulo 2^32 |
| Srec.FileReadsBack | src/firmware-tools/srec2bin.c:110-224 | tag and records of clean operations, read back |
| Srec.BytesAreClean | src/firmware-tools/srec2bin.c:210-224 | bytes alone are clean if and only if the first address is not zero |
| Srec.FirstByteAtZero | src/firmware-tools/srec2bin.c:210-224 | a first byte at address zero has no record |
| Srec.StartRunsOn | src/firmware-tools/srec2bin.c:201-209 | a program start behind the last byte is lost |
| Srec.ByteAfterStart | src/firmware-tools/srec2bin.c:201-224 | a byte behind a program start lands at the address of the start |
| SrecText.S3LineRead | src/firmware-tools/srec2bin.c:392-401 | a data line asks for its bytes at consecutive addresses |
| SrecText.S7LineRead | src/firmware-tools/srec2bin.c:410-415 | a start line asks for its address |
| SrecText.S0LineRead | src/firmware-tools/srec2bin.c:382-385 | a title line asks for nothing |
| SrecText.S5LineRead | src/firmware-tools/srec2bin.c:405-408 | a count line is accepted if and only if both its count and the number of data lines so far are zero |
| SrecText.CountLosesStart | src/firmware-tools/srec2bin.c:405-415 | the start line behind a correct count line is lost |
| SrecText.FileOps | src/firmware-tools/srec2bin.c:349-427 | a file of title, data, count and start lines asks for what its lines do, up to the first count line that is refused |
| SrecText.AcceptedLine | src/firmware-tools/srec2bin.c:349-380 | an accepted line starts with an S, is as long as its count says, has only digits, and its bytes add up to 255 |
| SrecText.ChangedDigitRefused | src/firmware-tools/srec2bin.c:292-380 | any change of one digit of an accepted line, in its count or behind it, makes it refused |
| SrecText.KnownLine | src/firmware-tools/srec2bin.c:349-401 | a data line character for character |
| SrecText.TextReadsAsRecords | src/firmware-tools/srec2bin.c:349-427 | from lines to records: the records say exactly what the lines do if and only if that is clean and no line behind a refused count line asks for anything; a reader then finds them |
| SrecTool.ReadHex | src/firmware-tools/srec2bin.c:321-342 | the value of the digits |
| SrecTool.CheckLine | src/firmware-tools/srec2bin.c:292-319 | all digits valid and the sum complete |
| SrecTool.Converter.RecEnd | src/firmware-tools/srec2bin.c:157-199 | going back over data, address and length and returning completes the record |
| SrecTool.Converter.OutByte | src/firmware-tools/srec2bin.c:210-224 | extends or starts a record |
| SrecTool.Converter.OutProgramStart | src/firmware-tools/srec2bin.c:201-209 | starts a record without data, unless the address runs on |
| SrecTool.Converter.SrecLine | src/firmware-tools/srec2bin.c:349-427 | does what the line asks for and reports whether it was accepted |
| SrecTool.Convert | src/firmware-tools/srec2bin.c:434-514 | the file is the tag, stray bytes if any, and complete records of everything the lines ask for |
| SquashfsFields.Pack | src/squashfs-2.1-r2/mksquashfs.h:30-46 | or-es exactly the bits of the value into their places in the row of bits; no other bit of the buffer changes, on either host |
| SquashfsFields.Unpack | src/squashfs-2.1-r2/read_fs.h:30-47 | every bit of what is read: the field, and above it the neighbouring bits that the mask left out of the macro would have removed |
| SquashfsFields.FieldReadsBack | src/squashfs-2.1-r2/read_fs.h:30-47 | cut to its width, a field that overlaps no other reads back as its value |
| SquashfsFields.PackAndUnpack | src/squashfs-2.1-r2/mksquashfs.h:30-47 | packing any disjoint fields into a cleared buffer and unpacking each gives every value back, for both shifts |

## Left out

- zlib: `compress` and `inflate` are any functions with the laws of `CramfsFormat.Lawful`: blocks come back, take at least one byte, and grow by at most 26.
- CramfsCk.Run: the depth of directories is bounded by a parameter; any bound above the depth of the tree gives the same result. A read beyond the end of the file is an error; the program would use what its buffer happens to hold.
- CramfsCk.Checker.DoUncompress: a block pointer below the one before it is an error; the program passes the negative length, which its test against 8192 lets through, on to `inflate`.
- CramfsCk: the extracted tree is returned instead of being written to disk; ownership, times and printing are not modelled.
- MkCramfsMain.MakeImage: an image above the largest image size, for which the program writes behind its buffer or dies, is not covered.
- CramfsEntry.ParseDirectory: names longer than 252 bytes, ids and sizes that do not fit, and unreadable files, which the scan cuts or skips, are preconditions; sorting by the C library is not modelled.
- CramfsEntry: the links between entries are set when an entry is made, as a directory is parsed before its own entry is complete.
- MkCramfs: the directory stack is a sequence reassigned by the loop, so its growth with `realloc` is not modelled.
- MkCramfs: symbolic links are not empty, hold no NUL and have at most 4096 bytes.
- CramfsSwapMain.FindFile: the bound is tested before the table is read, where the program reads one element past its table when nothing matches.
- CramfsSwapMain.Swap: input of 2^31 bytes or more, whose lengths do not fit an `int`, is excluded.
- CramfsSwap: masks and shifts of one byte are written as quotients and remainders.
- HuffmanUnpack.Unpack: malformed tables and streams are excluded: the program's error exits do nothing, and it goes on with them.
- Md5Firmware.Agree: the pieces given to the block-copying program are limited as in the next line.
- Md5Crcalc.State.Append: a single update has to leave room for a block below 2^31, the range of the program's `int` arithmetic.
- Words: operations on 64-bit words are stated on their two halves.
- Sha1Firmware: the file and HMAC wrappers are not part of this model.
- NandEcc: the file loop around the calculation is not part of this model.
- Motorola.Add: finding a model by name and file access are not modelled.
- MyLoader.Writer.WriteImage: argument parsing and the range checks on files and partitions are not modelled; a partition name fills its field.
- Zyxel.Writer.WriteImage: alignments are powers of two, the boot extension has at least two bytes, and flash offsets do not wrap around.
- Buffalo.DecryptContainer: every magic is accepted, as in the program, where stray semicolons end both tests (src/firmware-tools/buffalo-lib.c:252-256).
- BuffaloCrypt: failing allocations and keys longer than the program's buffer are excluded; the region tags and their CRC are not modelled.
- Seama: MD5 digests are those of the `Md5` module; what is printed is not modelled.
- SeamaTool.ReadInto: a partial header overwrites the part of the variable that it reaches, as the C library does in practice.
- SeamaTool.MatchMeta: a string that runs to the end of the 1024-byte buffer ends there; the program goes on into the memory behind it.
- SeamaTool.ExtractFile: a meta area of more than 1024 bytes in front of an image, which overruns the program's buffer, is an outcome of its own.
- SrecText.Line: a line is what `readline` delivered; cutting the file into lines of at most 255 characters is not modelled.
- SrecTool.Converter.OutByte: a record stays below 2^32 bytes.
- SquashfsFields: the structures that are written and read with these macros are not part of this model.
- Header stampers such as add_header, addpattern, mkdapimg and trx2usr, LZMA, ptgen, pc1crypt and the scripts are left out: foreign code, or code whose properties can be read off its body.
