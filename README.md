# DiskTools in Dafny

A verified model of the computational core of DiskTools, a set of small Windows disk
utilities. The model covers three parts:

- **The FAT12 floppy-image builder** (BuildImage, and its older copy WriteImage). It
  assembles a 1.44 MB image: a 512-byte boot sector carrying the `55 AA` signature, a
  9-sector file allocation table starting `F0 FF FF` written twice, a 14-sector zeroed root
  directory, and `0xF6` fill up to 1,474,560 bytes. It also reads `-b=`, `-f=` and `-l=`
  from the command line (the last of each wins) and checks the volume label.
- **The MBR partition reader** (DirectRead, shared/directread.h, WinPartitionInfo). It
  decodes the packed 16-byte partition entries, names partition types through a sorted
  table, and reads sectors over an abstract device. It walks the chain of extended
  partitions of disks 0 and 1 into one list capped at 32 entries, and renders each
  listed partition as a row of values.
- **The helpers.**
  - The window-message name lookup.
  - The `Scoped_resource` ownership class.
  - The OpenGL extension-string tokenizer and sort.
  - The locale number format with its digit-grouping fold.
  - Rectangle and listview column arithmetic.
  - The lowest-set-bit affinity mask.

Where the code changes state step by step, the model does too:
- the image is assembled in an `array<byte>` by `std::copy`/`std::fill`-style methods;
- the partition list is a class whose `seq` field the walker appends to;
- `Scoped_resource` and `Number_format` are classes with `modifies` clauses;
- the tokenizer, the grouping fold and the column-width loops are `while` loops with
  invariants.

Each method is proved against a specification function, and the promised properties are
proved about those functions as lemmas.

Files: `wrappers.dfy` (Option, Result); `packed.dfy` (fixed-width integers, little-endian
fields, packed record layouts); `numerals.dfy` (decimal and `%02X` text);
`sorted_table.dfy` (`std::lower_bound`); then one file per source file:
`build_image.dfy`, `write_image.dfy`, `direct_read.dfy`, `shared_direct_read.dfy`,
`win_partition_info.dfy`, `window_messages.dfy`, `scoped_resource.dfy`, `windows_gl.dfy`,
`string_utils.dfy`, `window_utils.dfy`, `thread_affinity.dfy`.

The model follows the code where it differs from the documented intent:
- `sanitize_label` calls `erase(11, npos)`, which throws `out_of_range` for a label shorter
  than 11 characters. So "data" is refused rather than becoming "DATA", and both tools exit
  with 1 unless `-l=` supplies at least 11 characters (`BuildImage.SanitizeExamples`,
  `BuildImage.ExitCodes`).
- `is_legal_fat_character` accepts NUL, because its search runs over the literal's
  terminator.
- The walker's cap is tested with `==`.
- The next table's sector wraps in 32 bits.
- `can_buffer_hold_sector` always reports `S_OK` (`DirectRead.CanBufferHoldSector`). When
  the geometry query fails, `read_sector_from_handle` goes on with the caller's buffer size
  as the sector size. The partition walker reads exactly so, except in one case: a sector
  larger than its 512-byte buffer is refused instead of overrunning it (see Findings).

## Model

| member | source | states |
|---|---|---|
| BuildImage.RecordLayouts | BuildImage/BuildImage.cpp:9-48 | The packed BPB is 59 bytes and a directory entry 32, every field at its prefix-sum offset, and the BPB volume label (11) as wide as file name plus extension (8+3) |
| BuildImage.FatSpecificationOffsets | BuildImage/BuildImage.cpp:10-47 | Placed at boot-sector offset 3, every BPB field lands on the FAT specification's offset (BS_OEMName 3 … BS_FilSysType 54, end 62); every directory-entry field on DIR_* offsets |
| BuildImage.GetDefaultBootSector | BuildImage/BuildImage.cpp:51-60 | A fresh 512-byte sector, zero except 0x55 at 510 and 0xAA at 511 (WriteImage has the identical code at WriteImage/WriteImage.cpp:54-63) |
| BuildImage.GetEmptyFileAllocationTable | BuildImage/BuildImage.cpp:62-71 | n×512 bytes, F0 FF FF then zeros; requires n ≥ 1 since bytes 0–2 are written unconditionally (WriteImage has the identical code at WriteImage/WriteImage.cpp:65-74) |
| BuildImage.GetEmptyRootDirectory | BuildImage/BuildImage.cpp:73-78 | n×512 zero bytes |
| BuildImage.EmptyFatEntries | BuildImage/BuildImage.cpp:62-71 | Read as 12-bit entries, the empty table has entry 0 = 0xFF0 (media F0), entry 1 = 0xFFF (end of chain), every other entry free, and room for all 2847 data clusters |
| BuildImage.RootDirectoryEntries | BuildImage/BuildImage.cpp:161 | 14 sectors hold exactly 224 directory entries of 32 bytes |
| BuildImage.CopyInto | BuildImage/BuildImage.cpp:175-178 | `std::copy` into the image: the range [at, at+|src|) takes src, the rest is unchanged, the returned iterator is at+|src| |
| BuildImage.FillFrom | BuildImage/BuildImage.cpp:179 | `std::fill` from the iterator to the end; bytes before it unchanged |
| BuildImage.AssembleDiskImage | BuildImage/BuildImage.cpp:169-179 | The iterator-driven assembly yields byte i = the region byte for i (boot, FAT, FAT, root, fill) |
| BuildImage.DiskImageLayout | BuildImage/BuildImage.cpp:169-179 | The image is 1,474,560 bytes: boot [0,512), FAT [512,5120), identical FAT [5120,9728), zero root [9728,16896), 0xF6 to the end |
| BuildImage.ReadBootSectorFile | BuildImage/BuildImage.cpp:166 | The read overwrites the first min(|file|, 512) bytes with the file's and keeps the rest |
| BuildImage.BootSectorOverwrite | BuildImage/BuildImage.cpp:163-167 | No file name: the default sector; else byte i is the file's byte when the file has it, the default byte otherwise |
| BuildImage.OutputBootSector | BuildImage/BuildImage.cpp:153-186 | The file written is named as given and holds the assembled image over the boot sector read; the label is not used |
| BuildImage.IsLegalFatCharacter | BuildImage/BuildImage.cpp:105-130 | Returns true iff the character is A–Z, 0–9, 128–255, one of the 17 punctuation characters, or NUL (the literal's terminator) (WriteImage has the identical code at WriteImage/WriteImage.cpp:108-133) |
| BuildImage.LegalCharacterExamples | BuildImage/BuildImage.cpp:120-129 | Space, a, z, ", *, +, /, 127 and 256 are refused; NUL, ~ and 255 accepted |
| BuildImage.Upper | BuildImage/BuildImage.cpp:141 | `towupper` leaves no lower-case ASCII letter |
| BuildImage.UpperCased | BuildImage/BuildImage.cpp:141 | The transform keeps the length and maps each character through `towupper` |
| BuildImage.SanitizeLabel | BuildImage/BuildImage.cpp:133-151 | The erase/transform/check sequence on its copy yields exactly the sanitized label or its error |
| BuildImage.SanitizedLabel | BuildImage/BuildImage.cpp:138-150 | Accepted iff ≥ 11 characters whose first 11 upper-cased are legal; shorter labels fail with out_of_range; the result is those 11 upper-cased characters (WriteImage has the identical code at WriteImage/WriteImage.cpp:136-154) |
| BuildImage.SanitizeIgnoresTail | BuildImage/BuildImage.cpp:140 | Characters past the 11th never affect the outcome |
| BuildImage.SanitizeIdempotent | BuildImage/BuildImage.cpp:133-151 | A sanitized label sanitizes to itself |
| BuildImage.SanitizeExamples | BuildImage/BuildImage.cpp:140-148 | "data" → out_of_range, "my disk 123" → illegal character, "backup_2024" → "BACKUP_2024" |
| BuildImage.LastOptionWins | BuildImage/BuildImage.cpp:193-207 | The value of an option is the text after it in the last argument that carries it |
| BuildImage.LastOptionAbsent | BuildImage/BuildImage.cpp:190-207 | An option no argument carries stays "" |
| BuildImage.ScanArguments | BuildImage/BuildImage.cpp:193-207 | The loop over all of argv (argv[0] too) leaves each setting at the last matching option |
| BuildImage.ParseCommandLine | BuildImage/BuildImage.cpp:188-216 | Scan, default the image name to "file.img", sanitize the label (its failure is the result) |
| BuildImage.Run | BuildImage/BuildImage.cpp:220-247 | `_tmain` gives exactly the specified outcome |
| BuildImage.ExitCodes | BuildImage/BuildImage.cpp:220-247 | Exit code is 0 or 1; an image is written iff argc ≥ 2 and the last label is accepted; 0 iff usage or written; a label under 11 characters gives 1 and no file |
| BuildImage.WrittenImage | BuildImage/BuildImage.cpp:153-216 | A written image is named by the last -f= or "file.img", is 1,474,560 bytes, has two identical FATs, and the default boot sector when no -b= is given |
| WriteImage.OutputBootSector | WriteImage/WriteImage.cpp:156-209 | The inline scan, sanitize-first, build, default the name, read the boot sector and assemble give exactly the specified result |
| WriteImage.Run | WriteImage/WriteImage.cpp:211-233 | `_tmain`: usage and 0 for argc < 2, 1 when the label throws, else the image and 0 |
| WriteImage.SameOutcomeAsBuildImage | WriteImage/WriteImage.cpp:156-233 | For every command line and every file set, WriteImage and BuildImage exit alike and write the same file |
| WriteImage.RefusedLabelWritesNothing | WriteImage/WriteImage.cpp:177-185 | A refused label aborts with exit 1 and no file, carrying the sanitiser's error |
| DirectRead.EntryLayout | DiskTools/DirectRead.h:7-21 | The packed entry is 16 bytes, byte fields at offsets 0–7, start_sector at 8 and sectors at 12; four entries plus signature are 66 bytes |
| DirectRead.DecodeEncode | DiskTools/DirectRead.h:8-20 | Decoding the stored 16 bytes of an entry gives the entry back |
| DirectRead.EncodeDecode | DiskTools/DirectRead.h:8-20 | Every 16 bytes are the encoding of the entry they decode to |
| DirectRead.DecodeFollowsLayout | DiskTools/DirectRead.h:8-20 | Each decoded member is the little-endian value of the field the packed layout places at its offset |
| DirectRead.FileSystemTypesAscending | DiskTools/DirectRead.cpp:15-40 | The table has 19 entries from 0x00 to 0xEE, strictly ascending by type byte |
| DirectRead.FindName | DiskTools/DirectRead.cpp:58-72 | On a strictly ascending table the lower_bound lookup finds a name iff the type is present, and it is that entry's name |
| DirectRead.GetFileSystemName | DiskTools/DirectRead.cpp:51-75 | Some(name) iff the type is in the table, with the table's name for it; None (null) otherwise |
| DirectRead.FileSystemNameExamples | DiskTools/DirectRead.cpp:51-75 | 0x07 → "NTFS/HPFS", 0x00 → "None/Raw", 0x85 → "Linux Extended", 0xA0 → none |
| DirectRead.FileSystemNameShort | DiskTools/DirectRead.cpp:21-39 | No name returned is longer than 20 characters |
| DirectRead.ExtendedTypes | DiskTools/DirectRead.cpp:41-42 | Of the table's types exactly "Extended" (0x05) and "Windows Extended" (0x0F) are extended |
| DirectRead.LinuxExtendedNotFollowed | DiskTools/DirectRead.cpp:78-82 | 0x85 "Linux Extended" is known but not extended |
| DirectRead.SplitOffsetJoins | DiskTools/DirectRead.cpp:89-91 | high·2^32 + low (and high<<32 \| low) rebuilds the 64-bit offset |
| DirectRead.SeekToOffset | DiskTools/DirectRead.cpp:85-104 | S_OK, or HRESULT_FROM_WIN32 of the error the seek reports |
| DirectRead.CanBufferHoldSector | DiskTools/DirectRead.cpp:107-141 | Always S_OK; the size becomes BytesPerSector only when the geometry query succeeds |
| DirectRead.ReadSectorFromHandle | DiskTools/DirectRead.cpp:162-189 | Seeks to sector×size, ERROR_READ_FAULT on a failed read, the size set to the bytes read; never "buffer too small"; the data are the medium's first `size` bytes at the offset |
| DirectRead.CheckedCanBufferHoldSector | DiskTools/DirectRead.cpp:107-141 | The buffer test with its TYPE_E_BUFFERTOOSMALL returned: that status iff the device reports a sector larger than the buffer, S_OK otherwise (a failed geometry query keeps the buffer size, as written); the size left is the one the code leaves |
| DirectRead.CheckedReadSectorFromHandle | DiskTools/DirectRead.cpp:162-189 | The read over the checked test never delivers more bytes than the buffer holds |
| DirectRead.CheckedReadFitsBuffer | DiskTools/DirectRead.cpp:127-137 | Checked: data fit the buffer, a successful read reports exactly its bytes, a larger sector is TYPE_E_BUFFERTOOSMALL |
| DirectRead.CheckedReadAgrees | DiskTools/DirectRead.cpp:107-189 | Unless the sector overruns the buffer, the checked read equals the read as written; in particular a failed geometry query reads the buffer's size in both |
| DirectRead.ReadSectorOverrunsBuffer | DiskTools/DirectRead.cpp:140 | As written, a 512-byte buffer on a 4096-byte-sector disk reports S_OK and receives 4096 bytes |
| DirectRead.DiskNameFits | DiskTools/DirectRead.cpp:146-148 | Every disk name with its terminator fits the 21-character buffer, starts with \\.\PHYSICALDRIVE and its digits read back as the number |
| DirectRead.ReadSectorFromDisk | DiskTools/DirectRead.cpp:192-223 | Invalid handle: ERROR_OPEN_FAILED, size unchanged, nothing read; else exactly the read from the handle |
| SharedDirectRead.SameLayoutAsDiskTools | shared/directread.h:21-37 | Same count (4) and field-for-field the same packed entry as DiskTools/DirectRead.h: 16 bytes, type byte at 4, 32-bit fields at 8 and 12 |
| SharedDirectRead.DecodersAgree | shared/directread.h:23-37 | The two layouts read every one of the ten members from the same bytes, and DirectRead's decoded entry equals this layout's reading field for field, CHS bytes included |
| WinPartitionInfo.TableOfMasterBootRecord | WinPartitionInfo/WinPartitionInfo.cpp:108-114 | In a 512-byte read the table starts at 512−66 = 446 and reads back the four stored entries |
| WinPartitionInfo.FirstExtended | WinPartitionInfo/WinPartitionInfo.cpp:142-151 | The entry found is extended and in the table; none found means no extended entry from there on |
| WinPartitionInfo.NextTableSectorWraps | WinPartitionInfo/WinPartitionInfo.cpp:149 | The next table's sector is start + start_sector, less 2^32 when the sum overflows 32 bits |
| WinPartitionInfo.ReadTable | WinPartitionInfo/WinPartitionInfo.cpp:99-113 | A successful table read yields exactly four entries |
| WinPartitionInfo.GeometryFailureStillReads | WinPartitionInfo/WinPartitionInfo.cpp:99-135 | A disk whose drive-geometry query fails still reads back its table at every sector, through the 512-byte fallback |
| WinPartitionInfo.ReadPartitionTable | WinPartitionInfo/WinPartitionInfo.cpp:99-113 | The read into the 512-byte buffer gives the read's failure, E_UNEXPECTED for a short read, or the four entries at bytes_to_read − 66 |
| WinPartitionInfo.AppendListedEntries | WinPartitionInfo/WinPartitionInfo.cpp:116-135 | The first loop appends to the list exactly the scan's elements (blank and extended skipped, table order, stop at size == 32), leaving earlier elements unchanged |
| WinPartitionInfo.FindFirstExtended | WinPartitionInfo/WinPartitionInfo.cpp:142-152 | Finds the index of the first extended entry iff there is one; no earlier entry is extended |
| WinPartitionInfo.ReadDiskPartitionsFromHandle | WinPartitionInfo/WinPartitionInfo.cpp:93-166 | The list becomes old list ++ the walk's appended elements, and the status is the walk's: append-only even when a deeper read fails |
| WinPartitionInfo.WalkUnfolds | WinPartitionInfo/WinPartitionInfo.cpp:102-165 | One step of the walk, case by case: failed read, cap reached, no extended entry, or recursion at the wrapped next sector with its status returned |
| WinPartitionInfo.ScanStep | WinPartitionInfo/WinPartitionInfo.cpp:116-135 | Unlisted entries are skipped; a listed one is appended, ending the loop when the size becomes exactly 32 |
| WinPartitionInfo.ScanListed | WinPartitionInfo/WinPartitionInfo.cpp:116-135 | Scanned elements carry the disk, are listed and come from the table; below the cap the scan stops at 32 |
| WinPartitionInfo.ReadDiskPartitions | WinPartitionInfo/WinPartitionInfo.cpp:170-202 | Invalid handle: ERROR_OPEN_FAILED and the list unchanged; else the walk from the given sector |
| WinPartitionInfo.PopulateListview | WinPartitionInfo/WinPartitionInfo.cpp:266-282 | Disk 0 then disk 1 are read, statuses ignored; the rows are the combined listing, at most 36, each listed and from disk 0 or 1 |
| WinPartitionInfo.WalkListed | WinPartitionInfo/WinPartitionInfo.cpp:116-129 | No blank (0x00) or extended entry is ever appended, and each carries the walked disk |
| WinPartitionInfo.WalkWithinCap | WinPartitionInfo/WinPartitionInfo.cpp:131-138 | A list below 32 holds at most 32 after the walk |
| WinPartitionInfo.WalkPastCap | WinPartitionInfo/WinPartitionInfo.cpp:131-138 | On a list at or past 32 the walk does not recurse and appends at most 4 (none with the corrected test) |
| WinPartitionInfo.WalkReadErrors | WinPartitionInfo/WinPartitionInfo.cpp:102-162 | Stated for `read_sector_from_handle` as written: a failed read returns its status and appends nothing, a short read returns E_UNEXPECTED, a full read is decoded as the table; only a sector larger than the buffer gives TYPE_E_BUFFERTOOSMALL |
| WinPartitionInfo.ListingBounds | WinPartitionInfo/WinPartitionInfo.cpp:131-138 | The list of both disks holds at most 36 as written and at most 32 with the corrected cap test |
| WinPartitionInfo.SelfLinkNeverEnds | WinPartitionInfo/WinPartitionInfo.cpp:142-151 | An extended entry at start sector 0 alone in its table recurses without end: the walk exhausts any fuel, appending nothing |
| WinPartitionInfo.LoopingDisksExceedCap | WinPartitionInfo/WinPartitionInfo.cpp:131 | With the `==` test two looping disks give 35 rows, past the 32 the display asserts; the corrected test gives 32 |
| WinPartitionInfo.LoopingTableExists | WinPartitionInfo/WinPartitionInfo.cpp:116-151 | Three NTFS entries and a self-linked extended entry form such a table |
| WinPartitionInfo.FileSystemLabel | WinPartitionInfo/WinPartitionInfo.cpp:66-88 | The label opens with "(XX)" and, with its terminator, fits the 32-character cell |
| WinPartitionInfo.FileSystemLabelParts | WinPartitionInfo/WinPartitionInfo.cpp:66-88 | The label is "(XX)" with the type in two upper-case hex digits that read back as the type, followed by " name" exactly when the type is known, and it fits the 32-character cell |
| WinPartitionInfo.RowOf | WinPartitionInfo/WinPartitionInfo.cpp:204-245 | The row's file-system text fits its cell, and its size in bytes fits 64 bits and divides back to the sector count |
| WinPartitionInfo.RowValues | WinPartitionInfo/WinPartitionInfo.cpp:227-245 | Bootable is "yes" iff the byte is 0x80; size = sectors × 512 computed in 64 bits never wraps |
| WindowMessages.MapMessageToIndex | WindowMessages.cpp:249-260 | Found iff the message is in the table, at its first occurrence; nothing written on a miss |
| WindowMessages.StringFromWindowMessageCases | WindowMessages.cpp:287-311 | ≥ 0x8000: the WM_APP text; [0x0400, 0x8000): the WM_USER text; below: the table text of the message, or "Unknown message" |
| WindowMessages.AllEntriesAccessible | WindowMessages.cpp:268-275 | On a sorted table every entry is found by its own message |
| WindowMessages.EveryRowReachable | WindowMessages.cpp:278-285 | With the last message below WM_USER every row is below it and its text is reachable through the lookup |
| WindowMessages.DebugValidateMessageMap | WindowMessages.cpp:278-285 | The three checks pass iff the table is sorted, every entry is accessible and the last message is below WM_USER |
| ScopedResource.ScopedResource.Empty | WindowsCommon/ScopedWindowsTypes.h:17-20 | Default construction holds 0 and an empty deleter |
| ScopedResource.ScopedResource.constructor | WindowsCommon/ScopedWindowsTypes.h:22-26 | Holds the given resource and deleter |
| ScopedResource.ScopedResource.Move | WindowsCommon/ScopedWindowsTypes.h:33-38 | Takes the other's deleter and handle; the other holds 0; no deleter call |
| ScopedResource.ScopedResource.Invoke | WindowsCommon/ScopedWindowsTypes.h:54-61 | A nonzero handle goes to the deleter exactly once and becomes 0; holding 0, nothing happens |
| ScopedResource.ScopedResource.Release | WindowsCommon/ScopedWindowsTypes.h:63-69 | Returns the handle and holds 0 without a deleter call |
| ScopedResource.ScopedResource.Get | WindowsCommon/ScopedWindowsTypes.h:71-74 | Yields the handle held now; a nonzero handle of a valid wrapper has a deleter to close it |
| ScopedResource.ScopedResource.Destroy | WindowsCommon/ScopedWindowsTypes.h:28-31 | The destructor is `invoke` |
| ScopedResource.ScopedResource.MoveAssign | WindowsCommon/ScopedWindowsTypes.h:40-52 | Self-assignment changes nothing; otherwise the own handle is deleted first, then the other's is taken and the other holds 0 |
| ScopedResource.OwnershipScenario | WindowsCommon/ScopedWindowsTypes.h:28-69 | Moves by construction and assignment delete each handle exactly once in total, the overwritten one first |
| ScopedResource.ReleaseScenario | WindowsCommon/ScopedWindowsTypes.h:63-69 | A released handle is returned and never deleted |
| WindowsGL.FirstDelimiterFinds | WindowsCommon/WindowsGL.cpp:19 | `find_first_of` finds the first delimiter from `begin`, or the end |
| WindowsGL.TokenizeString | WindowsCommon/WindowsGL.cpp:10-32 | The loop produces exactly the tokens of the string |
| WindowsGL.NoTokenHasDelimiter | WindowsCommon/WindowsGL.cpp:19-22 | No token contains a delimiter character |
| WindowsGL.TokenCount | WindowsCommon/WindowsGL.cpp:19-29 | Tokens = delimiters + 1, or + 0 when the text is empty or ends with a delimiter |
| WindowsGL.TokensReassemble | WindowsCommon/WindowsGL.cpp:21-28 | The tokens interleaved with the delimiters consumed reproduce the text |
| WindowsGL.TokensOfText | WindowsCommon/WindowsGL.cpp:10-32 | For the whole string: the count, the reassembly and no delimiter in any token |
| WindowsGL.LeadingDelimiterExample | WindowsCommon/WindowsGL.cpp:19-23 | " a" gives "", "a" |
| WindowsGL.AdjacentDelimitersExample | WindowsCommon/WindowsGL.cpp:19-23 | "a  b" gives "a", "", "b" |
| WindowsGL.TrailingDelimiterExample | WindowsCommon/WindowsGL.cpp:25-29 | "a " gives "a"; "" gives no token |
| WindowsGL.LexLeTotal | WindowsCommon/WindowsGL.cpp:45 | `std::string` order is total, so the sort is well defined |
| WindowsGL.Insert | WindowsCommon/WindowsGL.cpp:45 | Inserting into a sorted list keeps it sorted and adds exactly the name |
| WindowsGL.SortNames | WindowsCommon/WindowsGL.cpp:45 | The result is sorted and a permutation of the input |
| WindowsGL.GetOpenGLExtensions | WindowsCommon/WindowsGL.cpp:34-49 | A null string gives no list; otherwise the space-separated tokens, sorted, with multiplicity, none holding a space |
| StringUtils.NumberFormat.constructor | DiskTools/StringUtils.cpp:37-40 | The record starts zeroed, grouping 0 |
| StringUtils.NumberFormat.InitByLcid | DiskTools/StringUtils.cpp:43-69 | Numbers and both separators from the locale; the grouping text up to NUL folded into the grouping already held |
| StringUtils.GroupingIsNonzeroDigitValue | DiskTools/StringUtils.cpp:53-62 | From 0 the fold is the number spelled by the text's digits 1–9, everything else skipped, modulo 2^32 |
| StringUtils.GroupingExamples | DiskTools/StringUtils.cpp:53-62 | "3;0" → 3, "3;2;0" → 32, "" → 0 |
| StringUtils.NumberFormat.StripDecimal | DiskTools/StringUtils.cpp:72-75 | NumDigits becomes 0 and nothing else changes |
| StringUtils.NumberFormat.GetNumberFormat | DiskTools/StringUtils.cpp:78-81 | Hands back a copy of the stored record, every member as held |
| StringUtils.StringCchCopy | DiskTools/StringUtils.cpp:101 | Writes nothing for size 0; otherwise a prefix that fits with its terminator, the whole source iff it fits |
| StringUtils.NoDecimalFormat | DiskTools/StringUtils.cpp:91-96 | The record handed to the formatter has no fractional digits |
| StringUtils.OutputFormattedNumber | DiskTools/StringUtils.cpp:84-106 | Format with the user locale without decimals; on failure copy the digits |
| StringUtils.FallbackCopiesDigits | DiskTools/StringUtils.cpp:98-105 | When formatting fails the output is the digit string verbatim if it fits, a prefix of it otherwise |
| StringUtils.DigitBuffersFit | DiskTools/StringUtils.cpp:114-127 | Every uint32 fits 11 characters with NUL and every uint64 21; the maxima fill them exactly |
| StringUtils.PrettyPrint32 | DiskTools/StringUtils.cpp:109-118 | Output is the formatted decimal text of the value |
| StringUtils.PrettyPrint64 | DiskTools/StringUtils.cpp:121-130 | Output is the formatted decimal text of the value |
| WindowUtils.GetRepositionedRectByOffset | DiskTools/WindowUtils.cpp:141-153 | Origin shifted by the position offset; right/bottom hold the new width and height |
| WindowUtils.RepositionedControl | DiskTools/WindowUtils.cpp:155-171 | MoveWindow places the control at the shifted origin, grown by exactly the size offset |
| WindowUtils.RepositionByNothing | DiskTools/WindowUtils.cpp:155-171 | Zero offsets put the control back where it was |
| WindowUtils.GetClientspaceControlRect | DiskTools/WindowUtils.cpp:122-139 | Origin mapped by ScreenToClient, width and height preserved |
| WindowUtils.GetClientspaceGripRect | DiskTools/WindowUtils.cpp:110-120 | The grip shares the client's bottom-right corner and is SM_CXHSCROLL × SM_CYVSCROLL |
| WindowUtils.GetImagelistWidthByIndex | DiskTools/WindowUtils.cpp:22-38 | 0 with no image list or a failed query; otherwise the icon's width |
| WindowUtils.ReportModeBits | DiskTools/WindowUtils.cpp:40-44 | Report mode iff the two low style bits read 01, whatever the others |
| WindowUtils.WidestTextIsMaximum | DiskTools/WindowUtils.cpp:74-92 | The widest text is at least the header and every row (icon in column 0) and equals one of them |
| WindowUtils.ColumnWidthFitsEveryEntry | DiskTools/WindowUtils.cpp:70-98 | Each column is 12 wider than its widest entry |
| WindowUtils.AdjustListviewColumnWidths | DiskTools/WindowUtils.cpp:46-108 | Columns get max(header, rows) + 12 in order; true iff every width is set; the first refused width ends with false |
| ThreadAffinity.ThreadMaskIsLowestSetBit | ThreadAffinity.cpp:18 | For a nonzero mask `m & ~(m-1)` is a single bit, set in m, with no bit of m below it; 0 for 0 |
| ThreadAffinity.LowestSetBitIsUnique | ThreadAffinity.cpp:18 | That description determines the bit |
| ThreadAffinity.ThreadMaskExamples | ThreadAffinity.cpp:18 | 0xFF → 1, 0x24 → 4, bit 63 → bit 63 |
| ThreadAffinity.LockThreadToFirstProcessor | ThreadAffinity.cpp:8-23 | The masks are read first (failure raises); with either mask zero nothing is set; otherwise the lowest bit is set and its failure raises |
| SortedTable.LowerBound | DiskTools/DirectRead.cpp:58-64 | `std::lower_bound`: everything before the index is less than the key, everything from it on is not |
| SortedTable.LowerBoundFinds | WindowMessages.cpp:251-253 | The lower bound lands on the key iff the key occurs |
| Numerals.DecimalRoundTrip | DiskTools/StringUtils.cpp:115 | The `_ultot_s` text reads back as the value |
| Numerals.Hex2RoundTrip | WinPartitionInfo/WinPartitionInfo.cpp:77 | `%02X` gives two upper-case hex digits that read back as the byte |
| Packed.LittleEndianRoundTrip | DiskTools/DirectRead.h:18-19 | Storing a 32-bit field little-endian and reading it back gives the value |

## Findings

| source | as written | input that shows it | evidently intended | confidence | as-written member | corrected member |
|---|---|---|---|---|---|---|
| WinPartitionInfo/WinPartitionInfo.cpp:131 | The cap is tested with `max_partitions == partitions->size()`, so a list already at 32 when a disk is read keeps growing | Disks 0 and 1 each hold three NTFS entries and an extended entry linking to its own table: disk 0 fills the list to exactly 32, and disk 1 appends 3 more, giving 35 rows; `output_partition_table_info` asserts at most 32 (line 209) | Stop appending once the list holds 32 or more (`>=`) | not executed | WinPartitionInfo.LoopingDisksExceedCap | WinPartitionInfo.ListingBounds |
| DiskTools/DirectRead.cpp:140 | `can_buffer_hold_sector` returns `S_OK` instead of the `hr` it computed, so TYPE_E_BUFFERTOOSMALL is never reported | A disk with 4096-byte sectors read into the walker's 512-byte buffer: the read reports success with 4096 bytes | Report TYPE_E_BUFFERTOOSMALL for a sector larger than the buffer, so the read fails before it overruns the buffer; the fallback for a failed geometry query stays as written | not executed | DirectRead.ReadSectorOverrunsBuffer | DirectRead.CheckedReadSectorFromHandle |

How the corrections are used:
- The walker reads through the checked read. `DirectRead.CheckedReadAgrees` proves that
  the checked read equals the read as written except when the sector overruns the 512-byte
  buffer. That includes a failed geometry query (`WinPartitionInfo.GeometryFailureStillReads`).
- The walker takes the cap test as a parameter. `WinPartitionInfo.PopulateListview`
  follows the code (`==`), and `WinPartitionInfo.ListingBounds` proves the 32-row bound
  for the corrected test.

## Left out

- Device and file I/O (`CreateFile`, `DeviceIoControl`, `SetFilePointer`, `ReadFile`, the
  ifstream/ofstream calls). These are parameters:
  - a `Device` value (open flag, geometry, seek error, read failure, medium bytes by offset);
  - a map from file name to file bytes;
  - the written image is returned as a value, not written to disk.
- ReadTable: the walker reads tables through `CheckedReadSectorFromHandle`, because the
  as-written read could write past its 512-byte buffer. Such a disk gives
  TYPE_E_BUFFERTOOSMALL and no table, where the code reads past the buffer. Every other disk,
  including one whose geometry query fails, reads as written (`DirectRead.CheckedReadAgrees`).
- WinPartitionInfo.Walk: the walk takes a `fuel` bound on the depth of the extended-partition
  chain. The source has no bound and recurses forever on a self-linked table; the model
  ends such a walk with the model-only status `DepthExhausted`.
- DirectRead.ReadSectorFromHandle: when `ReadFile` fails, the size it leaves in
  `bytes_read` is not defined by the source. The model sets it to 0.
- WindowMessages: the SDK's numeric message values are not in the source, so the message
  table is a parameter, and its sortedness and last-below-WM_USER invariants are
  hypotheses checked by `DebugValidateMessageMap`.
- `dispatch_all_windows_messages`: a message pump over the OS queue, left out.
- BuildImage.Upper: `towupper` is modelled for ASCII a–z only. Other locales' case
  mappings are not modelled.
- BuildImage.GetEmptyFileAllocationTable: `sector_count * bytes_per_sector` is an unsigned
  32-bit product. The model requires it to fit in 32 bits rather than wrapping; the callers
  pass 9 and 14.
- ScopedResource.ScopedResource.Move: a moved-from `std::function` deleter is left in a
  valid but unspecified state. The model makes it empty (`NoDeleter`); the source never
  calls it, because the moved-from resource is 0.
- BuildImage.OutputBootSector: the volume label is accepted and ignored, as in the source
  (`(void)label`). No label is written into the BPB or the root directory, and the packed
  BPB is declared but never written into the image.
- WinPartitionInfo.RowOf: `begin_head` is printed twice into the same cell
  (WinPartitionInfo.cpp:234-235). The model keeps one value, since the second print
  overwrites the first with the same text.
- The dialog procedure, listview insertion, header creation, `LoadString` texts ("yes"/"no")
  and painting of WinPartitionInfo, and the whole GUI are not modelled. Rows are modelled as
  values (`RowOf`). The 32-character cell truncation is stated only for the file-system
  label (`FileSystemLabelParts`).
- StringUtils.NumberFormat.InitByLcid: a failing `GetLocaleInfo` is not modelled, and
  neither is the truncation of the grouping text to the 16-character buffer. The locale is
  a `LocaleInfo` value whose grouping text is the buffer as given. `GetNumberFormat` is a
  formatter parameter.
- StringUtils.NumberFormat.InitByLcid: the thousands separator comes from
  LOCALE_SMONTHOUSANDSEP (the monetary one), as written, not LOCALE_STHOUSAND.
- StringUtils.StringCchCopy: the debug `assert` on a failed copy is not modelled. The
  failure shows only as `None` for a zero-size buffer.
- WindowUtils.GetRepositionedRectByOffset: rectangle and width arithmetic uses unbounded
  integers. The `LONG`/`int` overflow of extreme coordinates is not modelled.
- WindowUtils.AdjustListviewColumnWidths: the 32-character text buffer that truncates long
  cell texts is not modelled. The listview is given by the string widths of its header and
  cells.
- ThreadAffinity.LockThreadToFirstProcessor: `DWORD_PTR` is modelled as 64 bits (a 64-bit
  build). A 32-bit build has the same lowest-bit property at 32 bits.
- The OpenGL context creation, `dprintf_gl_strings` and the rest of WindowsGL.cpp, beyond
  the tokenizer and the sort, are left out. So are the GUI plumbing files, the deleter
  bodies, the floating-point clock and FPU code, and the console tools.
