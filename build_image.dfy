/**
 * BuildImage (BuildImage/BuildImage.cpp): writes an empty FAT12 1.44 MB floppy image,
 * boot sector, two copies of the file allocation table, the root directory and a 0xF6
 * fill, after reading its options from the command line and checking the volume label.
 */
module BuildImage {
  import opened Wrappers
  import opened Packed

  // ---------------------------------------------------------------------------
  // The packed on-disk records.

  const FatMaxFileNameLength: nat := 8
  const FatMaxExtensionLength: nat := 3

  /** `Bios_parameter_block`, from the OEM name to the file-system type string. */
  const BiosParameterBlockLayout: seq<Field> := [
    Field("OEM_name", 8),
    Field("bytes_per_sector", 2),
    Field("sectors_per_cluster", 1),
    Field("reserved_sectors", 2),
    Field("file_allocation_table_count", 1),
    Field("root_entry_count", 2),
    Field("sector_count", 2),
    Field("media_descriptor", 1),
    Field("sectors_per_file_allocation_table", 2),
    Field("sectors_per_track", 2),
    Field("head_count", 2),
    Field("hidden_sector_count", 4),
    Field("huge_sector_count", 4),
    Field("drive_number", 1),
    Field("reserved", 1),
    Field("boot_signature", 1),
    Field("volume_id", 4),
    Field("volume_label", FatMaxFileNameLength + FatMaxExtensionLength),
    Field("file_system_type", 8)
  ]

  const BiosParameterBlockOffsets: seq<nat> :=
    [0, 8, 10, 11, 13, 14, 16, 18, 19, 21, 23, 25, 29, 33, 34, 35, 36, 40, 51, 59]

  /** `Root_directory_entry`: one 32-byte directory record. */
  const RootDirectoryEntryLayout: seq<Field> := [
    Field("file_name", FatMaxFileNameLength),
    Field("extension", FatMaxExtensionLength),
    Field("attributes", 1),
    Field("reserved", 2),
    Field("creation_time", 2),
    Field("creation_date", 2),
    Field("last_access_date", 2),
    Field("ignored", 2),
    Field("last_write_time", 2),
    Field("last_write_date", 2),
    Field("first_logical_cluster", 2),
    Field("file_size", 4)
  ]

  const RootDirectoryEntryOffsets: seq<nat> := [0, 8, 11, 12, 14, 16, 18, 20, 22, 24, 26, 28, 32]

  const VolumeLabelField: nat := 17

  /**
   * The parameter block is 59 bytes and a directory entry 32; the BPB's volume label is as
   * wide as a directory entry's name and extension together (11 bytes).
   */
  lemma RecordLayouts()
    ensures SizeOf(BiosParameterBlockLayout) == 59
    ensures SizeOf(RootDirectoryEntryLayout) == 32
    ensures forall k :: 0 <= k <= |BiosParameterBlockLayout| ==>
      OffsetOf(BiosParameterBlockLayout, k) == BiosParameterBlockOffsets[k]
    ensures forall k :: 0 <= k <= |RootDirectoryEntryLayout| ==>
      OffsetOf(RootDirectoryEntryLayout, k) == RootDirectoryEntryOffsets[k]
    ensures BiosParameterBlockLayout[VolumeLabelField].name == "volume_label"
    ensures BiosParameterBlockLayout[VolumeLabelField].width
            == RootDirectoryEntryLayout[0].width + RootDirectoryEntryLayout[1].width == 11
  {
    BiosParameterBlockPrefixSums();
    RootDirectoryEntryPrefixSums();
    OffsetsFromPrefixSums(BiosParameterBlockLayout, BiosParameterBlockOffsets);
    OffsetsFromPrefixSums(RootDirectoryEntryLayout, RootDirectoryEntryOffsets);
  }

  lemma BiosParameterBlockPrefixSums()
    ensures PrefixSums(BiosParameterBlockLayout, BiosParameterBlockOffsets)
  {
  }

  lemma RootDirectoryEntryPrefixSums()
    ensures PrefixSums(RootDirectoryEntryLayout, RootDirectoryEntryOffsets)
  {
  }

  /** The parameter block starts at the OEM name, boot-sector offset 3, after the jump. */
  const BiosParameterBlockStart: nat := 3

  /**
   * Where section "Boot Sector and BPB" of the Microsoft FAT32 File System Specification
   * places the same fields in the boot sector, and where the last one ends.
   */
  const FatBootSectorOffsets: seq<nat> := [
    3,   // BS_OEMName
    11,  // BPB_BytsPerSec
    13,  // BPB_SecPerClus
    14,  // BPB_RsvdSecCnt
    16,  // BPB_NumFATs
    17,  // BPB_RootEntCnt
    19,  // BPB_TotSec16
    21,  // BPB_Media
    22,  // BPB_FATSz16
    24,  // BPB_SecPerTrk
    26,  // BPB_NumHeads
    28,  // BPB_HiddSec
    32,  // BPB_TotSec32
    36,  // BS_DrvNum
    37,  // BS_Reserved1
    38,  // BS_BootSig
    39,  // BS_VolID
    43,  // BS_VolLab
    54,  // BS_FilSysType
    62
  ]

  /**
   * Where section "FAT Directory Structure" places a directory entry's fields: DIR_Name
   * (name and extension), DIR_Attr, DIR_NTRes with DIR_CrtTimeTenth, DIR_CrtTime,
   * DIR_CrtDate, DIR_LstAccDate, DIR_FstClusHI, DIR_WrtTime, DIR_WrtDate, DIR_FstClusLO,
   * DIR_FileSize.
   */
  const FatDirectoryOffsets: seq<nat> := [0, 8, 11, 12, 14, 16, 18, 20, 22, 24, 26, 28, 32]

  /**
   * Placed at offset 3, every field of the parameter block lands where the FAT
   * specification puts it, and so does every field of a directory entry.
   */
  lemma FatSpecificationOffsets()
    ensures forall k :: 0 <= k <= |BiosParameterBlockLayout| ==>
      BiosParameterBlockStart + OffsetOf(BiosParameterBlockLayout, k) == FatBootSectorOffsets[k]
    ensures forall k :: 0 <= k <= |RootDirectoryEntryLayout| ==>
      OffsetOf(RootDirectoryEntryLayout, k) == FatDirectoryOffsets[k]
  {
    RecordLayouts();
  }

  // ---------------------------------------------------------------------------
  // The three buffers.

  const BytesPerSector: nat := 512
  const FileAllocationTableSectors: nat := 9
  const RootDirectorySectors: nat := 14

  function Zeros(n: nat): (s: seq<byte>)
    ensures |s| == n && forall i :: 0 <= i < n ==> s[i] == 0
  {
    seq(n, _ => 0)
  }

  /** A boot sector that carries only the 0x55 0xAA signature in its last two bytes. */
  function DefaultBootSector(): (s: seq<byte>)
    ensures |s| == BytesPerSector
  {
    Zeros(BytesPerSector - 2) + [0x55, 0xAA]
  }

  /** Byte `i` of an empty FAT12 table: media descriptor 0xF0, then 0xFF 0xFF, then zeros. */
  function EmptyFatByte(i: nat): byte
  {
    if i == 0 then 0xF0 else if i < 3 then 0xFF else 0
  }

  /** `get_empty_file_allocation_table`: `sectorCount` sectors of an empty table. */
  function EmptyFileAllocationTable(sectorCount: nat): (s: seq<byte>)
    requires sectorCount >= 1
    ensures |s| == sectorCount * BytesPerSector
  {
    seq(sectorCount * BytesPerSector, i requires 0 <= i => EmptyFatByte(i))
  }

  /**
   * `get_default_boot_sector`: a zeroed 512-byte buffer in which only the last two bytes
   * are written.
   */
  method GetDefaultBootSector() returns (bootSector: array<byte>)
    ensures fresh(bootSector)
    ensures bootSector.Length == BytesPerSector
    ensures forall i :: 0 <= i < BytesPerSector - 2 ==> bootSector[i] == 0
    ensures bootSector[BytesPerSector - 2] == 0x55 && bootSector[BytesPerSector - 1] == 0xAA
    ensures bootSector[..] == DefaultBootSector()
  {
    bootSector := new byte[BytesPerSector](_ => 0);
    bootSector[BytesPerSector - 2] := 0x55;
    bootSector[BytesPerSector - 1] := 0xAA;
  }

  /**
   * `get_empty_file_allocation_table`: a zeroed buffer of `sectorCount` sectors whose first
   * three bytes are written unconditionally, so at least one sector is needed.
   */
  method GetEmptyFileAllocationTable(sectorCount: nat) returns (table: array<byte>)
    requires 1 <= sectorCount && sectorCount * BytesPerSector < TwoTo32
    ensures fresh(table)
    ensures table.Length == sectorCount * BytesPerSector
    ensures table[0] == 0xF0 && table[1] == 0xFF && table[2] == 0xFF
    ensures forall i :: 3 <= i < table.Length ==> table[i] == 0
    ensures table[..] == EmptyFileAllocationTable(sectorCount)
  {
    table := new byte[sectorCount * BytesPerSector](_ => 0);
    table[0] := 0xF0;
    table[1] := 0xFF;
    table[2] := 0xFF;
  }

  /** `get_empty_root_directory`: `sectorCount` zeroed sectors. */
  method GetEmptyRootDirectory(sectorCount: nat) returns (directory: array<byte>)
    requires sectorCount * BytesPerSector < TwoTo32
    ensures fresh(directory)
    ensures directory[..] == Zeros(sectorCount * BytesPerSector)
  {
    directory := new byte[sectorCount * BytesPerSector](_ => 0);
  }

  /**
   * Entry `n` of a FAT12 table: 12 bits at byte `3n/2`, the low bits of the pair for an
   * even entry and the high bits for an odd one.
   */
  function Fat12Entry(table: seq<byte>, n: nat): nat
    requires 3 * n / 2 + 1 < |table|
  {
    var lo: nat := table[3 * n / 2];
    var hi: nat := table[3 * n / 2 + 1];
    if n % 2 == 0 then lo + (hi % 16) * 256 else lo / 16 + hi * 16
  }

  /**
   * In the empty table, entry 0 is the media descriptor 0xF0 with the high bits set,
   * entry 1 is the end-of-chain mark 0xFFF, and every other entry reads free (0), as
   * section "FAT Data Structure" of the Microsoft FAT32 File System Specification lays
   * out. The table has room for the 2847 data clusters of a 2880-sector floppy.
   */
  lemma EmptyFatEntries()
    ensures var table := EmptyFileAllocationTable(FileAllocationTableSectors);
      && Fat12Entry(table, 0) == 0xFF0
      && Fat12Entry(table, 1) == 0xFFF
      && (forall n :: 2 <= n < |table| * 2 / 3 ==> Fat12Entry(table, n) == 0)
      && 2 + (2880 - 1 - 2 * FileAllocationTableSectors - RootDirectorySectors) <= |table| * 2 / 3
  {
  }

  /** The root directory holds 224 entries of 32 bytes: BPB_RootEntCnt of a 1.44 MB floppy. */
  lemma RootDirectoryEntries()
    ensures RootDirectorySectors * BytesPerSector == 224 * SizeOf(RootDirectoryEntryLayout)
  {
    RecordLayouts();
  }

  // ---------------------------------------------------------------------------
  // The image.

  const Sides: nat := 2
  const TracksPerSide: nat := 80
  const SectorsPerTrack: nat := 18
  const ImageSize: nat := BytesPerSector * Sides * TracksPerSide * SectorsPerTrack
  const FillByte: byte := 0xF6

  const FirstFatStart: nat := BytesPerSector
  const SecondFatStart: nat := FirstFatStart + FileAllocationTableSectors * BytesPerSector
  const RootDirectoryStart: nat := SecondFatStart + FileAllocationTableSectors * BytesPerSector
  const FillStart: nat := RootDirectoryStart + RootDirectorySectors * BytesPerSector

  /** Byte `i` of the image, by region: boot sector, FAT, FAT copy, root directory, fill. */
  function ImageByte(bootSector: seq<byte>, i: nat): byte
    requires |bootSector| == BytesPerSector
  {
    if i < FirstFatStart then bootSector[i]
    else if i < SecondFatStart then EmptyFatByte(i - FirstFatStart)
    else if i < RootDirectoryStart then EmptyFatByte(i - SecondFatStart)
    else if i < FillStart then 0
    else FillByte
  }

  /** The bytes written to the image file for a given boot sector. */
  function DiskImage(bootSector: seq<byte>): (image: seq<byte>)
    requires |bootSector| == BytesPerSector
    ensures |image| == ImageSize
  {
    seq(ImageSize, i requires 0 <= i => ImageByte(bootSector, i))
  }

  /**
   * The image is 1,474,560 bytes (2880 sectors): the boot sector at [0, 512), the table
   * at [512, 5120), an identical copy at [5120, 9728), a zeroed root directory at
   * [9728, 16896), and 0xF6 from there to the end.
   */
  lemma DiskImageLayout(bootSector: seq<byte>)
    requires |bootSector| == BytesPerSector
    ensures var image := DiskImage(bootSector);
      && |image| == 1474560 == 2880 * BytesPerSector
      && image[..512] == bootSector
      && image[512..5120] == EmptyFileAllocationTable(FileAllocationTableSectors)
      && image[5120..9728] == EmptyFileAllocationTable(FileAllocationTableSectors)
      && image[9728..16896] == Zeros(RootDirectorySectors * BytesPerSector)
      && forall i :: 16896 <= i < |image| ==> image[i] == FillByte
  {
  }

  /**
   * `std::copy` into `dest` at `at`: the bytes of `src` replace `dest[at..]`, nothing else
   * changes, and the position after the last byte written comes back.
   */
  method CopyInto(dest: array<byte>, at: nat, src: seq<byte>) returns (next: nat)
    requires at + |src| <= dest.Length
    modifies dest
    ensures next == at + |src|
    ensures forall j :: 0 <= j < dest.Length ==> dest[j] == if at <= j < next then src[j - at] else old(dest[j])
  {
    var k := 0;
    while k < |src|
      invariant k <= |src|
      invariant forall j :: 0 <= j < dest.Length ==> dest[j] == if at <= j < at + k then src[j - at] else old(dest[j])
    {
      dest[at + k] := src[k];
      k := k + 1;
    }
    next := at + |src|;
  }

  /** `std::fill` from `from` to the end of `dest`. */
  method FillFrom(dest: array<byte>, from: nat, value: byte)
    requires from <= dest.Length
    modifies dest
    ensures forall j :: 0 <= j < dest.Length ==> dest[j] == if from <= j then value else old(dest[j])
  {
    var k := from;
    while k < dest.Length
      invariant from <= k <= dest.Length
      invariant forall j :: 0 <= j < dest.Length ==> dest[j] == if from <= j < k then value else old(dest[j])
    {
      dest[k] := value;
      k := k + 1;
    }
  }

  /**
   * The image assembly of `output_boot_sector`: a zeroed 1,474,560-byte buffer that an
   * iterator walks through, copying the boot sector, the table twice and the root
   * directory, then filling the rest with 0xF6.
   */
  method AssembleDiskImage(bootSector: seq<byte>, fileAllocationTable: seq<byte>, rootDirectory: seq<byte>)
    returns (image: seq<byte>)
    requires |bootSector| == BytesPerSector
    requires fileAllocationTable == EmptyFileAllocationTable(FileAllocationTableSectors)
    requires rootDirectory == Zeros(RootDirectorySectors * BytesPerSector)
    ensures |image| == ImageSize
    ensures forall i :: 0 <= i < ImageSize ==> image[i] == ImageByte(bootSector, i)
    ensures image == DiskImage(bootSector)
  {
    var diskImage := new byte[BytesPerSector * Sides * TracksPerSide * SectorsPerTrack](_ => 0);
    var position := 0;
    position := CopyInto(diskImage, position, bootSector);
    position := CopyInto(diskImage, position, fileAllocationTable);
    position := CopyInto(diskImage, position, fileAllocationTable);
    position := CopyInto(diskImage, position, rootDirectory);
    assert position == FillStart;
    FillFrom(diskImage, position, FillByte);
    image := diskImage[..];
  }

  /**
   * The boot sector after the optional boot-sector file is read into it: the read yields
   * at most 512 bytes (fewer for a short file, none for a missing one) and those overwrite
   * the leading bytes of the default sector.
   */
  function BootSectorAfterRead(bootSectorFileName: string, files: string -> seq<byte>): (s: seq<byte>)
    ensures |s| == BytesPerSector
  {
    if bootSectorFileName == [] then DefaultBootSector()
    else
      var file := files(bootSectorFileName);
      var got := if |file| < BytesPerSector then file else file[..BytesPerSector];
      got + DefaultBootSector()[|got|..]
  }

  /**
   * Only the bytes the file yields change: a file of 512 bytes or more replaces the whole
   * sector, a shorter one leaves the rest of the default sector, signature included.
   */
  lemma BootSectorOverwrite(bootSectorFileName: string, files: string -> seq<byte>)
    ensures var s := BootSectorAfterRead(bootSectorFileName, files);
      var file := files(bootSectorFileName);
      && (bootSectorFileName == [] ==> s == DefaultBootSector())
      && (bootSectorFileName != [] ==>
            forall i :: 0 <= i < BytesPerSector ==>
              s[i] == if i < |file| then file[i] else DefaultBootSector()[i])
  {
  }

  /** An image file to be written: its name and its contents. */
  datatype ImageFile = ImageFile(name: string, contents: seq<byte>)

  /**
   * `output_boot_sector` without the file I/O: build the three buffers, read the boot
   * sector file over the default sector when one is named, and assemble the image. The
   * label is accepted and not used.
   */
  method OutputBootSector(bootSectorFileName: string, imageFileName: string, volumeLabel: string,
                          files: string -> seq<byte>)
    returns (written: ImageFile)
    ensures written == ImageFile(imageFileName, DiskImage(BootSectorAfterRead(bootSectorFileName, files)))
  {
    var bootSector := GetDefaultBootSector();
    var fileAllocationTable := GetEmptyFileAllocationTable(FileAllocationTableSectors);
    var rootDirectory := GetEmptyRootDirectory(RootDirectorySectors);
    if bootSectorFileName != [] {
      ReadBootSectorFile(bootSector, files(bootSectorFileName));
    }
    assert bootSector[..] == BootSectorAfterRead(bootSectorFileName, files);
    var image := AssembleDiskImage(bootSector[..], fileAllocationTable[..], rootDirectory[..]);
    written := ImageFile(imageFileName, image);
  }

  /** `boot_sector_file.read`: up to `bootSector.Length` leading bytes of the file. */
  method ReadBootSectorFile(bootSector: array<byte>, file: seq<byte>)
    modifies bootSector
    ensures var n := if |file| < bootSector.Length then |file| else bootSector.Length;
      bootSector[..] == file[..n] + old(bootSector[n..])
  {
    var n := if |file| < bootSector.Length then |file| else bootSector.Length;
    var next := CopyInto(bootSector, 0, file[..n]);
    assert bootSector[..] == file[..n] + old(bootSector[n..]);
  }

  // ---------------------------------------------------------------------------
  // Label checks.

  /**
   * The `legal_chars` array: the seventeen punctuation characters of a FAT short name
   * spelled out in a string literal, followed by its terminating NUL.
   */
  const LegalChars: seq<char> :=
    ['.', '!', '#', '$', '%', '&', '\'', '(', ')', '-', '@', '^', '_', '`', '{', '}', '~', '\0']

  /** The seventeen punctuation characters a FAT short name allows. */
  predicate Punctuation(ch: char)
  {
    || ch == '.' || ch == '!' || ch == '#' || ch == '$' || ch == '%' || ch == '&' || ch == '\''
    || ch == '(' || ch == ')' || ch == '-' || ch == '@' || ch == '^' || ch == '_' || ch == '`'
    || ch == '{' || ch == '}' || ch == '~'
  }

  /**
   * The characters the label accepts: A-Z, 0-9, code points 128-255, the seventeen
   * punctuation characters of a FAT short name, and NUL, which the search meets as the
   * terminator of the punctuation string.
   */
  predicate LegalFatCharacter(ch: char)
  {
    || ('A' <= ch <= 'Z')
    || ('0' <= ch <= '9')
    || (128 <= ch as int <= 255)
    || Punctuation(ch)
    || ch == '\0'
  }

  /** `is_legal_fat_character`: three range tests, then a search of `legal_chars` to its end. */
  method IsLegalFatCharacter(ch: char) returns (legal: bool)
    ensures legal <==> LegalFatCharacter(ch)
  {
    if 'A' <= ch <= 'Z' {
      return true;
    }
    if '0' <= ch <= '9' {
      return true;
    }
    if 128 <= ch as int <= 255 {
      return true;
    }
    var iter := 0;
    while iter < |LegalChars|
      invariant iter <= |LegalChars|
      invariant forall j :: 0 <= j < iter ==> LegalChars[j] != ch
    {
      if ch == LegalChars[iter] {
        return true;
      }
      iter := iter + 1;
    }
    assert !Punctuation(ch) && ch != '\0' by {
      var p := LegalChars;
      assert p[0] == '.' && p[1] == '!' && p[2] == '#' && p[3] == '$' && p[4] == '%' && p[5] == '&';
      assert p[6] == '\'' && p[7] == '(' && p[8] == ')' && p[9] == '-' && p[10] == '@' && p[11] == '^';
      assert p[12] == '_' && p[13] == '`' && p[14] == '{' && p[15] == '}' && p[16] == '~' && p[17] == '\0';
    }
    return false;
  }

  /** Space, lower case, '"', '*', '+' and '/' are refused; NUL and '~' are accepted. */
  lemma LegalCharacterExamples()
    ensures !LegalFatCharacter(' ') && !LegalFatCharacter('a') && !LegalFatCharacter('z')
    ensures !LegalFatCharacter('"') && !LegalFatCharacter('*') && !LegalFatCharacter('+')
    ensures !LegalFatCharacter('/') && !LegalFatCharacter(127 as char) && !LegalFatCharacter(256 as char)
    ensures LegalFatCharacter('\0') && LegalFatCharacter('~') && LegalFatCharacter(255 as char)
  {
  }

  /** `towupper` in the C locale: a-z to A-Z, every other character unchanged. */
  function Upper(ch: char): (u: char)
    ensures !('a' <= u <= 'z')
  {
    if 'a' <= ch <= 'z' then (ch as int - 32) as char else ch
  }

  /** The label with `towupper` applied to each character. */
  function UpperCased(s: string): (u: string)
    ensures |u| == |s| && forall i :: 0 <= i < |s| ==> u[i] == Upper(s[i])
  {
    seq(|s|, i requires 0 <= i < |s| => Upper(s[i]))
  }

  const VolumeLabelLength: nat := FatMaxFileNameLength + FatMaxExtensionLength

  /** Why a label is refused: `erase` past the end, or a character outside the legal set. */
  datatype LabelError = OutOfRange | IllegalCharacter

  /**
   * `sanitize_label`: erasing from position 11 throws for a label shorter than 11; the
   * first 11 characters are upper-cased and must all be legal.
   */
  function Sanitized(inputLabel: string): Result<string, LabelError>
  {
    if |inputLabel| < VolumeLabelLength then Failure(OutOfRange)
    else
      var volumeLabel := UpperCased(inputLabel[..VolumeLabelLength]);
      if forall i :: 0 <= i < VolumeLabelLength ==> LegalFatCharacter(volumeLabel[i]) then Success(volumeLabel)
      else Failure(IllegalCharacter)
  }

  /** `sanitize_label` on its own copy: erase, upper-case in place, then check each character. */
  method SanitizeLabel(inputLabel: string) returns (r: Result<string, LabelError>)
    ensures r == Sanitized(inputLabel)
  {
    var outputLabel := inputLabel;
    if |outputLabel| < VolumeLabelLength {
      return Failure(OutOfRange);
    }
    outputLabel := outputLabel[..VolumeLabelLength];
    var i := 0;
    while i < |outputLabel|
      invariant |outputLabel| == VolumeLabelLength && i <= VolumeLabelLength
      invariant forall j :: 0 <= j < i ==> outputLabel[j] == Upper(inputLabel[j])
      invariant forall j :: i <= j < VolumeLabelLength ==> outputLabel[j] == inputLabel[j]
    {
      outputLabel := outputLabel[i := Upper(outputLabel[i])];
      i := i + 1;
    }
    i := 0;
    while i < |outputLabel|
      invariant i <= |outputLabel|
      invariant forall j :: 0 <= j < i ==> LegalFatCharacter(outputLabel[j])
    {
      var legal := IsLegalFatCharacter(outputLabel[i]);
      if !legal {
        return Failure(IllegalCharacter);
      }
      i := i + 1;
    }
    assert outputLabel == UpperCased(inputLabel[..VolumeLabelLength]);
    return Success(outputLabel);
  }

  /**
   * A label is accepted exactly when it has at least 11 characters whose first 11,
   * upper-cased, are all legal; the result is those 11 upper-cased characters, with no
   * lower-case letter left. Shorter labels, the empty one included, fail with
   * `out_of_range`.
   */
  lemma SanitizedLabel(inputLabel: string)
    ensures Sanitized(inputLabel).Success? <==>
      |inputLabel| >= VolumeLabelLength
      && forall i :: 0 <= i < VolumeLabelLength ==> LegalFatCharacter(Upper(inputLabel[i]))
    ensures |inputLabel| < VolumeLabelLength ==> Sanitized(inputLabel) == Failure(OutOfRange)
    ensures Sanitized(inputLabel).Success? ==>
      var volumeLabel := Sanitized(inputLabel).value;
      && |volumeLabel| == VolumeLabelLength
      && (forall i :: 0 <= i < VolumeLabelLength ==> volumeLabel[i] == Upper(inputLabel[i]))
      && (forall i :: 0 <= i < VolumeLabelLength ==> LegalFatCharacter(volumeLabel[i]) && !('a' <= volumeLabel[i] <= 'z'))
  {
  }

  /** Characters after the eleventh are dropped unseen: they never make a label fail. */
  lemma SanitizeIgnoresTail(inputLabel: string, tail: string)
    requires |inputLabel| >= VolumeLabelLength
    ensures Sanitized(inputLabel + tail) == Sanitized(inputLabel)
  {
    assert (inputLabel + tail)[..VolumeLabelLength] == inputLabel[..VolumeLabelLength];
  }

  /** A sanitized label passes through again unchanged. */
  lemma SanitizeIdempotent(inputLabel: string)
    requires Sanitized(inputLabel).Success?
    ensures Sanitized(Sanitized(inputLabel).value) == Sanitized(inputLabel)
  {
    var volumeLabel := Sanitized(inputLabel).value;
    assert forall i :: 0 <= i < VolumeLabelLength ==> Upper(volumeLabel[i]) == volumeLabel[i];
    assert volumeLabel[..VolumeLabelLength] == volumeLabel;
    assert UpperCased(volumeLabel[..VolumeLabelLength]) == volumeLabel;
  }

  /** "data" is refused (too short) and "my disk 123" too (space); "backup_2024" is accepted. */
  lemma SanitizeExamples()
    ensures Sanitized("data") == Failure(OutOfRange)
    ensures Sanitized("my disk 123") == Failure(IllegalCharacter)
    ensures Sanitized("backup_2024") == Success("BACKUP_2024")
  {
    assert !LegalFatCharacter(Upper("my disk 123"[2]));
    assert UpperCased("backup_2024"[..VolumeLabelLength]) == "BACKUP_2024";
  }

  // ---------------------------------------------------------------------------
  // The command line.

  const BootSectorOption: string := "-b="
  const ImageFileOption: string := "-f="
  const LabelOption: string := "-l="
  const DefaultImageFileName: string := "file.img"

  /** `_tcsncmp(argument, option, 3) == 0`: the argument starts with the three-character option. */
  predicate HasOption(argument: string, option: string)
    requires |option| == 3
  {
    |argument| >= 3 && argument[..3] == option
  }

  /** The text after the option in the last argument that carries it, or "" if none does. */
  function LastOption(arguments: seq<string>, option: string): string
    requires |option| == 3
  {
    if arguments == [] then ""
    else
      var last := arguments[|arguments| - 1];
      if HasOption(last, option) then last[3..] else LastOption(arguments[..|arguments| - 1], option)
  }

  /**
   * The last argument that carries the option wins, wherever it stands: the text after
   * the option in argument `i` is the value when no later argument carries the option;
   * an option carried by no argument gives "".
   */
  lemma {:induction false} LastOptionWins(arguments: seq<string>, option: string, i: nat)
    requires |option| == 3 && i < |arguments| && HasOption(arguments[i], option)
    requires forall j :: i < j < |arguments| ==> !HasOption(arguments[j], option)
    decreases |arguments|
    ensures LastOption(arguments, option) == arguments[i][3..]
  {
    if i < |arguments| - 1 {
      LastOptionWins(arguments[..|arguments| - 1], option, i);
    }
  }

  lemma {:induction false} LastOptionAbsent(arguments: seq<string>, option: string)
    requires |option| == 3 && forall j :: 0 <= j < |arguments| ==> !HasOption(arguments[j], option)
    decreases |arguments|
    ensures LastOption(arguments, option) == ""
  {
    if arguments != [] {
      LastOptionAbsent(arguments[..|arguments| - 1], option);
    }
  }

  /** The three settings read from the command line. */
  datatype CommandLine = CommandLine(bootSectorFileName: string, imageFileName: string, volumeLabel: string)

  /** `parse_command_line`: the last of each option, "file.img" for no image name, the label sanitized. */
  function ParsedCommandLine(argv: seq<string>): Result<CommandLine, LabelError>
  {
    var imageFileName := LastOption(argv, ImageFileOption);
    match Sanitized(LastOption(argv, LabelOption))
    case Failure(e) => Failure(e)
    case Success(volumeLabel) =>
      Success(CommandLine(LastOption(argv, BootSectorOption),
                          if imageFileName == [] then DefaultImageFileName else imageFileName,
                          volumeLabel))
  }

  /**
   * The scan of every argument, the program name `argv[0]` included, each option
   * overwriting its setting.
   */
  method ScanArguments(argv: seq<string>) returns (bootSectorFileName: string, imageFileName: string, volumeLabel: string)
    ensures bootSectorFileName == LastOption(argv, BootSectorOption)
    ensures imageFileName == LastOption(argv, ImageFileOption)
    ensures volumeLabel == LastOption(argv, LabelOption)
  {
    bootSectorFileName, imageFileName, volumeLabel := "", "", "";
    var ii := 0;
    while ii < |argv|
      invariant ii <= |argv|
      invariant bootSectorFileName == LastOption(argv[..ii], BootSectorOption)
      invariant imageFileName == LastOption(argv[..ii], ImageFileOption)
      invariant volumeLabel == LastOption(argv[..ii], LabelOption)
    {
      assert argv[..ii + 1][..ii] == argv[..ii];
      if HasOption(argv[ii], BootSectorOption) {
        bootSectorFileName := argv[ii][3..];
      } else if HasOption(argv[ii], ImageFileOption) {
        imageFileName := argv[ii][3..];
      } else if HasOption(argv[ii], LabelOption) {
        volumeLabel := argv[ii][3..];
      }
      ii := ii + 1;
    }
    assert argv[..ii] == argv;
  }

  /** `parse_command_line`: scan, default the image name, then sanitize the label. */
  method ParseCommandLine(argv: seq<string>) returns (r: Result<CommandLine, LabelError>)
    ensures r == ParsedCommandLine(argv)
  {
    var bootSectorFileName, imageFileName, volumeLabel := ScanArguments(argv);
    if imageFileName == [] {
      imageFileName := DefaultImageFileName;
    }
    var sanitized := SanitizeLabel(volumeLabel);
    match sanitized
    case Failure(e) =>
      r := Failure(e);
    case Success(sanitizedLabel) =>
      r := Success(CommandLine(bootSectorFileName, imageFileName, sanitizedLabel));
  }

  /** The exit code and the image file written, if any. */
  datatype Outcome = Outcome(errorLevel: int, written: Option<ImageFile>)

  /** `_tmain`: usage and 0 for fewer than two arguments; 1 if parsing throws; else the image and 0. */
  function BuildOutcome(argv: seq<string>, files: string -> seq<byte>): Outcome
  {
    if |argv| < 2 then Outcome(0, None)
    else
      match ParsedCommandLine(argv)
      case Failure(_) => Outcome(1, None)
      case Success(c) =>
        Outcome(0, Some(ImageFile(c.imageFileName, DiskImage(BootSectorAfterRead(c.bootSectorFileName, files)))))
  }

  method Run(argv: seq<string>, files: string -> seq<byte>) returns (outcome: Outcome)
    ensures outcome == BuildOutcome(argv, files)
  {
    var errorLevel := 0;
    outcome := Outcome(errorLevel, None);
    if |argv| >= 2 {
      var parsed := ParseCommandLine(argv);
      match parsed
      case Failure(_) =>
        errorLevel := 1;
        outcome := Outcome(errorLevel, None);
      case Success(c) =>
        var written := OutputBootSector(c.bootSectorFileName, c.imageFileName, c.volumeLabel, files);
        outcome := Outcome(errorLevel, Some(written));
    }
  }

  /**
   * The exit code is 0 exactly when usage was printed or an image was written, and an
   * image is written exactly when there are two or more arguments and the last `-l=`
   * label is accepted. In particular the tool exits with 1, writing nothing, unless `-l=`
   * supplies at least 11 characters.
   */
  lemma ExitCodes(argv: seq<string>, files: string -> seq<byte>)
    ensures var o := BuildOutcome(argv, files);
      && (o.errorLevel == 0 || o.errorLevel == 1)
      && (o.written.Some? <==> |argv| >= 2 && Sanitized(LastOption(argv, LabelOption)).Success?)
      && (o.errorLevel == 0 <==> |argv| < 2 || o.written.Some?)
      && (|argv| >= 2 && |LastOption(argv, LabelOption)| < VolumeLabelLength ==> o == Outcome(1, None))
  {
  }

  /**
   * A written image is named by the last `-f=` (or "file.img"), is 1,474,560 bytes long,
   * and holds the two identical tables whatever the boot-sector file was.
   */
  lemma WrittenImage(argv: seq<string>, files: string -> seq<byte>)
    requires BuildOutcome(argv, files).written.Some?
    ensures var f := BuildOutcome(argv, files).written.value;
      && (f.name == if LastOption(argv, ImageFileOption) == [] then DefaultImageFileName
                    else LastOption(argv, ImageFileOption))
      && |f.contents| == ImageSize
      && f.contents[SecondFatStart..RootDirectoryStart] == f.contents[FirstFatStart..SecondFatStart]
      && (LastOption(argv, BootSectorOption) == [] ==> f.contents[..BytesPerSector] == DefaultBootSector())
  {
    var c := ParsedCommandLine(argv).value;
    var boot := BootSectorAfterRead(c.bootSectorFileName, files);
    DiskImageLayout(boot);
  }
}
