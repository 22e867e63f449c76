/**
 * Direct disk access (DiskTools/DirectRead.h and DirectRead.cpp): the packed MBR
 * partition-table entry, the sorted table of file-system type names, and the
 * sector read over an abstract disk device.
 */
module DirectRead {
  import opened Wrappers
  import opened Packed
  import opened Numerals
  import SortedTable

  // ---------------------------------------------------------------------------
  // Partition_table_entry: 16 packed bytes, four of them per table.

  const PartitionTableEntryCount: nat := 4
  const PartitionTableEntrySize: nat := 16

  datatype PartitionTableEntry = PartitionTableEntry(
    bootable: byte,
    beginHead: byte,
    beginSector: byte,
    beginCylinder: byte,
    fileSystemType: byte,
    endHead: byte,
    endSector: byte,
    endCylinder: byte,
    startSector: uint32,
    sectors: uint32)

  /** The declaration order and widths of the packed structure. */
  const PartitionTableEntryLayout: seq<Field> := [
    Field("bootable", 1),
    Field("begin_head", 1),
    Field("begin_sector", 1),
    Field("begin_cylinder", 1),
    Field("file_system_type", 1),
    Field("end_head", 1),
    Field("end_sector", 1),
    Field("end_cylinder", 1),
    Field("start_sector", 4),
    Field("sectors", 4)
  ]

  /** Where each field of the packed entry starts, and where the last one ends. */
  const PartitionTableEntryOffsets: seq<nat> := [0, 1, 2, 3, 4, 5, 6, 7, 8, 12, 16]

  lemma EntryPrefixSums()
    ensures PrefixSums(PartitionTableEntryLayout, PartitionTableEntryOffsets)
  {
  }

  /** The packed entry is 16 bytes; byte fields at 0..7, the two 32-bit fields at 8 and 12. */
  lemma EntryLayout()
    ensures SizeOf(PartitionTableEntryLayout) == PartitionTableEntrySize
    ensures forall k :: 0 <= k < 8 ==> OffsetOf(PartitionTableEntryLayout, k) == k
    ensures forall k :: 0 <= k < 8 ==> PartitionTableEntryLayout[k].width == 1
    ensures OffsetOf(PartitionTableEntryLayout, 4) == 4
    ensures OffsetOf(PartitionTableEntryLayout, 8) == 8
    ensures OffsetOf(PartitionTableEntryLayout, 9) == 12
    ensures PartitionTableEntryCount * PartitionTableEntrySize + 2 == 66
  {
    EntryPrefixSums();
    OffsetsFromPrefixSums(PartitionTableEntryLayout, PartitionTableEntryOffsets);
    forall k | 0 <= k < 8 ensures OffsetOf(PartitionTableEntryLayout, k) == k {
      EntryOffsetsFormula(k);
    }
  }

  lemma OffsetsUpTo(k: nat)
    requires k <= 10
    ensures OffsetOf(PartitionTableEntryLayout, k) == if k <= 8 then k else 8 + 4 * (k - 8)
  {
    EntryPrefixSums();
    OffsetFromPrefixSums(PartitionTableEntryLayout, PartitionTableEntryOffsets, k);
    EntryOffsetsFormula(k);
  }

  lemma EntryOffsetsFormula(k: nat)
    requires k <= 10
    ensures PartitionTableEntryOffsets[k] == if k <= 8 then k else 8 + 4 * (k - 8)
  {
  }

  /** Reading an entry out of 16 raw bytes (the `reinterpret_cast` of the table). */
  function DecodeEntry(bytes: seq<byte>): PartitionTableEntry
    requires |bytes| == PartitionTableEntrySize
  {
    LittleEndianBound(bytes[8..12]);
    LittleEndianBound(bytes[12..16]);
    PartitionTableEntry(bytes[0], bytes[1], bytes[2], bytes[3],
                        bytes[4], bytes[5], bytes[6], bytes[7],
                        LittleEndian(bytes[8..12]), LittleEndian(bytes[12..16]))
  }

  lemma LittleEndianBound(bs: seq<byte>)
    requires |bs| == 4
    ensures LittleEndian(bs) < TwoTo32
  {
    assert Pow256(4) == TwoTo32;
  }

  /** The 16 bytes that store an entry. */
  function EncodeEntry(e: PartitionTableEntry): (bytes: seq<byte>)
    ensures |bytes| == PartitionTableEntrySize
  {
    assert Pow256(4) == TwoTo32;
    [e.bootable, e.beginHead, e.beginSector, e.beginCylinder,
     e.fileSystemType, e.endHead, e.endSector, e.endCylinder]
    + ToLittleEndian(e.startSector, 4) + ToLittleEndian(e.sectors, 4)
  }

  lemma DecodeEncode(e: PartitionTableEntry)
    ensures DecodeEntry(EncodeEntry(e)) == e
  {
    assert Pow256(4) == TwoTo32;
    var bytes := EncodeEntry(e);
    assert bytes[8..12] == ToLittleEndian(e.startSector, 4);
    assert bytes[12..16] == ToLittleEndian(e.sectors, 4);
    LittleEndianRoundTrip(e.startSector, 4);
    LittleEndianRoundTrip(e.sectors, 4);
  }

  lemma EncodeDecode(bytes: seq<byte>)
    requires |bytes| == PartitionTableEntrySize
    ensures EncodeEntry(DecodeEntry(bytes)) == bytes
  {
    ToLittleEndianRoundTrip(bytes[8..12]);
    ToLittleEndianRoundTrip(bytes[12..16]);
    assert bytes == bytes[..8] + bytes[8..12] + bytes[12..16];
  }

  /** Each decoded member is the field the packed layout places at its offset. */
  lemma DecodeFollowsLayout(bytes: seq<byte>)
    requires |bytes| == PartitionTableEntrySize
    ensures SizeOf(PartitionTableEntryLayout) == |bytes|
    ensures var e := DecodeEntry(bytes);
      && e.bootable == FieldValue(bytes, PartitionTableEntryLayout, 0)
      && e.beginHead == FieldValue(bytes, PartitionTableEntryLayout, 1)
      && e.beginSector == FieldValue(bytes, PartitionTableEntryLayout, 2)
      && e.beginCylinder == FieldValue(bytes, PartitionTableEntryLayout, 3)
      && e.fileSystemType == FieldValue(bytes, PartitionTableEntryLayout, 4)
      && e.endHead == FieldValue(bytes, PartitionTableEntryLayout, 5)
      && e.endSector == FieldValue(bytes, PartitionTableEntryLayout, 6)
      && e.endCylinder == FieldValue(bytes, PartitionTableEntryLayout, 7)
      && e.startSector == FieldValue(bytes, PartitionTableEntryLayout, 8)
      && e.sectors == FieldValue(bytes, PartitionTableEntryLayout, 9)
  {
    LayoutSize();
    ByteField(bytes, 0);
    ByteField(bytes, 1);
    ByteField(bytes, 2);
    ByteField(bytes, 3);
    ByteField(bytes, 4);
    ByteField(bytes, 5);
    ByteField(bytes, 6);
    ByteField(bytes, 7);
    OffsetsUpTo(8);
    OffsetsUpTo(9);
  }

  lemma LayoutSize()
    ensures SizeOf(PartitionTableEntryLayout) == PartitionTableEntrySize
  {
    OffsetsUpTo(10);
    assert PartitionTableEntryLayout[..10] == PartitionTableEntryLayout;
  }

  lemma ByteField(bytes: seq<byte>, k: nat)
    requires |bytes| == PartitionTableEntrySize && k < 8
    ensures SizeOf(PartitionTableEntryLayout) == |bytes|
    ensures FieldValue(bytes, PartitionTableEntryLayout, k) == bytes[k]
  {
    LayoutSize();
    OffsetsUpTo(k);
    ByteWidth(k);
    assert bytes[k..k + 1] == [bytes[k]];
    assert LittleEndian([bytes[k]]) == bytes[k] + 256 * LittleEndian([]);
  }

  lemma ByteWidth(k: nat)
    requires k < 8
    ensures PartitionTableEntryLayout[k].width == 1
  {
  }

  // ---------------------------------------------------------------------------
  // File-system type names.

  datatype FileSystemTypeMap = FileSystemTypeMap(name: string, fsType: byte)

  /** Known partition type bytes and their names, ascending by type byte. */
  const FileSystemTypes: seq<FileSystemTypeMap> := [
    FileSystemTypeMap("None/Raw", 0x00),
    FileSystemTypeMap("DOS FAT12", 0x01),
    FileSystemTypeMap("DOS FAT16", 0x04),
    FileSystemTypeMap("Extended", 0x05),
    FileSystemTypeMap("DOS FAT16 (big)", 0x06),
    FileSystemTypeMap("NTFS/HPFS", 0x07),
    FileSystemTypeMap("Windows FAT32", 0x0B),
    FileSystemTypeMap("Windows FAT32 (LBA)", 0x0C),
    FileSystemTypeMap("Windows FAT16 (LBA)", 0x0E),
    FileSystemTypeMap("Windows Extended", 0x0F),
    FileSystemTypeMap("Hidden DOS FAT12", 0x11),
    FileSystemTypeMap("Hidden DOS FAT16", 0x14),
    FileSystemTypeMap("Hidden DOS FAT16", 0x16),
    FileSystemTypeMap("Hidden OS/2 HPFS", 0x17),
    FileSystemTypeMap("Linux", 0x81),
    FileSystemTypeMap("Linux Swap", 0x82),
    FileSystemTypeMap("Linux", 0x83),
    FileSystemTypeMap("Linux Extended", 0x85),
    FileSystemTypeMap("GUID Partition Table", 0xEE)
  ]

  const FileSystemTypeExtended1: byte := 0x05
  const FileSystemTypeExtended2: byte := 0x0F

  /** The search keys of a table, in table order. */
  function KeysOf(table: seq<FileSystemTypeMap>): (keys: seq<int>)
    ensures |keys| == |table|
    ensures forall i :: 0 <= i < |keys| ==> keys[i] == table[i].fsType
  {
    seq(|table|, i requires 0 <= i < |table| => table[i].fsType as int)
  }

  function TypeKeys(): (keys: seq<int>)
    ensures keys == KeysOf(FileSystemTypes)
  {
    KeysOf(FileSystemTypes)
  }

  /** The table is strictly ascending, which the binary search relies on. */
  lemma FileSystemTypesAscending()
    ensures |FileSystemTypes| == 19
    ensures FileSystemTypes[0].fsType == 0x00 && FileSystemTypes[18].fsType == 0xEE
    ensures SortedTable.StrictlySorted(TypeKeys())
    ensures SortedTable.Sorted(TypeKeys())
  {
    var keys := TypeKeys();
    assert forall i :: 0 <= i < |keys| - 1 ==> keys[i] < keys[i + 1];
    AdjacentOrderIsStrict(keys);
  }

  lemma AdjacentOrderIsStrict(keys: seq<int>)
    requires forall i :: 0 <= i < |keys| - 1 ==> keys[i] < keys[i + 1]
    ensures SortedTable.StrictlySorted(keys)
  {
    forall i, j | 0 <= i < j < |keys| ensures keys[i] < keys[j] {
      var k := i;
      while k < j
        invariant i <= k <= j && keys[i] <= keys[k]
        invariant k > i ==> keys[i] < keys[k]
      {
        k := k + 1;
      }
    }
  }

  /** The name a strictly ascending table gives `fsType`, found by `std::lower_bound`. */
  function FindName(table: seq<FileSystemTypeMap>, fsType: byte): (name: Option<string>)
    requires SortedTable.StrictlySorted(KeysOf(table))
    ensures name.Some? <==> exists i :: 0 <= i < |table| && table[i].fsType == fsType
    ensures name.Some? ==> forall i :: 0 <= i < |table| && table[i].fsType == fsType ==> table[i].name == name.value
  {
    var keys := KeysOf(table);
    SortedTable.LowerBoundFinds(keys, fsType);
    var i := SortedTable.LowerBound(keys, fsType);
    if i < |table| && table[i].fsType == fsType then
      Some(table[i].name)
    else
      None
  }

  /** `get_file_system_name`: the entry's name when the type is in the table, none otherwise. */
  function GetFileSystemName(fileSystemType: byte): (name: Option<string>)
    ensures name.Some? <==> exists i :: 0 <= i < |FileSystemTypes| && FileSystemTypes[i].fsType == fileSystemType
    ensures name.Some? ==> forall i :: 0 <= i < |FileSystemTypes| && FileSystemTypes[i].fsType == fileSystemType
                                       ==> FileSystemTypes[i].name == name.value
  {
    FileSystemTypesAscending();
    FindName(FileSystemTypes, fileSystemType)
  }

  lemma FileSystemNameExamples()
    ensures GetFileSystemName(0x07) == Some("NTFS/HPFS")
    ensures GetFileSystemName(0x00) == Some("None/Raw")
    ensures GetFileSystemName(0x85) == Some("Linux Extended")
    ensures GetFileSystemName(0xA0) == None
  {
    assert FileSystemTypes[5].fsType == 0x07;
    assert FileSystemTypes[0].fsType == 0x00;
    assert FileSystemTypes[17].fsType == 0x85;
    assert forall i :: 0 <= i < |FileSystemTypes| ==> FileSystemTypes[i].fsType != 0xA0;
  }

  /** No name in the table is longer than 20 characters. */
  lemma FileSystemNamesShort()
    ensures forall i :: 0 <= i < |FileSystemTypes| ==> |FileSystemTypes[i].name| <= 20
  {
  }

  /** So no name the lookup returns is either. */
  lemma FileSystemNameShort(fileSystemType: byte)
    ensures GetFileSystemName(fileSystemType).Some? ==> |GetFileSystemName(fileSystemType).value| <= 20
  {
    if GetFileSystemName(fileSystemType).Some? {
      FileSystemNamesShort();
      var i :| 0 <= i < |FileSystemTypes| && FileSystemTypes[i].fsType == fileSystemType;
    }
  }

  /** `is_extended_partition`: only the two extended types are chained into. */
  predicate IsExtendedPartition(fileSystemType: byte)
  {
    FileSystemTypeExtended1 == fileSystemType || FileSystemTypeExtended2 == fileSystemType
  }

  /** Of the table's types, exactly "Extended" and "Windows Extended" are followed. */
  lemma ExtendedTypes()
    ensures forall i :: 0 <= i < |FileSystemTypes| ==> (IsExtendedPartition(FileSystemTypes[i].fsType) <==> i == 3 || i == 9)
    ensures FileSystemTypes[3].name == "Extended" && FileSystemTypes[9].name == "Windows Extended"
  {
    FileSystemTypesAscending();
    var keys := TypeKeys();
    assert keys[3] == 0x05 && keys[9] == 0x0F;
    forall i | 0 <= i < |FileSystemTypes|
      ensures IsExtendedPartition(FileSystemTypes[i].fsType) <==> i == 3 || i == 9
    {
      if i < 3 {
        assert keys[i] < keys[3];
      } else if 3 < i < 9 {
        assert keys[3] < keys[i] < keys[9];
      } else if 9 < i {
        assert keys[9] < keys[i];
      }
    }
  }

  /** "Linux Extended" (0x85) is a known type that the walker does not chain into. */
  lemma LinuxExtendedNotFollowed()
    ensures !IsExtendedPartition(0x85) && GetFileSystemName(0x85) == Some("Linux Extended")
  {
    FileSystemNameExamples();
  }

  // ---------------------------------------------------------------------------
  // The disk device and sector reads.

  /** HRESULT values the disk reads produce. */
  datatype HResult =
    | Ok                      // S_OK
    | BufferTooSmall          // TYPE_E_BUFFERTOOSMALL
    | ReadFault               // HRESULT_FROM_WIN32(ERROR_READ_FAULT)
    | OpenFailed              // HRESULT_FROM_WIN32(ERROR_OPEN_FAILED)
    | Unexpected              // E_UNEXPECTED
    | Win32(lastError: nat)   // HRESULT_FROM_WIN32(GetLastError())
    | DepthExhausted          // model only: the recursion bound of the walker ran out

  predicate Succeeded(hr: HResult)
  {
    hr.Ok?
  }

  /** Answer of IOCTL_DISK_GET_DRIVE_GEOMETRY. */
  datatype Geometry = Geometry(bytesPerSector: nat) | GeometryFailed(lastError: nat)

  /**
   * What a handle to a physical disk gives access to: whether CreateFile produced a
   * valid handle, the drive geometry, the error of a seek to a byte offset (0 when
   * it succeeds), whether a read at a byte offset fails, and the bytes of the medium
   * from a byte offset to its end.
   */
  datatype Device = Device(
    isOpen: bool,
    geometry: Geometry,
    seekError: nat -> nat,
    readFails: nat -> bool,
    medium: nat -> seq<byte>)

  /** The result of a sector read: status, the new `*buffer_size`, and the bytes read. */
  datatype SectorRead = SectorRead(hr: HResult, bufferSize: nat, data: seq<byte>)

  function Prefix<T>(s: seq<T>, n: nat): (p: seq<T>)
    ensures |p| <= n && |p| <= |s| && p == s[..|p|]
    ensures |s| >= n ==> |p| == n
  {
    if |s| <= n then s else s[..n]
  }

  /**
   * `can_buffer_hold_sector` as written: the buffer size becomes the device's
   * BytesPerSector when the geometry query succeeds, and the status it computes
   * (too small, or the query's error) is dropped: the call always reports S_OK.
   */
  method CanBufferHoldSector(d: Device, bufferSize: nat) returns (hr: HResult, minimumBufferSize: nat)
    ensures hr == Ok
    ensures d.geometry.Geometry? ==> minimumBufferSize == d.geometry.bytesPerSector
    ensures d.geometry.GeometryFailed? ==> minimumBufferSize == bufferSize
  {
    var computed := Ok;
    minimumBufferSize := bufferSize;
    match d.geometry {
      case Geometry(bytesPerSector) =>
        if bytesPerSector > bufferSize {
          computed := BufferTooSmall;
        }
        minimumBufferSize := bytesPerSector;
      case GeometryFailed(lastError) =>
        computed := Win32(lastError);
    }
    hr := Ok;
  }

  /** The buffer size `can_buffer_hold_sector` leaves behind. */
  function SizeAfterGeometryQuery(d: Device, bufferSize: nat): nat
  {
    if d.geometry.Geometry? then d.geometry.bytesPerSector else bufferSize
  }

  /** Byte offset of a sector: `sector_number * buffer_size` in 64-bit unsigned arithmetic. */
  function SectorOffset(sectorNumber: uint64, sectorSize: nat): uint64
  {
    (sectorNumber * sectorSize) % TwoTo64
  }

  /** What `read_sector_from_handle` does, as one value. */
  function ReadSector(d: Device, bufferSize: nat, sectorNumber: uint64): SectorRead
  {
    var size := SizeAfterGeometryQuery(d, bufferSize);
    var offset := SectorOffset(sectorNumber, size);
    if d.seekError(offset) != 0 then
      SectorRead(Win32(d.seekError(offset)), size, [])
    else if d.readFails(offset) then
      SectorRead(ReadFault, 0, [])
    else
      var got := Prefix(d.medium(offset), size);
      SectorRead(Ok, |got|, got)
  }

  /**
   * `read_sector_from_handle`: size the buffer from the geometry, seek to the sector's
   * byte offset, read. The size is set to the byte count read whenever a read is made.
   */
  method ReadSectorFromHandle(d: Device, bufferSize: nat, sectorNumber: uint64)
    returns (hr: HResult, newBufferSize: nat, data: seq<byte>)
    ensures SectorRead(hr, newBufferSize, data) == ReadSector(d, bufferSize, sectorNumber)
    ensures hr != BufferTooSmall
    ensures |data| == (if hr.Ok? then newBufferSize else 0)
    ensures hr.Ok? ==> data == Prefix(d.medium(SectorOffset(sectorNumber, SizeAfterGeometryQuery(d, bufferSize))),
                                      SizeAfterGeometryQuery(d, bufferSize))
  {
    hr, newBufferSize := CanBufferHoldSector(d, bufferSize);
    data := [];
    var byteOffset: uint64 := 0;
    if Succeeded(hr) {
      byteOffset := SectorOffset(sectorNumber, newBufferSize);
      hr := SeekToOffset(d, byteOffset);
    }
    if Succeeded(hr) {
      var bytesRead: seq<byte>;
      if d.readFails(byteOffset) {
        hr := ReadFault;
        bytesRead := [];
      } else {
        bytesRead := Prefix(d.medium(byteOffset), newBufferSize);
      }
      newBufferSize := |bytesRead|;
      data := bytesRead;
    }
  }

  /** `seek_to_offset`: S_OK, or the error SetFilePointer reports. */
  method SeekToOffset(d: Device, byteOffset: uint64) returns (hr: HResult)
    ensures hr == (if d.seekError(byteOffset) != 0 then Win32(d.seekError(byteOffset)) else Ok)
  {
    var lastError := d.seekError(byteOffset);
    hr := Ok;
    if lastError != 0 {
      hr := Win32(lastError);
    }
  }

  /** The (low, high) double words handed to SetFilePointer. */
  function SplitOffset(byteOffset: bv64): (words: (bv32, bv32))
  {
    ((byteOffset & 0xFFFF_FFFF) as bv32, (byteOffset >> 32) as bv32)
  }

  /** SetFilePointer's high:low pair is the 64-bit offset again. */
  lemma SplitOffsetJoins(byteOffset: bv64)
    ensures var (low, high) := SplitOffset(byteOffset);
      ((high as bv64) << 32) | (low as bv64) == byteOffset
      && (high as bv64) * 0x1_0000_0000 + (low as bv64) == byteOffset
  {
  }

  /** The device reports a sector larger than the caller's buffer. */
  predicate SectorOverrunsBuffer(d: Device, bufferSize: nat)
  {
    d.geometry.Geometry? && d.geometry.bytesPerSector > bufferSize
  }

  /**
   * `can_buffer_hold_sector` reporting the one status that matters to the read: a sector
   * larger than the buffer is TYPE_E_BUFFERTOOSMALL. A failed geometry query keeps the
   * fallback the code has: S_OK, with the caller's buffer size as the sector size.
   */
  method CheckedCanBufferHoldSector(d: Device, bufferSize: nat) returns (hr: HResult, minimumBufferSize: nat)
    ensures hr.BufferTooSmall? <==> SectorOverrunsBuffer(d, bufferSize)
    ensures hr.Ok? <==> !SectorOverrunsBuffer(d, bufferSize)
    ensures minimumBufferSize == SizeAfterGeometryQuery(d, bufferSize)
  {
    hr := Ok;
    minimumBufferSize := bufferSize;
    match d.geometry {
      case Geometry(bytesPerSector) =>
        if bytesPerSector > bufferSize {
          hr := BufferTooSmall;
        }
        minimumBufferSize := bytesPerSector;
      case GeometryFailed(_) =>
    }
  }

  /** The sector read when a sector larger than the buffer is refused before reading. */
  function CheckedReadSector(d: Device, bufferSize: nat, sectorNumber: uint64): SectorRead
  {
    if SectorOverrunsBuffer(d, bufferSize) then SectorRead(BufferTooSmall, d.geometry.bytesPerSector, [])
    else ReadSector(d, bufferSize, sectorNumber)
  }

  /** `read_sector_from_handle` over the checked buffer test. */
  method CheckedReadSectorFromHandle(d: Device, bufferSize: nat, sectorNumber: uint64)
    returns (hr: HResult, newBufferSize: nat, data: seq<byte>)
    ensures SectorRead(hr, newBufferSize, data) == CheckedReadSector(d, bufferSize, sectorNumber)
    ensures |data| <= bufferSize
  {
    hr, newBufferSize := CheckedCanBufferHoldSector(d, bufferSize);
    data := [];
    var byteOffset: uint64 := 0;
    if Succeeded(hr) {
      byteOffset := SectorOffset(sectorNumber, newBufferSize);
      hr := SeekToOffset(d, byteOffset);
    }
    if Succeeded(hr) {
      var bytesRead: seq<byte>;
      if d.readFails(byteOffset) {
        hr := ReadFault;
        bytesRead := [];
      } else {
        bytesRead := Prefix(d.medium(byteOffset), newBufferSize);
      }
      newBufferSize := |bytesRead|;
      data := bytesRead;
    }
  }

  /**
   * With the status honoured a read never delivers more bytes than the caller's buffer
   * holds, and a successful read reports exactly the bytes it delivered.
   */
  lemma CheckedReadFitsBuffer(d: Device, bufferSize: nat, sectorNumber: uint64)
    ensures var r := CheckedReadSector(d, bufferSize, sectorNumber);
      |r.data| <= bufferSize && (r.hr.Ok? ==> r.bufferSize == |r.data|)
    ensures SectorOverrunsBuffer(d, bufferSize) ==>
      CheckedReadSector(d, bufferSize, sectorNumber).hr == BufferTooSmall
  {
  }

  /**
   * Unless the sector overruns the buffer, the checked read is the read as written; in
   * particular when the geometry query fails, both read `bufferSize` bytes.
   */
  lemma CheckedReadAgrees(d: Device, bufferSize: nat, sectorNumber: uint64)
    ensures !SectorOverrunsBuffer(d, bufferSize) ==>
      CheckedReadSector(d, bufferSize, sectorNumber) == ReadSector(d, bufferSize, sectorNumber)
    ensures d.geometry.GeometryFailed? ==>
      CheckedReadSector(d, bufferSize, sectorNumber) == ReadSector(d, bufferSize, sectorNumber)
      && SizeAfterGeometryQuery(d, bufferSize) == bufferSize
  {
  }

  /** A disk with 4096-byte sectors whose every read succeeds. */
  const LargeSectorDisk: Device :=
    Device(true, Geometry(4096), _ => 0, _ => false, _ => seq(4096, _ => 0))

  /**
   * As written, a read into a 512-byte buffer on a 4096-byte-sector disk reports
   * success and delivers 4096 bytes.
   */
  lemma ReadSectorOverrunsBuffer()
    ensures ReadSector(LargeSectorDisk, 512, 0).hr == Ok
    ensures |ReadSector(LargeSectorDisk, 512, 0).data| == 4096 > 512
    ensures CheckedReadSector(LargeSectorDisk, 512, 0).hr == BufferTooSmall
  {
    assert SectorOffset(0, 4096) == 0;
  }

  /** Name of physical disk n: `\\.\PHYSICALDRIVE` and n in decimal. */
  function DiskName(diskNumber: byte): string
  {
    "\\\\.\\PHYSICALDRIVE" + DecimalDigits(diskNumber)
  }

  /** Capacity of `disk_name`: room for three digits and the terminator. */
  const DiskNameCapacity: nat := |"\\\\.\\PHYSICALDRIVE000"| + 1

  /**
   * Every disk number's name, with its terminator, fits `disk_name`, and the digits
   * after the prefix read back as the disk number.
   */
  lemma DiskNameFits(diskNumber: byte)
    ensures |DiskName(diskNumber)| + 1 <= DiskNameCapacity == 21
    ensures DiskName(diskNumber)[..17] == "\\\\.\\PHYSICALDRIVE"
    ensures DecimalValue(DiskName(diskNumber)[17..]) == diskNumber
  {
    DecimalLength(diskNumber, 3);
    DecimalRoundTrip(diskNumber);
    assert DiskName(diskNumber)[17..] == DecimalDigits(diskNumber);
  }

  /**
   * `read_sector_from_disk`: open the disk by name, then read; an invalid handle gives
   * ERROR_OPEN_FAILED and no read.
   */
  method ReadSectorFromDisk(system: string -> Device, bufferSize: nat, diskNumber: byte, sectorNumber: uint64)
    returns (hr: HResult, newBufferSize: nat, data: seq<byte>)
    ensures !system(DiskName(diskNumber)).isOpen ==> hr == OpenFailed && newBufferSize == bufferSize && data == []
    ensures system(DiskName(diskNumber)).isOpen ==>
      SectorRead(hr, newBufferSize, data) == ReadSector(system(DiskName(diskNumber)), bufferSize, sectorNumber)
  {
    var diskHandle := system(DiskName(diskNumber));
    hr := Ok;
    newBufferSize := bufferSize;
    data := [];
    if !diskHandle.isOpen {
      hr := OpenFailed;
    }
    if Succeeded(hr) {
      hr, newBufferSize, data := ReadSectorFromHandle(diskHandle, bufferSize, sectorNumber);
    }
  }
}
