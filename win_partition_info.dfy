/**
 * The partition walker of WinPartitionInfo (WinPartitionInfo/WinPartitionInfo.cpp):
 * reads a disk's master boot record, appends its usable entries to a shared list,
 * follows the first extended entry to the next table, and caps the list at 32.
 */
module WinPartitionInfo {
  import opened Wrappers
  import opened Packed
  import opened Numerals
  import opened DirectRead

  const SectorSize: nat := 512
  const MaxPartitions: nat := 32

  /** The four entries and the two signature bytes at the end of a sector. */
  const TableAndSignatureSize: nat := PartitionTableEntryCount * PartitionTableEntrySize + 2

  /** An element of the partitions vector: the disk number and the entry read from it. */
  datatype DiskPartition = DiskPartition(disk: byte, entry: PartitionTableEntry)

  // ---------------------------------------------------------------------------
  // The table inside a sector.

  /** The entries of the table that starts `TableAndSignatureSize` bytes before the sector's end. */
  function TableEntries(sector: seq<byte>): (entries: seq<PartitionTableEntry>)
    requires |sector| >= TableAndSignatureSize
    ensures |entries| == PartitionTableEntryCount
  {
    var tableStart := |sector| - TableAndSignatureSize;
    seq(PartitionTableEntryCount, k requires 0 <= k < PartitionTableEntryCount =>
      DecodeEntry(sector[tableStart + 16 * k .. tableStart + 16 * k + 16]))
  }

  /** A 512-byte boot record: loader code, four entries, the 0x55 0xAA signature. */
  function MasterBootRecord(code: seq<byte>, entries: seq<PartitionTableEntry>): (sector: seq<byte>)
    requires |code| == 446 && |entries| == PartitionTableEntryCount
    ensures |sector| == SectorSize
    ensures sector[510] == 0x55 && sector[511] == 0xAA
  {
    code + EncodeEntry(entries[0]) + EncodeEntry(entries[1]) + EncodeEntry(entries[2]) + EncodeEntry(entries[3])
    + [0x55, 0xAA]
  }

  /** In a 512-byte read the table starts at byte 446 and reads back the stored entries. */
  lemma TableOfMasterBootRecord(code: seq<byte>, entries: seq<PartitionTableEntry>)
    requires |code| == 446 && |entries| == PartitionTableEntryCount
    ensures SectorSize - TableAndSignatureSize == 446
    ensures TableEntries(MasterBootRecord(code, entries)) == entries
  {
    var sector := MasterBootRecord(code, entries);
    var table := TableEntries(sector);
    forall k | 0 <= k < 4
      ensures table[k] == entries[k]
    {
      RecordSlice(code, entries, k);
      DecodeEncode(entries[k]);
    }
  }

  /** The k-th 16 bytes after the loader code are the k-th entry's encoding. */
  lemma RecordSlice(code: seq<byte>, entries: seq<PartitionTableEntry>, k: nat)
    requires |code| == 446 && |entries| == PartitionTableEntryCount && k < 4
    ensures MasterBootRecord(code, entries)[446 + 16 * k .. 446 + 16 * k + 16] == EncodeEntry(entries[k])
  {
    var e0, e1, e2, e3 := EncodeEntry(entries[0]), EncodeEntry(entries[1]), EncodeEntry(entries[2]), EncodeEntry(entries[3]);
    var sector := code + e0 + e1 + e2 + e3 + [0x55, 0xAA];
    assert sector == MasterBootRecord(code, entries);
    if k == 0 {
      assert sector[446..462] == e0;
    } else if k == 1 {
      assert sector[462..478] == e1;
    } else if k == 2 {
      assert sector[478..494] == e2;
    } else {
      assert sector[494..510] == e3;
    }
  }

  // ---------------------------------------------------------------------------
  // The walk.

  /** An entry the walker lists: neither blank (type 0) nor extended. */
  predicate Listed(e: PartitionTableEntry)
  {
    e.fileSystemType != 0x00 && !IsExtendedPartition(e.fileSystemType)
  }

  /**
   * How the cap is tested: as written, appending stops when the size becomes exactly 32;
   * the corrected test also refuses to append to a list already holding 32.
   */
  datatype CapTest = AsWritten | Corrected

  /** The entries from index `i` on that the first loop appends to a list of `count` elements. */
  function Scan(entries: seq<PartitionTableEntry>, i: nat, disk: byte, count: nat, cap: CapTest): seq<DiskPartition>
    decreases |entries| - i
  {
    if i >= |entries| then []
    else if !Listed(entries[i]) then Scan(entries, i + 1, disk, count, cap)
    else if cap.Corrected? && count >= MaxPartitions then []
    else if count + 1 == MaxPartitions then [DiskPartition(disk, entries[i])]
    else [DiskPartition(disk, entries[i])] + Scan(entries, i + 1, disk, count + 1, cap)
  }

  /** The first extended entry from index `i` on. */
  function FirstExtended(entries: seq<PartitionTableEntry>, i: nat): (e: Option<PartitionTableEntry>)
    decreases |entries| - i
    ensures e.Some? ==> IsExtendedPartition(e.value.fileSystemType) && e.value in entries
    ensures e.None? ==> forall j :: i <= j < |entries| ==> !IsExtendedPartition(entries[j].fileSystemType)
  {
    if i >= |entries| then None
    else if IsExtendedPartition(entries[i].fileSystemType) then Some(entries[i])
    else FirstExtended(entries, i + 1)
  }

  /**
   * Where the walk goes next: the extended entry's start sector added to the current
   * table's sector in unsigned 32-bit arithmetic.
   */
  function NextTableSector(start: uint32, e: PartitionTableEntry): uint32
  {
    (start + e.startSector) % TwoTo32
  }

  /** The next table's sector is the plain sum, less 2^32 when the sum does not fit 32 bits. */
  lemma NextTableSectorWraps(start: uint32, e: PartitionTableEntry)
    ensures start + e.startSector < TwoTo32 ==> NextTableSector(start, e) == start + e.startSector
    ensures start + e.startSector >= TwoTo32 ==> NextTableSector(start, e) == start + e.startSector - TwoTo32
    ensures e.startSector == 0 ==> NextTableSector(start, e) == start
  {
  }

  /** The status and the elements appended by one call of the walker. */
  datatype WalkResult = WalkResult(hr: HResult, appended: seq<DiskPartition>)

  /** The outcome of reading one table sector: a failure status, or the four entries. */
  datatype TableRead = TableRead(hr: HResult, entries: seq<PartitionTableEntry>)

  /**
   * Read the table sector at `start` into a 512-byte buffer: the read's own failure, a
   * short read (E_UNEXPECTED), or the entries at `bytes_to_read - 66`. The read is the
   * one the code makes, except that a sector larger than the buffer is refused
   * (TYPE_E_BUFFERTOOSMALL) instead of being read past the buffer's end.
   */
  function ReadTable(d: Device, start: uint32): (t: TableRead)
    ensures t.hr.Ok? ==> |t.entries| == PartitionTableEntryCount
  {
    var r := CheckedReadSector(d, SectorSize, start);
    CheckedReadFitsBuffer(d, SectorSize, start);
    if !r.hr.Ok? then TableRead(r.hr, [])
    else if r.bufferSize < SectorSize then TableRead(Unexpected, [])
    else TableRead(Ok, TableEntries(r.data))
  }

  /** The table read at each sector of one disk. */
  type TableSource = uint32 -> TableRead

  function TableReads(d: Device): TableSource
  {
    (start: uint32) => ReadTable(d, start)
  }

  /** Every successful read yields a whole table. */
  ghost predicate WholeTables(tables: TableSource)
  {
    forall start :: tables(start).hr.Ok? ==> |tables(start).entries| == PartitionTableEntryCount
  }

  /**
   * `tables` is what reading `d` gives at every sector. The equation is used only where
   * the device's own read is in play, so a walk over `tables` is not unfolded into the
   * device's sector reads.
   */
  ghost predicate ReadsTablesOf(d: Device, tables: TableSource)
  {
    forall start {:trigger ReadTable(d, start)} :: ReadTable(d, start) == tables(start)
  }

  lemma DiskTablesAreWhole(d: Device)
    ensures WholeTables(TableReads(d))
  {
  }

  /**
   * `read_disk_partitions_from_handle` on a list of `existing` elements: read the table
   * sector, append its listed entries, and, while the list is below the cap, continue at
   * the first extended entry's start sector added to this table's in 32-bit arithmetic.
   * `fuel` bounds the depth of that chain.
   */
  function Walk(tables: TableSource, disk: byte, start: uint32, existing: nat, fuel: nat, cap: CapTest): WalkResult
    decreases fuel
  {
    var t := tables(start);
    if !t.hr.Ok? then WalkResult(t.hr, [])
    else
      var pushed := Scan(t.entries, 0, disk, existing, cap);
      if existing + |pushed| < MaxPartitions then
        match FirstExtended(t.entries, 0)
        case None => WalkResult(Ok, pushed)
        case Some(e) =>
          if fuel == 0 then WalkResult(DepthExhausted, pushed)
          else
            var rest := Walk(tables, disk, NextTableSector(start, e), existing + |pushed|, fuel - 1, cap);
            WalkResult(rest.hr, pushed + rest.appended)
      else WalkResult(Ok, pushed)
  }

  /** The list the walker appends to. */
  class PartitionList {
    var items: seq<DiskPartition>

    constructor ()
      ensures items == []
    {
      items := [];
    }
  }

  /**
   * `read_disk_partitions_from_handle`: appends the walk's entries to `partitions` in place
   * and returns the walk's status; what was already in the list stays as it was.
   */
  method ReadDiskPartitionsFromHandle(partitions: PartitionList, d: Device, ghost tables: TableSource,
                                      disk: byte, start: uint32, fuel: nat)
    returns (hr: HResult)
    requires ReadsTablesOf(d, tables)
    modifies partitions
    decreases fuel
    ensures var w := Walk(tables, disk, start, |old(partitions.items)|, fuel, AsWritten);
      hr == w.hr && partitions.items == old(partitions.items) + w.appended
  {
    ghost var existing := |partitions.items|;
    WalkUnfolds(tables, disk, start, existing, fuel, AsWritten);
    var entries;
    hr, entries := ReadPartitionTable(d, tables, start);
    if Succeeded(hr) {
      AppendListedEntries(partitions, entries, disk);
      if MaxPartitions > |partitions.items| {
        var found, extendedIndex := FindFirstExtended(entries);
        if found {
          if fuel == 0 {
            hr := DepthExhausted;
          } else {
            hr := ReadDiskPartitionsFromHandle(partitions, d, tables, disk,
                                               NextTableSector(start, entries[extendedIndex]),
                                               fuel - 1);
          }
        }
      }
    }
  }

  /**
   * The read at the head of `read_disk_partitions_from_handle`: one sector into a 512-byte
   * buffer, E_UNEXPECTED when fewer than 512 bytes come back, else the table at the end
   * of what was read.
   */
  method ReadPartitionTable(d: Device, ghost tables: TableSource, start: uint32)
    returns (hr: HResult, entries: seq<PartitionTableEntry>)
    requires ReadsTablesOf(d, tables)
    ensures TableRead(hr, entries) == tables(start)
    ensures hr.Ok? ==> |entries| == PartitionTableEntryCount
  {
    ghost var table := ReadTable(d, start);
    var bytesToRead: nat;
    var buffer: seq<byte>;
    hr, bytesToRead, buffer := CheckedReadSectorFromHandle(d, SectorSize, start);
    entries := [];
    if Succeeded(hr) {
      CheckedReadFitsBuffer(d, SectorSize, start);
      if SectorSize <= bytesToRead {
        entries := TableEntries(buffer);
      } else {
        hr := Unexpected;
      }
    }
  }

  /**
   * The first loop of `read_disk_partitions_from_handle`: skip blank and extended entries,
   * append the others in table order, and stop once the list holds exactly 32.
   */
  method AppendListedEntries(partitions: PartitionList, entries: seq<PartitionTableEntry>, disk: byte)
    requires |entries| == PartitionTableEntryCount
    modifies partitions
    ensures partitions.items == old(partitions.items) + Scan(entries, 0, disk, |old(partitions.items)|, AsWritten)
  {
    ghost var existing := |partitions.items|;
    ghost var pushed: seq<DiskPartition> := [];
    var entryIndex := 0;
    while entryIndex < PartitionTableEntryCount
      invariant 0 <= entryIndex <= PartitionTableEntryCount
      invariant partitions.items == old(partitions.items) + pushed
      invariant Scan(entries, 0, disk, existing, AsWritten)
                == pushed + Scan(entries, entryIndex, disk, existing + |pushed|, AsWritten)
    {
      ScanStep(entries, entryIndex, disk, existing + |pushed|);
      if 0x00 == entries[entryIndex].fileSystemType {
        entryIndex := entryIndex + 1;
        continue;
      }
      if IsExtendedPartition(entries[entryIndex].fileSystemType) {
        entryIndex := entryIndex + 1;
        continue;
      }
      ghost var rest := Scan(entries, entryIndex + 1, disk, existing + |pushed| + 1, AsWritten);
      partitions.items := partitions.items + [DiskPartition(disk, entries[entryIndex])];
      pushed := pushed + [DiskPartition(disk, entries[entryIndex])];
      if MaxPartitions == |partitions.items| {
        break;
      }
      assert Scan(entries, 0, disk, existing, AsWritten) == pushed + rest;
      entryIndex := entryIndex + 1;
    }
  }

  /** The second loop: the index of the first extended entry, if there is one. */
  method FindFirstExtended(entries: seq<PartitionTableEntry>) returns (found: bool, index: nat)
    ensures found <==> FirstExtended(entries, 0).Some?
    ensures found ==> index < |entries| && entries[index] == FirstExtended(entries, 0).value
    ensures found ==> forall j :: 0 <= j < index ==> !IsExtendedPartition(entries[j].fileSystemType)
  {
    index := 0;
    while index < |entries|
      invariant index <= |entries|
      invariant FirstExtended(entries, 0) == FirstExtended(entries, index)
      invariant forall j :: 0 <= j < index ==> !IsExtendedPartition(entries[j].fileSystemType)
    {
      if IsExtendedPartition(entries[index].fileSystemType) {
        return true, index;
      }
      index := index + 1;
    }
    found := false;
  }

  /** One unfolding of the walk, case by case. */
  lemma WalkUnfolds(tables: TableSource, disk: byte, start: uint32, existing: nat, fuel: nat, cap: CapTest)
    ensures var t := tables(start);
      var w := Walk(tables, disk, start, existing, fuel, cap);
      && (!t.hr.Ok? ==> w == WalkResult(t.hr, []))
      && (t.hr.Ok? ==>
            var pushed := Scan(t.entries, 0, disk, existing, cap);
            var next := FirstExtended(t.entries, 0);
            && (existing + |pushed| >= MaxPartitions ==> w == WalkResult(Ok, pushed))
            && (existing + |pushed| < MaxPartitions && next.None? ==> w == WalkResult(Ok, pushed))
            && (existing + |pushed| < MaxPartitions && next.Some? && fuel == 0 ==> w == WalkResult(DepthExhausted, pushed))
            && (existing + |pushed| < MaxPartitions && next.Some? && fuel > 0 ==>
                  var rest := Walk(tables, disk, NextTableSector(start, next.value), existing + |pushed|, fuel - 1, cap);
                  w == WalkResult(rest.hr, pushed + rest.appended)))
  {
  }

  /** One step of the first loop, as written. */
  lemma ScanStep(entries: seq<PartitionTableEntry>, i: nat, disk: byte, count: nat)
    requires i < |entries|
    ensures !Listed(entries[i]) ==> Scan(entries, i, disk, count, AsWritten) == Scan(entries, i + 1, disk, count, AsWritten)
    ensures Listed(entries[i]) && count + 1 == MaxPartitions ==>
      Scan(entries, i, disk, count, AsWritten) == [DiskPartition(disk, entries[i])]
    ensures Listed(entries[i]) && count + 1 != MaxPartitions ==>
      Scan(entries, i, disk, count, AsWritten)
      == [DiskPartition(disk, entries[i])] + Scan(entries, i + 1, disk, count + 1, AsWritten)
  {
  }

  /**
   * `read_disk_partitions`: open the disk by name and walk from `start`; an invalid
   * handle gives ERROR_OPEN_FAILED and leaves the list alone.
   */
  method ReadDiskPartitions(partitions: PartitionList, system: string -> Device, disk: byte, start: uint32, fuel: nat)
    returns (hr: HResult)
    modifies partitions
    ensures !system(DiskName(disk)).isOpen ==> hr == OpenFailed && partitions.items == old(partitions.items)
    ensures system(DiskName(disk)).isOpen ==>
      var w := Walk(TableReads(system(DiskName(disk))), disk, start, |old(partitions.items)|, fuel, AsWritten);
      hr == w.hr && partitions.items == old(partitions.items) + w.appended
  {
    var diskHandle := system(DiskName(disk));
    hr := Ok;
    if !diskHandle.isOpen {
      hr := OpenFailed;
    }
    if Succeeded(hr) {
      assert ReadsTablesOf(diskHandle, TableReads(diskHandle));
      hr := ReadDiskPartitionsFromHandle(partitions, diskHandle, TableReads(diskHandle), disk, start, fuel);
    }
  }

  /** What one disk contributes to a list of `existing` elements (nothing if it cannot be opened). */
  function DiskListing(system: string -> Device, disk: byte, existing: nat, fuel: nat, cap: CapTest): seq<DiskPartition>
  {
    var d := system(DiskName(disk));
    if d.isOpen then Walk(TableReads(d), disk, 0, existing, fuel, cap).appended else []
  }

  /** Disk 0's partitions followed by disk 1's, errors ignored. */
  function Listing(system: string -> Device, fuel: nat, cap: CapTest): seq<DiskPartition>
  {
    var first := DiskListing(system, 0, 0, fuel, cap);
    first + DiskListing(system, 1, |first|, fuel, cap)
  }

  /**
   * `populate_listview`: read the tables of disks 0 and 1 into one list, ignoring both
   * statuses, so disk 1 is read whatever happened on disk 0.
   */
  method PopulateListview(system: string -> Device, fuel: nat) returns (rows: seq<DiskPartition>)
    ensures rows == Listing(system, fuel, AsWritten)
    ensures |rows| <= MaxPartitions + PartitionTableEntryCount
    ensures forall p :: p in rows ==> Listed(p.entry) && p.disk in {0, 1}
  {
    var partitions := new PartitionList();
    var ignored := ReadDiskPartitions(partitions, system, 0, 0, fuel);
    ghost var first := partitions.items;
    assert first == DiskListing(system, 0, 0, fuel, AsWritten);
    ignored := ReadDiskPartitions(partitions, system, 1, 0, fuel);
    assert partitions.items == first + DiskListing(system, 1, |first|, fuel, AsWritten);
    rows := partitions.items;
    ListingBounds(system, fuel, AsWritten);
  }

  // ---------------------------------------------------------------------------
  // Properties of the walk.

  lemma {:induction false} ScanListed(entries: seq<PartitionTableEntry>, i: nat, disk: byte, count: nat, cap: CapTest)
    requires i <= |entries|
    decreases |entries| - i
    ensures var s := Scan(entries, i, disk, count, cap);
      && (forall p :: p in s ==> p.disk == disk && Listed(p.entry) && p.entry in entries[i..])
      && |s| <= |entries| - i
      && (count < MaxPartitions ==> count + |s| <= MaxPartitions)
      && (cap.Corrected? && count >= MaxPartitions ==> s == [])
  {
    if i < |entries| {
      ScanListed(entries, i + 1, disk, count, cap);
      ScanListed(entries, i + 1, disk, count + 1, cap);
      assert entries[i..] == [entries[i]] + entries[i + 1..];
    }
  }

  /**
   * Every appended element carries the walked disk's number and an entry that is neither
   * blank nor extended.
   */
  lemma {:induction false} WalkListed(tables: TableSource, disk: byte, start: uint32, existing: nat, fuel: nat, cap: CapTest)
    decreases fuel
    ensures forall p :: p in Walk(tables, disk, start, existing, fuel, cap).appended ==> p.disk == disk && Listed(p.entry)
  {
    var t := tables(start);
    if t.hr.Ok? {
      ScanListed(t.entries, 0, disk, existing, cap);
      var pushed := Scan(t.entries, 0, disk, existing, cap);
      if existing + |pushed| < MaxPartitions && FirstExtended(t.entries, 0).Some? && fuel > 0 {
        var e := FirstExtended(t.entries, 0).value;
        WalkListed(tables, disk, NextTableSector(start, e), existing + |pushed|, fuel - 1, cap);
      }
    }
  }

  /** A list below the cap is at most at the cap after the walk. */
  lemma {:induction false} WalkWithinCap(tables: TableSource, disk: byte, start: uint32, existing: nat, fuel: nat, cap: CapTest)
    requires existing < MaxPartitions
    decreases fuel
    ensures existing + |Walk(tables, disk, start, existing, fuel, cap).appended| <= MaxPartitions
  {
    var w := Walk(tables, disk, start, existing, fuel, cap);
    var t := tables(start);
    if t.hr.Ok? {
      ScanListed(t.entries, 0, disk, existing, cap);
      var pushed := Scan(t.entries, 0, disk, existing, cap);
      var total := existing + |pushed|;
      assert total <= MaxPartitions;
      if total < MaxPartitions && FirstExtended(t.entries, 0).Some? && fuel > 0 {
        var next := NextTableSector(start, FirstExtended(t.entries, 0).value);
        WalkWithinCap(tables, disk, next, total, fuel - 1, cap);
        var rest := Walk(tables, disk, next, total, fuel - 1, cap);
        assert w.appended == pushed + rest.appended;
      } else {
        assert w.appended == pushed;
      }
    }
  }

  /**
   * A walk that starts at or past the cap does not recurse: as written it appends at
   * most one table's entries, corrected it appends none.
   */
  lemma WalkPastCap(tables: TableSource, disk: byte, start: uint32, existing: nat, fuel: nat, cap: CapTest)
    requires WholeTables(tables) && existing >= MaxPartitions
    ensures |Walk(tables, disk, start, existing, fuel, cap).appended| <= PartitionTableEntryCount
    ensures cap.Corrected? ==> Walk(tables, disk, start, existing, fuel, cap).appended == []
  {
    var t := tables(start);
    if t.hr.Ok? {
      ScanListed(t.entries, 0, disk, existing, cap);
    }
  }

  /**
   * In terms of `read_sector_from_handle` as written: a failed read appends nothing and
   * returns its status, a short read is E_UNEXPECTED, and a full read is decoded as the
   * table. Only a sector larger than the buffer is refused, with TYPE_E_BUFFERTOOSMALL.
   */
  lemma WalkReadErrors(d: Device, disk: byte, start: uint32, existing: nat, fuel: nat, cap: CapTest)
    ensures var r := ReadSector(d, SectorSize, start);
      var w := Walk(TableReads(d), disk, start, existing, fuel, cap);
      && (SectorOverrunsBuffer(d, SectorSize) ==> w == WalkResult(BufferTooSmall, []))
      && (!SectorOverrunsBuffer(d, SectorSize) && !r.hr.Ok? ==> w == WalkResult(r.hr, []))
      && (!SectorOverrunsBuffer(d, SectorSize) && r.hr.Ok? && |r.data| < SectorSize ==> w == WalkResult(Unexpected, []))
      && (!SectorOverrunsBuffer(d, SectorSize) && r.hr.Ok? && |r.data| == SectorSize ==>
            ReadTable(d, start) == TableRead(Ok, TableEntries(r.data)))
  {
    CheckedReadFitsBuffer(d, SectorSize, start);
    CheckedReadAgrees(d, SectorSize, start);
  }

  /** The combined list of both disks: at most 36 as written, at most 32 corrected. */
  lemma ListingBounds(system: string -> Device, fuel: nat, cap: CapTest)
    ensures |Listing(system, fuel, cap)| <= MaxPartitions + PartitionTableEntryCount
    ensures cap.Corrected? ==> |Listing(system, fuel, cap)| <= MaxPartitions
    ensures forall p :: p in Listing(system, fuel, cap) ==> Listed(p.entry) && p.disk in {0, 1}
  {
    var first := DiskListing(system, 0, 0, fuel, cap);
    if system(DiskName(0)).isOpen {
      WalkListed(TableReads(system(DiskName(0))), 0, 0, 0, fuel, cap);
      WalkWithinCap(TableReads(system(DiskName(0))), 0, 0, 0, fuel, cap);
    }
    if system(DiskName(1)).isOpen {
      WalkListed(TableReads(system(DiskName(1))), 1, 0, |first|, fuel, cap);
      if |first| < MaxPartitions {
        WalkWithinCap(TableReads(system(DiskName(1))), 1, 0, |first|, fuel, cap);
      } else {
        DiskTablesAreWhole(system(DiskName(1)));
        WalkPastCap(TableReads(system(DiskName(1))), 1, 0, |first|, fuel, cap);
      }
    }
  }

  // ---------------------------------------------------------------------------
  // Disks that loop back to their own table.

  /** A 512-byte-sector disk whose every sector holds a boot record with `entries`. */
  function UniformDisk(entries: seq<PartitionTableEntry>): Device
    requires |entries| == PartitionTableEntryCount
  {
    Device(true, Geometry(SectorSize), _ => 0, _ => false, _ => MasterBootRecord(seq(446, _ => 0), entries))
  }

  /** Every sector of a uniform disk reads back as its table. */
  lemma UniformDiskTable(entries: seq<PartitionTableEntry>)
    requires |entries| == PartitionTableEntryCount
    ensures forall start :: TableReads(UniformDisk(entries))(start) == TableRead(Ok, entries)
  {
    forall start: uint32 ensures ReadTable(UniformDisk(entries), start) == TableRead(Ok, entries) {
      TableOfMasterBootRecord(seq(446, _ => 0), entries);
    }
  }

  /**
   * When the drive-geometry query fails the read falls back to the 512-byte buffer size,
   * so the same disk still reads back its table at every sector.
   */
  lemma GeometryFailureStillReads(entries: seq<PartitionTableEntry>, lastError: nat)
    requires |entries| == PartitionTableEntryCount
    ensures forall start :: TableReads(UniformDisk(entries).(geometry := GeometryFailed(lastError)))(start)
                            == TableRead(Ok, entries)
  {
    var d := UniformDisk(entries).(geometry := GeometryFailed(lastError));
    forall start: uint32 ensures ReadTable(d, start) == TableRead(Ok, entries) {
      TableOfMasterBootRecord(seq(446, _ => 0), entries);
      CheckedReadAgrees(d, SectorSize, start);
    }
  }

  /** A source that reads the same table at every sector. */
  ghost predicate Uniform(tables: TableSource, entries: seq<PartitionTableEntry>)
  {
    forall start :: tables(start) == TableRead(Ok, entries)
  }

  /** An extended entry whose start sector is 0: it names the table that holds it. */
  predicate SelfLink(e: PartitionTableEntry)
  {
    IsExtendedPartition(e.fileSystemType) && e.startSector == 0
  }

  /**
   * A table whose first entry links to itself and whose other entries are not listed:
   * the source recurses without end, and the walk exhausts any fuel, appending nothing.
   */
  lemma {:induction false} SelfLinkNeverEnds(tables: TableSource, entries: seq<PartitionTableEntry>, disk: byte,
                                             start: uint32, existing: nat, fuel: nat, cap: CapTest)
    requires Uniform(tables, entries)
    requires |entries| == PartitionTableEntryCount && SelfLink(entries[0])
    requires !Listed(entries[1]) && !Listed(entries[2]) && !Listed(entries[3])
    requires existing < MaxPartitions
    decreases fuel
    ensures Walk(tables, disk, start, existing, fuel, cap) == WalkResult(DepthExhausted, [])
  {
    assert tables(start) == TableRead(Ok, entries);
    assert Scan(entries, 3, disk, existing, cap) == [] by {
      assert Scan(entries, 4, disk, existing, cap) == [];
    }
    assert Scan(entries, 2, disk, existing, cap) == [];
    assert Scan(entries, 1, disk, existing, cap) == [];
    assert Scan(entries, 0, disk, existing, cap) == [];
    assert FirstExtended(entries, 0) == Some(entries[0]);
    if fuel > 0 {
      NextTableSectorWraps(start, entries[0]);
      SelfLinkNeverEnds(tables, entries, disk, start, existing, fuel - 1, cap);
      assert Walk(tables, disk, start, existing, fuel, cap) == Walk(tables, disk, start, existing, fuel - 1, cap);
    }
  }

  /** Three listed entries followed by a link back to the same table. */
  predicate LoopingTable(entries: seq<PartitionTableEntry>)
  {
    |entries| == PartitionTableEntryCount
    && Listed(entries[0]) && Listed(entries[1]) && Listed(entries[2]) && SelfLink(entries[3])
  }

  /** How many entries of a looping table the first loop appends to a list of `count`. */
  lemma ScanLooping(entries: seq<PartitionTableEntry>, disk: byte, count: nat, cap: CapTest)
    requires LoopingTable(entries)
    ensures count + 3 < MaxPartitions ==> |Scan(entries, 0, disk, count, cap)| == 3
    ensures count + 2 == MaxPartitions ==> |Scan(entries, 0, disk, count, cap)| == 2
    ensures count >= MaxPartitions ==> |Scan(entries, 0, disk, count, AsWritten)| == 3
    ensures count >= MaxPartitions ==> Scan(entries, 0, disk, count, Corrected) == []
  {
    assert !Listed(entries[3]);
    forall c: nat, k: CapTest ensures Scan(entries, 3, disk, c, k) == [] {
      assert Scan(entries, 4, disk, c, k) == [];
    }
    if count + 2 == MaxPartitions {
      assert |Scan(entries, 1, disk, count + 1, cap)| == 1;
    } else if count + 3 < MaxPartitions || count >= MaxPartitions {
      assert |Scan(entries, 2, disk, count + 2, AsWritten)| == 1;
      assert |Scan(entries, 1, disk, count + 1, AsWritten)| == 2;
      assert |Scan(entries, 2, disk, count + 2, cap)| == 1 || count >= MaxPartitions;
      assert |Scan(entries, 1, disk, count + 1, cap)| == 2 || count >= MaxPartitions;
    }
  }

  /** From a multiple of 3 up to 30, a looping disk fills the list to exactly 32. */
  lemma {:induction false} LoopingDiskFillsToCap(tables: TableSource, entries: seq<PartitionTableEntry>, disk: byte,
                                                 start: uint32, existing: nat, fuel: nat, cap: CapTest)
    requires Uniform(tables, entries) && LoopingTable(entries)
    requires existing % 3 == 0 && existing <= 30 && 3 * fuel >= 30 - existing
    decreases 30 - existing
    ensures existing + |Walk(tables, disk, start, existing, fuel, cap).appended| == MaxPartitions
  {
    assert tables(start) == TableRead(Ok, entries);
    var pushed := Scan(entries, 0, disk, existing, cap);
    ScanLooping(entries, disk, existing, cap);
    if existing == 30 {
      assert |pushed| == 2;
      assert Walk(tables, disk, start, existing, fuel, cap).appended == pushed;
    } else {
      assert |pushed| == 3;
      assert FirstExtended(entries, 0) == Some(entries[3]);
      NextTableSectorWraps(start, entries[3]);
      LoopingDiskFillsToCap(tables, entries, disk, start, existing + 3, fuel - 1, cap);
      var rest := Walk(tables, disk, start, existing + 3, fuel - 1, cap);
      assert Walk(tables, disk, start, existing, fuel, cap).appended == pushed + rest.appended;
    }
  }

  /** On a full list a looping disk appends its three entries as written, none corrected. */
  lemma LoopingDiskPastCap(tables: TableSource, entries: seq<PartitionTableEntry>, disk: byte, existing: nat, fuel: nat)
    requires Uniform(tables, entries) && LoopingTable(entries) && existing >= MaxPartitions
    ensures |Walk(tables, disk, 0, existing, fuel, AsWritten).appended| == 3
    ensures Walk(tables, disk, 0, existing, fuel, Corrected).appended == []
  {
    assert tables(0) == TableRead(Ok, entries);
    ScanLooping(entries, disk, existing, AsWritten);
  }

  /**
   * As written, when both disks hold a looping table, disk 0 fills the list to exactly 32,
   * the `==` test never fires again, and disk 1 appends three more: the displayed list
   * holds 35 rows, past the 32 that the display asserts. With the corrected test it
   * stops at 32.
   */
  lemma LoopingDisksExceedCap(entries: seq<PartitionTableEntry>)
    requires LoopingTable(entries)
    ensures |Listing(_ => UniformDisk(entries), 10, AsWritten)| == 35
    ensures |Listing(_ => UniformDisk(entries), 10, Corrected)| == MaxPartitions
  {
    var system: string -> Device := _ => UniformDisk(entries);
    var tables := TableReads(UniformDisk(entries));
    UniformDiskTable(entries);
    LoopingDiskFillsToCap(tables, entries, 0, 0, 0, 10, AsWritten);
    LoopingDiskFillsToCap(tables, entries, 0, 0, 0, 10, Corrected);
    LoopingDiskPastCap(tables, entries, 1, 32, 10);
    assert |DiskListing(system, 0, 0, 10, AsWritten)| == 32;
    assert |DiskListing(system, 0, 0, 10, Corrected)| == 32;
  }

  /** A table of that shape: three NTFS entries and an extended entry at start sector 0. */
  lemma LoopingTableExists()
    ensures var ntfs := PartitionTableEntry(0x80, 1, 1, 0, 0x07, 254, 63, 255, 63, 1000);
      var link := PartitionTableEntry(0, 0, 0, 0, 0x05, 0, 0, 0, 0, 0);
      LoopingTable([ntfs, ntfs, ntfs, link])
  {
  }

  // ---------------------------------------------------------------------------
  // Display values of a row.

  /** `get_file_system_name_from_type`: "(XX) name" for a known type, "(XX)" otherwise. */
  function FileSystemLabel(fileSystemType: byte): (text: string)
    ensures 4 <= |text| && |text| + 1 <= LabelCapacity
    ensures text[0] == '(' && text[3] == ')'
  {
    var code := "(" + Hex2(fileSystemType) + ")";
    FileSystemNameShort(fileSystemType);
    match GetFileSystemName(fileSystemType)
    case Some(name) => code + " " + name
    case None => code
  }

  /** Capacity of each text cell, terminator included. */
  const LabelCapacity: nat := 32

  /**
   * The text opens with the type byte in two upper-case hex digits that read back as
   * the type, carries the table's name exactly when the type is known, and fits a text
   * cell with its terminator.
   */
  lemma FileSystemLabelParts(fileSystemType: byte)
    ensures var text := FileSystemLabel(fileSystemType);
      && |text| >= 4 && text[0] == '(' && text[3] == ')'
      && HexCharValue(text[1]) * 16 + HexCharValue(text[2]) == fileSystemType
      && (GetFileSystemName(fileSystemType).None? <==> |text| == 4)
      && (GetFileSystemName(fileSystemType).Some? ==> text[4..] == " " + GetFileSystemName(fileSystemType).value)
      && |text| + 1 <= LabelCapacity
  {
    Hex2RoundTrip(fileSystemType);
    LabelText(Hex2(fileSystemType), GetFileSystemName(fileSystemType), FileSystemLabel(fileSystemType));
  }

  /** Where the hex code and the name sit in a label. */
  lemma LabelText(hex: string, name: Option<string>, text: string)
    requires |hex| == 2
    requires text == match name case Some(n) => "(" + hex + ")" + " " + n case None => "(" + hex + ")"
    ensures |text| >= 4 && text[0] == '(' && text[3] == ')' && text[1] == hex[0] && text[2] == hex[1]
    ensures name.None? <==> |text| == 4
    ensures name.Some? ==> text[4..] == " " + name.value
  {
    if name.Some? {
      assert text == "(" + hex + ")" + (" " + name.value);
    }
  }

  /** The values a row of the list shows, column by column. */
  datatype PartitionRow = PartitionRow(
    bootable: bool,
    fileSystem: string,
    sizeInBytes: nat,
    driveNumber: nat,
    beginHead: nat,
    beginCylinder: nat,
    beginSector: nat,
    endHead: nat,
    endCylinder: nat,
    endSector: nat,
    startSector: nat)

  /** The row `output_partition_table_info` builds for one element of the list. */
  function RowOf(p: DiskPartition): (row: PartitionRow)
    ensures |row.fileSystem| + 1 <= LabelCapacity
    ensures row.sizeInBytes < TwoTo64 && row.sizeInBytes / SectorSize == p.entry.sectors
  {
    var e := p.entry;
    PartitionRow(e.bootable == 0x80, FileSystemLabel(e.fileSystemType),
                 e.sectors * SectorSize, p.disk,
                 e.beginHead, e.beginCylinder, e.beginSector,
                 e.endHead, e.endCylinder, e.endSector, e.startSector)
  }

  /**
   * A row shows "yes" only for boot flag 0x80 (0x01 or 0xFF are "no"), and the size in
   * bytes, computed in 64 bits, never wraps: it is the sector count times 512 exactly.
   */
  lemma RowValues(p: DiskPartition)
    ensures RowOf(p).bootable <==> p.entry.bootable == 0x80
    ensures RowOf(p).sizeInBytes < TwoTo64
    ensures RowOf(p).sizeInBytes / SectorSize == p.entry.sectors
    ensures RowOf(p).sizeInBytes % TwoTo64 == p.entry.sectors * SectorSize
  {
  }
}
