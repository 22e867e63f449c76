/**
 * The older shared copy of the partition-table declarations (shared/directread.h):
 * the same entry count and the same packed entry, declared a second time.
 */
module SharedDirectRead {
  import opened Packed
  import DirectRead

  const PartitionTableEntryCount: nat := 4

  /** The packed entry as this header declares it. */
  const PartitionTableEntryLayout: seq<Field> := [
    Field("bootable", 1),
    Field("begin_head", 1),
    Field("begin_sector", 1),
    Field("begin_cylinder", 1),
    Field("file_system_type", 1),
    Field("end_head", 1),
    Field("end_sector", 1),
    Field("end_cylinder", 1),
    Field("start_sector", 4),
    Field("sectors", 4)
  ]

  /**
   * Field by field the two declarations are the same, so the shared entry is 16 bytes
   * with the type byte at offset 4 and the 32-bit fields at 8 and 12, and a table of
   * four of them with its signature fills the last 66 bytes of a sector.
   */
  lemma SameLayoutAsDiskTools()
    ensures PartitionTableEntryCount == DirectRead.PartitionTableEntryCount
    ensures PartitionTableEntryLayout == DirectRead.PartitionTableEntryLayout
    ensures SizeOf(PartitionTableEntryLayout) == 16
    ensures OffsetOf(PartitionTableEntryLayout, 4) == 4 && PartitionTableEntryLayout[4].width == 1
    ensures OffsetOf(PartitionTableEntryLayout, 8) == 8 && PartitionTableEntryLayout[8].width == 4
    ensures OffsetOf(PartitionTableEntryLayout, 9) == 12 && PartitionTableEntryLayout[9].width == 4
    ensures PartitionTableEntryCount * SizeOf(PartitionTableEntryLayout) + 2 == 66
  {
    DirectRead.EntryLayout();
  }

  /**
   * Decoding under this header's layout gives, field for field, DirectRead's entry: all
   * ten members, the CHS bytes included, read the same bytes.
   */
  lemma DecodersAgree(bytes: seq<byte>)
    requires |bytes| == 16
    ensures SizeOf(PartitionTableEntryLayout) == |bytes|
    ensures forall k :: 0 <= k < |PartitionTableEntryLayout| ==>
      FieldValue(bytes, PartitionTableEntryLayout, k) == FieldValue(bytes, DirectRead.PartitionTableEntryLayout, k)
    ensures var e := DirectRead.DecodeEntry(bytes);
      && e.bootable == FieldValue(bytes, PartitionTableEntryLayout, 0)
      && e.beginHead == FieldValue(bytes, PartitionTableEntryLayout, 1)
      && e.beginSector == FieldValue(bytes, PartitionTableEntryLayout, 2)
      && e.beginCylinder == FieldValue(bytes, PartitionTableEntryLayout, 3)
      && e.fileSystemType == FieldValue(bytes, PartitionTableEntryLayout, 4)
      && e.endHead == FieldValue(bytes, PartitionTableEntryLayout, 5)
      && e.endSector == FieldValue(bytes, PartitionTableEntryLayout, 6)
      && e.endCylinder == FieldValue(bytes, PartitionTableEntryLayout, 7)
      && e.startSector == FieldValue(bytes, PartitionTableEntryLayout, 8)
      && e.sectors == FieldValue(bytes, PartitionTableEntryLayout, 9)
  {
    SameLayoutAsDiskTools();
    DirectRead.DecodeFollowsLayout(bytes);
  }
}
