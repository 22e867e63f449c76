/**
 * Fixed-width integers, little-endian byte order and byte-packed record layouts
 * (the `#pragma pack(push, 1)` structures of the disk tools).
 */
module Packed {

  type byte = x: int | 0 <= x < 0x100
  type uint16 = x: int | 0 <= x < 0x1_0000
  type uint32 = x: int | 0 <= x < 0x1_0000_0000
  type uint64 = x: int | 0 <= x < 0x1_0000_0000_0000_0000

  const TwoTo32: nat := 0x1_0000_0000
  const TwoTo64: nat := 0x1_0000_0000_0000_0000

  /** 256^n: one more than the largest value an n-byte field holds. */
  function Pow256(n: nat): (p: nat)
    ensures p >= 1
  {
    if n == 0 then 1 else 256 * Pow256(n - 1)
  }

  /** The value of a little-endian byte string (x86 layout of the packed fields). */
  function LittleEndian(bs: seq<byte>): (v: nat)
    ensures v < Pow256(|bs|)
  {
    if bs == [] then 0 else bs[0] + 256 * LittleEndian(bs[1..])
  }

  /** The `width` little-endian bytes that store `v`. */
  function ToLittleEndian(v: nat, width: nat): (bs: seq<byte>)
    requires v < Pow256(width)
    ensures |bs| == width
  {
    if width == 0 then [] else [v % 256] + ToLittleEndian(v / 256, width - 1)
  }

  lemma {:induction false} LittleEndianRoundTrip(v: nat, width: nat)
    requires v < Pow256(width)
    ensures LittleEndian(ToLittleEndian(v, width)) == v
  {
    if width > 0 {
      LittleEndianRoundTrip(v / 256, width - 1);
      assert ToLittleEndian(v, width)[1..] == ToLittleEndian(v / 256, width - 1);
    }
  }

  lemma {:induction false} ToLittleEndianRoundTrip(bs: seq<byte>)
    ensures ToLittleEndian(LittleEndian(bs), |bs|) == bs
  {
    if bs != [] {
      ToLittleEndianRoundTrip(bs[1..]);
      var v := LittleEndian(bs);
      assert v % 256 == bs[0] && v / 256 == LittleEndian(bs[1..]);
    }
  }

  /** One member of a packed record: its name and its size in bytes. */
  datatype Field = Field(name: string, width: nat)

  /** Size of a packed record: the field widths added up, no padding anywhere. */
  function SizeOf(fields: seq<Field>): nat
  {
    if fields == [] then 0 else fields[0].width + SizeOf(fields[1..])
  }

  /** Byte offset of field k in a packed record: the sizes of the fields before it. */
  function OffsetOf(fields: seq<Field>, k: nat): nat
    requires k <= |fields|
  {
    SizeOf(fields[..k])
  }

  lemma {:induction false} SizeOfAppend(a: seq<Field>, b: seq<Field>)
    ensures SizeOf(a + b) == SizeOf(a) + SizeOf(b)
  {
    if a == [] {
      assert a + b == b;
    } else {
      assert (a + b)[1..] == a[1..] + b;
      SizeOfAppend(a[1..], b);
    }
  }

  /** Fields occupy consecutive, non-overlapping byte ranges that end at the record size. */
  lemma FieldsTile(fields: seq<Field>, k: nat)
    requires k < |fields|
    ensures OffsetOf(fields, k + 1) == OffsetOf(fields, k) + fields[k].width
    ensures OffsetOf(fields, k) + fields[k].width <= SizeOf(fields)
  {
    assert fields[..k + 1] == fields[..k] + [fields[k]];
    SizeOfAppend(fields[..k], [fields[k]]);
    assert fields == fields[..k + 1] + fields[k + 1..];
    SizeOfAppend(fields[..k + 1], fields[k + 1..]);
  }

  /** Value of field k of a packed record stored in `bytes`, read little-endian. */
  function FieldValue(bytes: seq<byte>, fields: seq<Field>, k: nat): nat
    requires k < |fields| && |bytes| == SizeOf(fields)
  {
    FieldsTile(fields, k);
    LittleEndian(bytes[OffsetOf(fields, k)..OffsetOf(fields, k) + fields[k].width])
  }

  /**
   * `offsets` lists where each field starts and, last, the record size: it starts at 0
   * and each entry is the one before plus the width of the field before.
   */
  predicate PrefixSums(fields: seq<Field>, offsets: seq<nat>)
  {
    && |offsets| == |fields| + 1
    && offsets[0] == 0
    && forall k :: 0 <= k < |fields| ==> offsets[k + 1] == offsets[k] + fields[k].width
  }

  /** A table of prefix sums gives every field's offset and the record size. */
  lemma OffsetsFromPrefixSums(fields: seq<Field>, offsets: seq<nat>)
    requires PrefixSums(fields, offsets)
    ensures forall k :: 0 <= k <= |fields| ==> OffsetOf(fields, k) == offsets[k]
    ensures SizeOf(fields) == offsets[|fields|]
  {
    forall k | 0 <= k <= |fields| ensures OffsetOf(fields, k) == offsets[k] {
      OffsetFromPrefixSums(fields, offsets, k);
    }
    assert fields[..|fields|] == fields;
  }

  lemma {:induction false} OffsetFromPrefixSums(fields: seq<Field>, offsets: seq<nat>, k: nat)
    requires PrefixSums(fields, offsets) && k <= |fields|
    ensures OffsetOf(fields, k) == offsets[k]
  {
    if k == 0 {
      assert fields[..0] == [];
    } else {
      OffsetFromPrefixSums(fields, offsets, k - 1);
      FieldsTile(fields, k - 1);
    }
  }
}
