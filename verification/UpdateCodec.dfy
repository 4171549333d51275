/** The stripped encodings of announcements and updates, and the client's reader for them. */
module UpdateCodec {
  import opened Wrappers
  import opened GossipTypes
  import opened ByteCodec

  /** Which properties of a channel direction changed since the reference update. */
  datatype MutatedProperties = MutatedProperties(flags: bool, fields: FieldMask) {
    /** The number of changed routing values; the flag byte is always sent and not counted. */
    function Len(): (n: nat)
      ensures n == 5 <==> fields == FULL_MASK
      ensures n == 0 <==> fields == EMPTY_MASK
    {
      (if fields.cltvExpiryDelta then 1 else 0)
      + (if fields.htlcMinimumMsat then 1 else 0)
      + (if fields.feeBaseMsat then 1 else 0)
      + (if fields.feeProportionalMillionths then 1 else 0)
      + (if fields.htlcMaximumMsat then 1 else 0)
    }
  }

  const UNMUTATED := MutatedProperties(false, EMPTY_MASK)

  datatype UpdateSerialization =
    | Full(update: ChannelUpdate)
    | Incremental(update: ChannelUpdate, mutated: MutatedProperties)
    | Reminder(reminderScid: U64, reminderFlags: U8)
  {
    function Scid(): U64 {
      if Reminder? then reminderScid else update.scid
    }

    function Flags(): U8 {
      if Reminder? then reminderFlags else update.channelFlags
    }

    /** The routing values that are written out. */
    function Carried(defaults: RoutingValues): FieldMask {
      match this
      case Full(u) => Difference(u.values, defaults)
      case Incremental(_, m) => m.fields
      case Reminder(_, _) => EMPTY_MASK
    }

    function Values(): RoutingValues {
      if Reminder? then ZERO_VALUES else update.values
    }
  }

  /** What a client learns from one update record. In an incremental one, values outside `carried` read 0. */
  datatype WireUpdate =
    | WireFull(scid: U64, flags: U8, values: RoutingValues)
    | WireIncremental(scid: U64, flags: U8, carried: FieldMask, values: RoutingValues)

  /** The meaning of an update, whatever the defaults it is compressed against. */
  function Meaning(u: UpdateSerialization): WireUpdate {
    match u
    case Full(x) => WireFull(x.scid, x.channelFlags, x.values)
    case Incremental(x, m) =>
      WireIncremental(x.scid, x.channelFlags, m.fields, Merge(ZERO_VALUES, m.fields, x.values))
    case Reminder(scid, flags) => WireIncremental(scid, flags, EMPTY_MASK, ZERO_VALUES)
  }

  predicate HasBit(b: U8, bit: U8) {
    match bit
    case 4 => b / 4 % 2 == 1
    case 8 => b / 8 % 2 == 1
    case 16 => b / 16 % 2 == 1
    case 32 => b / 32 % 2 == 1
    case 64 => b / 64 % 2 == 1
    case 128 => b / 128 % 2 == 1
    case _ => false
  }

  /** Bitwise OR of `b` with one of the bits 2 to 7. */
  function SetBit(b: U8, bit: U8): (r: U8)
    requires bit in {4, 8, 16, 32, 64, 128}
    ensures r == b || r == b + bit
  {
    if HasBit(b, bit) then b else b + bit
  }

  /** ORing in a bit above the flags and below all bits set so far adds it. */
  lemma SetFreshBit(low: U8, bit: U8, high: nat)
    requires bit in {4, 8, 16, 32, 64, 128} && low < 4 && low + high * (2 * bit) < 256
    ensures low + high * (2 * bit) + bit < 256
    ensures SetBit(low + high * (2 * bit), bit) == low + high * (2 * bit) + bit
  {
    var b := low + high * (2 * bit);
    match bit {
      case 4 => assert b / 4 == 2 * high;
      case 8 => assert b / 8 == 2 * high;
      case 16 => assert b / 16 == 2 * high;
      case 32 => assert b / 32 == 2 * high;
      case 64 => assert b / 64 == 2 * high;
      case 128 => assert b / 128 == 2 * high;
      case _ =>
    }
  }

  /** Bits 7 to 2 of a record's flag byte: incremental, then one bit per carried value. */
  function HighBits(incremental: bool, m: FieldMask): (b: nat)
    ensures b < 64
  {
    ((((Num(incremental) * 2 + Num(m.cltvExpiryDelta)) * 2 + Num(m.htlcMinimumMsat)) * 2 + Num(m.feeBaseMsat)) * 2
      + Num(m.feeProportionalMillionths)) * 2 + Num(m.htlcMaximumMsat)
  }

  /** The flag byte: the two channel flags below the six record bits. */
  function FlagByte(flags: U8, incremental: bool, m: FieldMask): (b: U8)
    requires flags < 4
  {
    HighBits(incremental, m) * 4 + flags
  }

  predicate IsIncremental(b: U8) {
    b / 4 / 2 / 2 / 2 / 2 / 2 % 2 == 1
  }

  function MaskOf(b: U8): FieldMask {
    FieldMask(
      b / 4 / 2 / 2 / 2 / 2 % 2 == 1, b / 4 / 2 / 2 / 2 % 2 == 1, b / 4 / 2 / 2 % 2 == 1,
      b / 4 / 2 % 2 == 1, b / 4 % 2 == 1)
  }

  lemma FlagByteRoundTrip(flags: U8, incremental: bool, m: FieldMask)
    requires flags < 4
    ensures var b := FlagByte(flags, incremental, m);
            b % 4 == flags && IsIncremental(b) == incremental && MaskOf(b) == m
  {
    var r7 := Num(incremental);
    var r6 := r7 * 2 + Num(m.cltvExpiryDelta);
    var r5 := r6 * 2 + Num(m.htlcMinimumMsat);
    var r4 := r5 * 2 + Num(m.feeBaseMsat);
    var r3 := r4 * 2 + Num(m.feeProportionalMillionths);
    var r2 := r3 * 2 + Num(m.htlcMaximumMsat);
    var b := FlagByte(flags, incremental, m);
    assert b == r2 * 4 + flags && b / 4 == r2;
    assert r2 / 2 == r3 && r3 / 2 == r4 && r4 / 2 == r5 && r5 / 2 == r6 && r6 / 2 == r7;
  }

  /** The masked values in wire order. */
  function WriteMasked(m: FieldMask, v: RoutingValues): Bytes {
    Part16(m.cltvExpiryDelta, v.cltvExpiryDelta)
    + Part64(m.htlcMinimumMsat, v.htlcMinimumMsat)
    + Part32(m.feeBaseMsat, v.feeBaseMsat)
    + Part32(m.feeProportionalMillionths, v.feeProportionalMillionths)
    + Part64(m.htlcMaximumMsat, v.htlcMaximumMsat)
  }

  function OptionalU16(present: bool, default: U16, s: Bytes): Option<(U16, Bytes)> {
    if present then ReadU16(s) else Some((default, s))
  }

  function OptionalU32(present: bool, default: U32, s: Bytes): Option<(U32, Bytes)> {
    if present then ReadU32(s) else Some((default, s))
  }

  function OptionalU64(present: bool, default: U64, s: Bytes): Option<(U64, Bytes)> {
    if present then ReadU64(s) else Some((default, s))
  }

  /** Reads the masked values and takes the others from `base`. */
  function ReadMasked(m: FieldMask, base: RoutingValues, s: Bytes): Option<(RoutingValues, Bytes)> {
    var (cltv, s) :- OptionalU16(m.cltvExpiryDelta, base.cltvExpiryDelta, s);
    var (htlcMin, s) :- OptionalU64(m.htlcMinimumMsat, base.htlcMinimumMsat, s);
    var (feeBase, s) :- OptionalU32(m.feeBaseMsat, base.feeBaseMsat, s);
    var (feeRate, s) :- OptionalU32(m.feeProportionalMillionths, base.feeProportionalMillionths, s);
    var (htlcMax, s) :- OptionalU64(m.htlcMaximumMsat, base.htlcMaximumMsat, s);
    Some((RoutingValues(cltv, htlcMin, feeBase, feeRate, htlcMax), s))
  }

  lemma Part16RoundTrip(present: bool, default: U16, n: U16, rest: Bytes)
    ensures OptionalU16(present, default, Part16(present, n) + rest)
         == Some((if present then n else default, rest))
  {
    if present { ReadWrittenU16(n, rest); } else { assert [] + rest == rest; }
  }

  lemma Part32RoundTrip(present: bool, default: U32, n: U32, rest: Bytes)
    ensures OptionalU32(present, default, Part32(present, n) + rest)
         == Some((if present then n else default, rest))
  {
    if present { ReadWrittenU32(n, rest); } else { assert [] + rest == rest; }
  }

  lemma Part64RoundTrip(present: bool, default: U64, n: U64, rest: Bytes)
    ensures OptionalU64(present, default, Part64(present, n) + rest)
         == Some((if present then n else default, rest))
  {
    if present { ReadWrittenU64(n, rest); } else { assert [] + rest == rest; }
  }

  function Kept(present: bool, s: Bytes): Bytes { if present then s else [] }
  function Part16(present: bool, n: U16): Bytes { Kept(present, WriteU16(n)) }
  function Part32(present: bool, n: U32): Bytes { Kept(present, WriteU32(n)) }
  function Part64(present: bool, n: U64): Bytes { Kept(present, WriteU64(n)) }

  lemma MaskedRoundTrip(m: FieldMask, base: RoutingValues, v: RoutingValues, rest: Bytes)
    ensures ReadMasked(m, base, WriteMasked(m, v) + rest) == Some((Merge(base, m, v), rest))
  {
    hide ReadU16, ReadU32, ReadU64, WriteU16, WriteU32, WriteU64, Kept, OptionalU16, OptionalU32, OptionalU64;
    var p1 := Part16(m.cltvExpiryDelta, v.cltvExpiryDelta);
    var p2 := Part64(m.htlcMinimumMsat, v.htlcMinimumMsat);
    var p3 := Part32(m.feeBaseMsat, v.feeBaseMsat);
    var p4 := Part32(m.feeProportionalMillionths, v.feeProportionalMillionths);
    var p5 := Part64(m.htlcMaximumMsat, v.htlcMaximumMsat);
    Reassociate(p1, p2, p3, p4, p5, rest);
    Part16RoundTrip(m.cltvExpiryDelta, base.cltvExpiryDelta, v.cltvExpiryDelta, p2 + (p3 + (p4 + (p5 + rest))));
    Part64RoundTrip(m.htlcMinimumMsat, base.htlcMinimumMsat, v.htlcMinimumMsat, p3 + (p4 + (p5 + rest)));
    Part32RoundTrip(m.feeBaseMsat, base.feeBaseMsat, v.feeBaseMsat, p4 + (p5 + rest));
    Part32RoundTrip(
      m.feeProportionalMillionths, base.feeProportionalMillionths, v.feeProportionalMillionths, p5 + rest);
    Part64RoundTrip(m.htlcMaximumMsat, base.htlcMaximumMsat, v.htlcMaximumMsat, rest);
  }

  lemma Reassociate(a: Bytes, b: Bytes, c: Bytes, d: Bytes, e: Bytes, f: Bytes)
    ensures a + b + c + d + e + f == a + (b + (c + (d + (e + f))))
  {
  }

  /** The bytes of one update record, following a record for `previousScid`. */
  function StrippedUpdate(u: UpdateSerialization, defaults: RoutingValues, previousScid: U64): Bytes
    requires previousScid <= u.Scid() && u.Flags() < 4
  {
    WriteBigSize(u.Scid() - previousScid)
    + [FlagByte(u.Flags(), !u.Full?, u.Carried(defaults))]
    + WriteMasked(u.Carried(defaults), u.Values())
  }

  /** The client's reader of one update record. */
  function ReadUpdate(defaults: RoutingValues, previousScid: U64, s: Bytes): Option<(WireUpdate, Bytes)> {
    var (delta, s) :- ReadBigSize(s);
    var (b, s) :- ReadU8(s);
    var scid := previousScid + delta;
    if scid > U64_MAX then None
    else if IsIncremental(b) then
      var (values, s) :- ReadMasked(MaskOf(b), ZERO_VALUES, s);
      Some((WireIncremental(scid, b % 4, MaskOf(b), values), s))
    else
      var (values, s) :- ReadMasked(MaskOf(b), defaults, s);
      Some((WireFull(scid, b % 4, values), s))
  }

  /** The record loses nothing: scid, flags and values come back, defaults filled in for a full update. */
  lemma UpdateRoundTrip(u: UpdateSerialization, defaults: RoutingValues, previousScid: U64, rest: Bytes)
    requires previousScid <= u.Scid() && u.Flags() < 4
    ensures ReadUpdate(defaults, previousScid, StrippedUpdate(u, defaults, previousScid) + rest)
         == Some((Meaning(u), rest))
  {
    hide ReadBigSize, WriteBigSize, ReadMasked, WriteMasked, MaskOf, IsIncremental, FlagByte;
    var m := u.Carried(defaults);
    var b := FlagByte(u.Flags(), !u.Full?, m);
    var tail := WriteMasked(m, u.Values()) + rest;
    assert StrippedUpdate(u, defaults, previousScid) + rest
        == WriteBigSize(u.Scid() - previousScid) + ([b] + tail);
    ReadWrittenBigSize(u.Scid() - previousScid, [b] + tail);
    assert ([b] + tail)[1..] == tail;
    FlagByteRoundTrip(u.Flags(), !u.Full?, m);
    MaskedRoundTrip(m, if u.Full? then defaults else ZERO_VALUES, u.Values(), rest);
  }

  /** One conditional field of the writer: OR the field's bit into the flag byte and append its bytes. */
  method WriteField(present: bool, bit: U8, encoded: Bytes, flags: U8, written: Bytes, ghost low: U8, ghost high: nat)
    returns (flags': U8, written': Bytes)
    requires bit in {4, 8, 16, 32, 64, 128} && low < 4 && flags == low + high * (2 * bit)
    ensures flags' == low + (high * 2 + Num(present)) * bit
    ensures written' == written + Kept(present, encoded)
  {
    flags', written' := flags, written;
    if present {
      SetFreshBit(low, bit, high);
      flags' := SetBit(flags, bit);
      written' := written + encoded;
    }
  }

  /** The incremental bit and the first two conditional fields. */
  method WriteLeadingFields(m: FieldMask, incremental: bool, low: U8, cltv: Bytes, htlcMin: Bytes)
    returns (flags: U8, delta: Bytes)
    requires low < 4
    ensures flags == low + ((Num(incremental) * 2 + Num(m.cltvExpiryDelta)) * 2 + Num(m.htlcMinimumMsat)) * 0x20
    ensures delta == Kept(m.cltvExpiryDelta, cltv) + Kept(m.htlcMinimumMsat, htlcMin)
  {
    hide Kept, Num;
    flags, delta := WriteField(incremental, 0x80, [], low, [], low, 0);
    ghost var high := Num(incremental);
    flags, delta := WriteField(m.cltvExpiryDelta, 0x40, cltv, flags, [], low, high);
    assert delta == Kept(m.cltvExpiryDelta, cltv);
    high := high * 2 + Num(m.cltvExpiryDelta);
    flags, delta := WriteField(m.htlcMinimumMsat, 0x20, htlcMin, flags, delta, low, high);
  }

  /** The last three conditional fields, given the bits above them. */
  method WriteTrailingFields(
    m: FieldMask, low: U8, ghost high: nat, flags0: U8, delta0: Bytes, feeBase: Bytes, feeRate: Bytes, htlcMax: Bytes)
    returns (flags: U8, delta: Bytes)
    requires low < 4 && flags0 == low + high * 0x20
    ensures flags == low + (((high * 2 + Num(m.feeBaseMsat)) * 2 + Num(m.feeProportionalMillionths)) * 2
                            + Num(m.htlcMaximumMsat)) * 4
    ensures delta == delta0 + Kept(m.feeBaseMsat, feeBase) + Kept(m.feeProportionalMillionths, feeRate)
                   + Kept(m.htlcMaximumMsat, htlcMax)
  {
    hide Kept, Num;
    ghost var h := high;
    flags, delta := WriteField(m.feeBaseMsat, 0x10, feeBase, flags0, delta0, low, h);
    h := h * 2 + Num(m.feeBaseMsat);
    flags, delta := WriteField(m.feeProportionalMillionths, 0x08, feeRate, flags, delta, low, h);
    h := h * 2 + Num(m.feeProportionalMillionths);
    flags, delta := WriteField(m.htlcMaximumMsat, 0x04, htlcMax, flags, delta, low, h);
  }

  /** The conditional fields in the order of the source, given the encoding of each. */
  method WriteFields(
    m: FieldMask, incremental: bool, low: U8, cltv: Bytes, htlcMin: Bytes, feeBase: Bytes, feeRate: Bytes,
    htlcMax: Bytes)
    returns (flags: U8, delta: Bytes)
    requires low < 4
    ensures flags == FlagByte(low, incremental, m)
    ensures delta == Kept(m.cltvExpiryDelta, cltv) + Kept(m.htlcMinimumMsat, htlcMin) + Kept(m.feeBaseMsat, feeBase)
                   + Kept(m.feeProportionalMillionths, feeRate) + Kept(m.htlcMaximumMsat, htlcMax)
  {
    hide Kept, Num;
    flags, delta := WriteLeadingFields(m, incremental, low, cltv, htlcMin);
    ghost var high := (Num(incremental) * 2 + Num(m.cltvExpiryDelta)) * 2 + Num(m.htlcMinimumMsat);
    flags, delta := WriteTrailingFields(m, low, high, flags, delta, feeBase, feeRate, htlcMax);
  }

  /**
   * The writer itself: it ORs one flag bit per written value into the flag byte while it appends the value.
   * The panic of the source ("unsorted scids!") is excluded by the caller's order.
   */
  method SerializeStrippedChannelUpdate(u: UpdateSerialization, defaults: RoutingValues, previousScid: U64)
    returns (prefixed: Bytes)
    requires previousScid <= u.Scid() && u.Flags() < 4
    ensures prefixed == StrippedUpdate(u, defaults, previousScid)
  {
    var v := u.Values();
    var flags, delta := WriteFields(u.Carried(defaults), !u.Full?, u.Flags(),
      WriteU16(v.cltvExpiryDelta), WriteU64(v.htlcMinimumMsat), WriteU32(v.feeBaseMsat),
      WriteU32(v.feeProportionalMillionths), WriteU64(v.htlcMaximumMsat));
    prefixed := WriteBigSize(u.Scid() - previousScid);
    prefixed := prefixed + [flags];
    prefixed := prefixed + delta;
  }

  /** The bytes of one announcement record; node ids are replaced by their positions in the blob's list. */
  function StrippedAnnouncement(a: ChannelAnnouncement, index1: U64, index2: U64, previousScid: U64): Bytes
    requires previousScid <= a.scid
  {
    WriteFeatures(a.features) + WriteBigSize(a.scid - previousScid) + WriteBigSize(index1) + WriteBigSize(index2)
  }

  /** The client's reader of one announcement record. */
  function ReadAnnouncement(ids: seq<NodeId>, previousScid: U64, s: Bytes): Option<(ChannelAnnouncement, Bytes)> {
    var (features, s) :- ReadFeatures(s);
    var (delta, s) :- ReadBigSize(s);
    var (index1, s) :- ReadBigSize(s);
    var (index2, s) :- ReadBigSize(s);
    var scid := previousScid + delta;
    if scid > U64_MAX || index1 >= |ids| || index2 >= |ids| then None
    else Some((ChannelAnnouncement(scid, features, ids[index1], ids[index2]), s))
  }

  lemma AnnouncementRoundTrip(
    a: ChannelAnnouncement, index1: U64, index2: U64, previousScid: U64, ids: seq<NodeId>, rest: Bytes)
    requires previousScid <= a.scid
    requires index1 < |ids| && ids[index1] == a.nodeId1
    requires index2 < |ids| && ids[index2] == a.nodeId2
    ensures ReadAnnouncement(ids, previousScid, StrippedAnnouncement(a, index1, index2, previousScid) + rest)
         == Some((a, rest))
  {
    hide WriteFeatures, ReadFeatures, WriteBigSize, ReadBigSize;
    var s3 := WriteBigSize(index2) + rest;
    var s2 := WriteBigSize(index1) + s3;
    var s1 := WriteBigSize(a.scid - previousScid) + s2;
    assert StrippedAnnouncement(a, index1, index2, previousScid) + rest == WriteFeatures(a.features) + s1 by {
      Reassociate(
        WriteFeatures(
          a.features), WriteBigSize(a.scid - previousScid), WriteBigSize(index1), WriteBigSize(index2), [], rest);
    }
    ReadWrittenFeatures(a.features, s1);
    ReadWrittenBigSize(a.scid - previousScid, s2);
    ReadWrittenBigSize(index1, s3);
    ReadWrittenBigSize(index2, rest);
  }
}
