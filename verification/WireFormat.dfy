/** The wire format in literal bytes, independent of the project's own readers. */
module WireFormat {
  import opened Wrappers
  import opened GossipTypes
  import opened ByteCodec
  import opened UpdateCodec
  import opened NodeLookup
  import opened NodeCodec
  import opened Serialization
  import opened Rounding
  import opened Blob

  // ---------------------------------------------------------------------------------------------
  // Integers
  // ---------------------------------------------------------------------------------------------

  lemma SmallBigEndian(n: U8)
    ensures BigEndian(n, 1) == [n] && BigEndian(n, 2) == [0, n] && BigEndian(n, 4) == [0, 0, 0, n]
    ensures BigEndian(n, 8) == [0, 0, 0, 0, 0, 0, 0, n]
  {
    assert n % 256 == n && n / 256 == 0;
    assert BigEndian(0, 1) == [0] && BigEndian(0, 2) == [0, 0] && BigEndian(0, 3) == [0, 0, 0];
    assert BigEndian(0, 5) == [0, 0] + BigEndian(0, 3);
    assert BigEndian(0, 7) == BigEndian(0, 5) + [0, 0];
  }

  lemma VectorsOfTwo()
    ensures BigEndian(0xFD, 2) == [0x00, 0xFD] && BigEndian(0xFFFF, 2) == [0xFF, 0xFF]
  {
  }

  lemma VectorsOfFour()
    ensures BigEndian(0x1_0000, 4) == [0x00, 0x01, 0x00, 0x00]
    ensures BigEndian(0xFFFF_FFFF, 4) == [0xFF, 0xFF, 0xFF, 0xFF]
  {
    assert BigEndian(0x100, 3) == [0x00, 0x01, 0x00] && BigEndian(0xFF_FFFF, 3) == [0xFF, 0xFF, 0xFF];
  }

  lemma Append(n: nat, width: nat, digit: U8)
    ensures BigEndian(256 * n + digit, width + 1) == BigEndian(n, width) + [digit]
  {
  }

  lemma VectorsOfEight()
    ensures BigEndian(0x1_0000_0000, 8) == [0x00, 0x00, 0x00, 0x01, 0x00, 0x00, 0x00, 0x00]
    ensures BigEndian(0xFFFF_FFFF_FFFF_FFFF, 8) == [0xFF, 0xFF, 0xFF, 0xFF, 0xFF, 0xFF, 0xFF, 0xFF]
  {
    hide BigEndian;
    SmallBigEndian(1);
    Append(1, 4, 0);
    Append(0x100, 5, 0);
    Append(0x1_0000, 6, 0);
    Append(0x100_0000, 7, 0);
    VectorsOfFour();
    Append(0xFFFF_FFFF, 4, 0xFF);
    Append(0xFF_FFFF_FFFF, 5, 0xFF);
    Append(0xFFFF_FFFF_FFFF, 6, 0xFF);
    Append(0xFF_FFFF_FFFF_FFFF, 7, 0xFF);
  }

  /** Test vectors of BOLT #1, "Appendix A: BigSize Test Vectors". */
  lemma BigSizeVectors()
    ensures WriteBigSize(0) == [0x00] && WriteBigSize(252) == [0xFC]
    ensures WriteBigSize(253) == [0xFD, 0x00, 0xFD] && WriteBigSize(65_535) == [0xFD, 0xFF, 0xFF]
    ensures WriteBigSize(65_536) == [0xFE, 0x00, 0x01, 0x00, 0x00]
    ensures WriteBigSize(4_294_967_295) == [0xFE, 0xFF, 0xFF, 0xFF, 0xFF]
    ensures WriteBigSize(4_294_967_296) == [0xFF, 0x00, 0x00, 0x00, 0x01, 0x00, 0x00, 0x00, 0x00]
    ensures WriteBigSize(18_446_744_073_709_551_615) == [0xFF, 0xFF, 0xFF, 0xFF, 0xFF, 0xFF, 0xFF, 0xFF, 0xFF]
  {
    hide BigEndian;
    VectorsOfTwo();
    VectorsOfFour();
    VectorsOfEight();
  }

  // ---------------------------------------------------------------------------------------------
  // Update records
  // ---------------------------------------------------------------------------------------------

  /** Which bit of the flag byte announces what. */
  lemma FlagByteBits(flags: U8, incremental: bool, m: FieldMask)
    requires flags < 4
    ensures FlagByte(flags, incremental, m)
         == flags + (if incremental then 0x80 else 0) + (if m.cltvExpiryDelta then 0x40 else 0)
          + (if m.htlcMinimumMsat then 0x20 else 0) + (if m.feeBaseMsat then 0x10 else 0)
          + (if m.feeProportionalMillionths then 0x08 else 0) + (if m.htlcMaximumMsat then 0x04 else 0)
  {
  }

  /** The bytes from `at` on begin with the number. */
  predicate NumberAt(s: Bytes, at: nat, n: nat, width: nat) {
    at + width <= |s| && s[at..at + width] == BigEndian(n, width)
  }

  /** Where the values of a record are: in the order of the fields, without gaps. */
  lemma MaskedLayout(m: FieldMask, v: RoutingValues)
    ensures var s := WriteMasked(m, v);
            var a := if m.cltvExpiryDelta then 2 else 0;
            var b := a + if m.htlcMinimumMsat then 8 else 0;
            var c := b + if m.feeBaseMsat then 4 else 0;
            var d := c + if m.feeProportionalMillionths then 4 else 0;
            && |s| == d + (if m.htlcMaximumMsat then 8 else 0)
            && (m.cltvExpiryDelta ==> NumberAt(s, 0, v.cltvExpiryDelta, 2))
            && (m.htlcMinimumMsat ==> NumberAt(s, a, v.htlcMinimumMsat, 8))
            && (m.feeBaseMsat ==> NumberAt(s, b, v.feeBaseMsat, 4))
            && (m.feeProportionalMillionths ==> NumberAt(s, c, v.feeProportionalMillionths, 4))
            && (m.htlcMaximumMsat ==> NumberAt(s, d, v.htlcMaximumMsat, 8))
  {
    hide BigEndian;
    var p1 := Part16(m.cltvExpiryDelta, v.cltvExpiryDelta);
    var p2 := Part64(m.htlcMinimumMsat, v.htlcMinimumMsat);
    var p3 := Part32(m.feeBaseMsat, v.feeBaseMsat);
    var p4 := Part32(m.feeProportionalMillionths, v.feeProportionalMillionths);
    var p5 := Part64(m.htlcMaximumMsat, v.htlcMaximumMsat);
    FiveParts(p1, p2, p3, p4, p5);
  }

  lemma FiveParts(p1: Bytes, p2: Bytes, p3: Bytes, p4: Bytes, p5: Bytes)
    ensures var s, a := p1 + p2 + p3 + p4 + p5, |p1|;
            var b, c, d := a + |p2|, a + |p2| + |p3|, a + |p2| + |p3| + |p4|;
            s[..a] == p1 && s[a..b] == p2 && s[b..c] == p3 && s[c..d] == p4 && s[d..] == p5
  {
  }

  // ---------------------------------------------------------------------------------------------
  // A blob in full
  // ---------------------------------------------------------------------------------------------

  /** Every blob begins with the prefix, the version, the chain hash and the time. */
  lemma HeaderLayout(s: SerializationSet, version: U8, interval: U32, order: HashOrder)
    requires interval > 0 && Writable(s, version, order)
    ensures var b := WriteBlob(s, version, interval, order);
      && |b| >= 40 && b[..4] == [76, 68, 75, version] && b[4..36] == s.chainHash
      && NumberAt(b, 36, s.latestSeen - s.latestSeen % interval, 4)
  {
    hide WriteFeatureSection, WriteNodeSection, WriteBody, WritableNodes, WritableBody, BigEndian;
    hide ListedIds, NodesFor, DefaultsFor;
    var h := WriteHeader(version, s.chainHash, RoundDown(s.latestSeen, interval));
    assert |h| == 40 && h[..4] == [76, 68, 75, version] && h[4..36] == s.chainHash;
    assert h[36..40] == BigEndian(RoundDown(s.latestSeen, interval), 4);
    assert h <= WriteBlob(s, version, interval, order);
    Prefix(h, WriteBlob(s, version, interval, order));
  }

  lemma Prefix(h: Bytes, b: Bytes)
    requires h <= b && |h| == 40
    ensures b[..4] == h[..4] && b[4..36] == h[4..36] && b[36..40] == h[36..40]
  {
  }

  const EIGHT_ONES: Bytes := [1, 1, 1, 1, 1, 1, 1, 1]
  const ONES: Bytes := EIGHT_ONES + EIGHT_ONES + EIGHT_ONES + EIGHT_ONES

  /** One announcement between two nodes, a full, an incremental and a reminder update, and details of one node. */
  const EVEN := NodeId(false, ONES)
  const ODD := NodeId(true, ONES)
  const ANNOUNCEMENT := ChannelAnnouncement(5, [], EVEN, ODD)
  const SENT := RoutingValues(1, 2, 3, 4, 5)
  const DEFAULTS := RoutingValues(1, 2, 9, 4, 5)
  const FEE_BASE_ONLY := MutatedProperties(false, FieldMask(false, false, true, false, false))
  const UPDATES: seq<UpdateSerialization> := [
    Full(ChannelUpdate(5, 0, 0, SENT)),
    Incremental(ChannelUpdate(5, 0, 1, SENT), FEE_BASE_ONLY),
    Reminder(7, 2)]
  const DETAILS := NodeDelta(Some(NodeDetails(None, NodeInfo([7], {[9, 8]}))), Some(FullDetails), None)
  const EXAMPLE := SerializationSet([ANNOUNCEMENT], UPDATES, DEFAULTS, [[7]], map[EVEN := DETAILS], 25_000, ONES)
  const ORDER := HashOrder([EVEN], map[EVEN := [[9, 8]]])

  /** Announcements, updates and defaults in bytes, the same in both versions. */
  const EXAMPLE_BODY: Bytes :=
    [0, 0, 0, 1] + [0, 0] + [5] + [0] + [1]
    + [0, 0, 0, 3]
    + [0, 1] + [0, 0, 0, 0, 0, 0, 0, 2] + [0, 0, 0, 9] + [0, 0, 0, 4] + [0, 0, 0, 0, 0, 0, 0, 5]
    + [5, 0x10, 0, 0, 0, 3]
    + [0, 0x91, 0, 0, 0, 3]
    + [2, 0x82]

  lemma ExampleAnnouncement()
    ensures StrippedAnnouncement(ANNOUNCEMENT, 0, 1, 0) == [0, 0] + [5] + [0] + [1]
  {
    SmallBigEndian(0);
  }

  lemma ExampleUpdates()
    ensures StrippedUpdate(UPDATES[0], DEFAULTS, 0) == [5, 0x10, 0, 0, 0, 3]
    ensures StrippedUpdate(UPDATES[1], DEFAULTS, 5) == [0, 0x91, 0, 0, 0, 3]
    ensures StrippedUpdate(UPDATES[2], DEFAULTS, 5) == [2, 0x82]
  {
    hide BigEndian;
    SmallBigEndian(3);
  }

  lemma ExampleDefaults()
    ensures WriteMasked(FULL_MASK, DEFAULTS)
         == [0, 1] + [0, 0, 0, 0, 0, 0, 0, 2] + [0, 0, 0, 9] + [0, 0, 0, 4] + [0, 0, 0, 0, 0, 0, 0, 5]
  {
    hide BigEndian;
    SmallBigEndian(1);
    SmallBigEndian(2);
    SmallBigEndian(9);
    SmallBigEndian(4);
    SmallBigEndian(5);
  }

  lemma TwoIds(a: NodeId, b: NodeId)
    requires a != b
    ensures InternAll([], [a, b]) == [a, b] && InternAll([a, b], [a]) == [a, b]
  {
    assert [a, b][1..] == [b] && Intern([], a) == [a] && Intern([a], b) == [a, b];
    assert InternAll([a], [b]) == InternAll([a, b], []);
    assert InternAll([a, b], [a]) == InternAll([a, b], []);
  }

  lemma ExampleIds(version: U8)
    requires version == 1 || version == 2
    ensures ListedIds(EXAMPLE, version, ORDER) == [EVEN, ODD]
  {
    assert RequestedIds([]) == [];
    assert RequestedIds([ANNOUNCEMENT]) == [EVEN, ODD];
    TwoIds(EVEN, ODD);
  }

  lemma ThreeUpdates(a: UpdateSerialization, b: UpdateSerialization, c: UpdateSerialization, defaults: RoutingValues)
    requires a.Scid() <= b.Scid() <= c.Scid() && a.Flags() < 4 && b.Flags() < 4 && c.Flags() < 4
    ensures UpdatesFollow(0, [a, b, c])
    ensures WriteUpdates([a, b, c], defaults, 0)
         == StrippedUpdate(a, defaults, 0) + StrippedUpdate(b, defaults, a.Scid())
          + StrippedUpdate(c, defaults, b.Scid())
  {
    hide StrippedUpdate;
    assert [a, b, c][1..] == [b, c] && [b, c][1..] == [c] && [c][1..] == [];
    assert UpdatesFollow(c.Scid(), []) && UpdatesFollow(b.Scid(), [c]) && UpdatesFollow(a.Scid(), [b, c]);
    assert WriteUpdates([c], defaults, b.Scid()) == StrippedUpdate(c, defaults, b.Scid());
    assert WriteUpdates([b, c], defaults, a.Scid())
        == StrippedUpdate(b, defaults, a.Scid()) + StrippedUpdate(c, defaults, b.Scid());
  }

  lemma OneAnnouncement(a: ChannelAnnouncement)
    requires a.nodeId1 != a.nodeId2
    ensures var ids := [a.nodeId1, a.nodeId2];
      && AnnouncementsFollow(0, [a]) && IdsListed([a], ids)
      && WriteAnnouncements([a], ids, 0) == StrippedAnnouncement(a, 0, 1, 0)
  {
    hide StrippedAnnouncement;
    var ids := [a.nodeId1, a.nodeId2];
    assert ids[0] == a.nodeId1 && ids[1] == a.nodeId2 && [a][1..] == [];
    assert ids[1..][0] == a.nodeId2;
    assert IndexOf(ids, a.nodeId1) == 0 && IndexOf(ids, a.nodeId2) == 1;
    assert WriteAnnouncements([], ids, a.scid) == [];
  }

  lemma ExampleBody()
    ensures WritableBody([ANNOUNCEMENT], UPDATES, [EVEN, ODD])
    ensures WriteBody([ANNOUNCEMENT], UPDATES, DEFAULTS, [EVEN, ODD]) == EXAMPLE_BODY
  {
    hide BigEndian, StrippedAnnouncement, StrippedUpdate, WriteMasked, WriteUpdates, WriteAnnouncements;
    hide UpdatesFollow, AnnouncementsFollow, IdsListed;
    SmallBigEndian(1);
    SmallBigEndian(3);
    ExampleAnnouncement();
    ExampleUpdates();
    ExampleDefaults();
    OneAnnouncement(ANNOUNCEMENT);
    ThreeUpdates(UPDATES[0], UPDATES[1], UPDATES[2], DEFAULTS);
  }

  lemma ExampleNodes(version: U8)
    requires version == 1 || version == 2
    ensures var nodes := NodesFor(EXAMPLE, version, ORDER, [EVEN, ODD]);
      && nodes == [if version == 1 then WireNode(EVEN, None, None, false)
                   else WireNode(EVEN, Some([[9, 8]]), Some([7]), false),
                   WireNode(ODD, None, None, false)]
      && WritableNodes(nodes)
  {
    assert Sendable([], 254) == [];
    assert Sendable([[9, 8]], 255) == [[9, 8]];
    assert |ONES| == 32;
    assert NodesFor(EXAMPLE, version, ORDER, [EVEN, ODD])[0].id == EVEN;
  }

  lemma BareRecord(id: NodeId, defaults: seq<Features>)
    requires |id.coordinate| == 32 && |defaults| <= 6
    ensures NodeRecord(WireNode(id, None, None, false), defaults) == [if id.odd then 3 else 2] + id.coordinate
  {
  }

  lemma DetailedRecord(id: NodeId, address: Bytes, features: Features)
    requires |id.coordinate| == 32 && |address| <= 255
    ensures NodeRecord(WireNode(id, Some([address]), Some(features), false), [features])
         == [if id.odd then 15 else 14] + id.coordinate + [1] + [|address|] + address
  {
    assert WriteAddresses([address]) == [|address|] + address;
  }

  lemma TwoRecords(a: WireNode, b: WireNode, defaults: seq<Features>)
    requires WritableNode(a) && WritableNode(b) && |defaults| <= 6
    ensures WritableNodes([a, b])
    ensures WriteNodeSection(defaults, [a, b]) == [0, 0, 0, 2] + NodeRecord(a, defaults) + NodeRecord(b, defaults)
  {
    hide NodeRecord, WritableNode, BigEndian;
    SmallBigEndian(2);
    assert [a, b][1..] == [b] && [b][1..] == [];
    assert WriteNodes([b], defaults) == NodeRecord(b, defaults);
  }

  lemma ExampleHeader(version: U8)
    ensures WriteHeader(version, ONES, RoundDown(25_000, 10_800)) == [76, 68, 75, version] + ONES + [0, 0, 0x54, 0x60]
  {
    assert BigEndian(0x5460, 4) == BigEndian(0, 2) + [0x54, 0x60] == [0, 0, 0x54, 0x60];
  }

  lemma ExampleFeatures()
    ensures WriteFeatureSection(2, [[7]]) == [1] + [0, 1, 7]
  {
    hide BigEndian;
    SmallBigEndian(1);
    assert WriteFeatureList([[7]]) == WriteFeatures([7]);
  }

  lemma ExampleNodeBytes()
    ensures WriteNodeSection([], [WireNode(EVEN, None, None, false), WireNode(ODD, None, None, false)])
         == [0, 0, 0, 2] + ([2] + ONES) + ([3] + ONES)
    ensures WriteNodeSection(
              [[7]], [WireNode(EVEN, Some([[9, 8]]), Some([7]), false), WireNode(ODD, None, None, false)])
         == [0, 0, 0, 2] + ([14] + ONES + [1] + [2] + [9, 8]) + ([3] + ONES)
  {
    hide NodeRecord, WriteNodeSection;
    assert |ONES| == 32;
    BareRecord(EVEN, []);
    BareRecord(ODD, []);
    BareRecord(ODD, [[7]]);
    DetailedRecord(EVEN, [9, 8], [7]);
    TwoRecords(WireNode(EVEN, None, None, false), WireNode(ODD, None, None, false), []);
    TwoRecords(WireNode(EVEN, Some([[9, 8]]), Some([7]), false), WireNode(ODD, None, None, false), [[7]]);
  }

  /** The bytes of a whole blob in either version. */
  lemma ExampleBlob()
    ensures Writable(EXAMPLE, 1, ORDER) && Writable(EXAMPLE, 2, ORDER)
    ensures WriteBlob(EXAMPLE, 1, 10_800, ORDER)
         == ([76, 68, 75, 1] + ONES + [0, 0, 0x54, 0x60])
          + ([0, 0, 0, 2] + ([2] + ONES) + ([3] + ONES)) + EXAMPLE_BODY
    ensures WriteBlob(EXAMPLE, 2, 10_800, ORDER)
         == ([76, 68, 75, 2] + ONES + [0, 0, 0x54, 0x60]) + ([1] + [0, 1, 7])
          + ([0, 0, 0, 2] + ([14] + ONES + [1] + [2] + [9, 8]) + ([3] + ONES)) + EXAMPLE_BODY
  {
    hide WriteHeader, WriteNodeSection, WriteBody, WriteFeatureList, BigEndian, ListedIds, NodesFor, RoundDown;
    hide WritableNodes, WritableBody;
    assert |ONES| == 32;
    ExampleIds(1);
    ExampleIds(2);
    ExampleNodes(1);
    ExampleNodes(2);
    ExampleBody();
    ExampleHeader(1);
    ExampleHeader(2);
    ExampleFeatures();
    ExampleNodeBytes();
  }
}
