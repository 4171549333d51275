/** The whole snapshot blob: its writer, the client's reader, and that nothing is lost between them. */
module Blob {
  import opened Wrappers
  import opened GossipTypes
  import opened ByteCodec
  import opened UpdateCodec
  import opened NodeCodec
  import opened Rounding
  import opened Serialization

  const GOSSIP_PREFIX: Bytes := [76, 68, 75]

  /** The orders in which hash maps and sets happen to be walked. */
  datatype HashOrder = HashOrder(nodes: seq<NodeId>, addresses: map<NodeId, seq<Bytes>>)

  // ---------------------------------------------------------------------------------------------
  // Announcements
  // ---------------------------------------------------------------------------------------------

  predicate AnnouncementsFollow(previous: U64, anns: seq<ChannelAnnouncement>)
    decreases anns
  {
    anns == [] || (previous <= anns[0].scid && AnnouncementsFollow(anns[0].scid, anns[1..]))
  }

  /** The ids in the order the loop asks for them. */
  function RequestedIds(anns: seq<ChannelAnnouncement>): seq<NodeId> {
    if anns == [] then [] else [anns[0].nodeId1, anns[0].nodeId2] + RequestedIds(anns[1..])
  }

  predicate IdsListed(anns: seq<ChannelAnnouncement>, ids: seq<NodeId>) {
    && |ids| <= U32_MAX
    && forall i :: 0 <= i < |anns| ==> anns[i].nodeId1 in ids && anns[i].nodeId2 in ids
  }

  function WriteAnnouncements(anns: seq<ChannelAnnouncement>, ids: seq<NodeId>, previous: U64): Bytes
    requires AnnouncementsFollow(previous, anns) && IdsListed(anns, ids)
    decreases anns
  {
    if anns == [] then []
    else
      StrippedAnnouncement(anns[0], IndexOf(ids, anns[0].nodeId1), IndexOf(ids, anns[0].nodeId2), previous)
      + WriteAnnouncements(anns[1..], ids, anns[0].scid)
  }

  function ReadAnnouncements(count: nat, ids: seq<NodeId>, previous: U64, s: Bytes)
    : Option<(seq<ChannelAnnouncement>, Bytes)>
  {
    if count == 0 then Some(([], s))
    else
      var (a, s) :- ReadAnnouncement(ids, previous, s);
      var (rest, s) :- ReadAnnouncements(count - 1, ids, a.scid, s);
      Some(([a] + rest, s))
  }

  lemma {:induction false} AnnouncementsRoundTrip(
    anns: seq<ChannelAnnouncement>, ids: seq<NodeId>, previous: U64, rest: Bytes)
    requires AnnouncementsFollow(previous, anns) && IdsListed(anns, ids)
    ensures ReadAnnouncements(|anns|, ids, previous, WriteAnnouncements(anns, ids, previous) + rest)
         == Some((anns, rest))
    decreases anns
  {
    hide StrippedAnnouncement, ReadAnnouncement, IndexOf;
    if anns == [] {
      assert WriteAnnouncements(anns, ids, previous) + rest == rest;
    } else {
      var a := anns[0];
      var first := StrippedAnnouncement(a, IndexOf(ids, a.nodeId1), IndexOf(ids, a.nodeId2), previous);
      var tail := WriteAnnouncements(anns[1..], ids, a.scid) + rest;
      assert WriteAnnouncements(anns, ids, previous) + rest == first + tail;
      AnnouncementRoundTrip(a, IndexOf(ids, a.nodeId1), IndexOf(ids, a.nodeId2), previous, ids, tail);
      AnnouncementsRoundTrip(anns[1..], ids, a.scid, rest);
      assert anns == [a] + anns[1..];
    }
  }

  // ---------------------------------------------------------------------------------------------
  // Updates
  // ---------------------------------------------------------------------------------------------

  predicate UpdatesFollow(previous: U64, us: seq<UpdateSerialization>)
    decreases us
  {
    us == [] || (previous <= us[0].Scid() && us[0].Flags() < 4 && UpdatesFollow(us[0].Scid(), us[1..]))
  }

  function WriteUpdates(us: seq<UpdateSerialization>, defaults: RoutingValues, previous: U64): Bytes
    requires UpdatesFollow(previous, us)
    decreases us
  {
    if us == [] then []
    else StrippedUpdate(us[0], defaults, previous) + WriteUpdates(us[1..], defaults, us[0].Scid())
  }

  function ReadUpdates(count: nat, defaults: RoutingValues, previous: U64, s: Bytes): Option<(seq<WireUpdate>, Bytes)> {
    if count == 0 then Some(([], s))
    else
      var (u, s) :- ReadUpdate(defaults, previous, s);
      var (rest, s) :- ReadUpdates(count - 1, defaults, u.scid, s);
      Some(([u] + rest, s))
  }

  function Meanings(us: seq<UpdateSerialization>): (r: seq<WireUpdate>)
    ensures |r| == |us| && forall i :: 0 <= i < |us| ==> r[i] == Meaning(us[i])
  {
    if us == [] then [] else [Meaning(us[0])] + Meanings(us[1..])
  }

  lemma {:induction false} UpdatesRoundTrip(
    us: seq<UpdateSerialization>, defaults: RoutingValues, previous: U64, rest: Bytes)
    requires UpdatesFollow(previous, us)
    ensures ReadUpdates(|us|, defaults, previous, WriteUpdates(us, defaults, previous) + rest)
         == Some((Meanings(us), rest))
    decreases us
  {
    hide StrippedUpdate, ReadUpdate;
    if us == [] {
      assert WriteUpdates(us, defaults, previous) + rest == rest;
    } else {
      var tail := WriteUpdates(us[1..], defaults, us[0].Scid()) + rest;
      assert WriteUpdates(us, defaults, previous) + rest == StrippedUpdate(us[0], defaults, previous) + tail;
      UpdateRoundTrip(us[0], defaults, previous, tail);
      UpdatesRoundTrip(us[1..], defaults, us[0].Scid(), rest);
    }
  }

  // ---------------------------------------------------------------------------------------------
  // Node lists and feature defaults
  // ---------------------------------------------------------------------------------------------

  predicate WritableNodes(nodes: seq<WireNode>) {
    forall i :: 0 <= i < |nodes| ==> WritableNode(nodes[i])
  }

  function WriteNodes(nodes: seq<WireNode>, defaults: seq<Features>): Bytes
    requires WritableNodes(nodes) && |defaults| <= 6
  {
    if nodes == [] then [] else NodeRecord(nodes[0], defaults) + WriteNodes(nodes[1..], defaults)
  }

  function ReadNodes(count: nat, defaults: seq<Features>, s: Bytes): Option<(seq<WireNode>, Bytes)> {
    if count == 0 then Some(([], s))
    else
      var (n, s) :- ReadNode(defaults, s);
      var (rest, s) :- ReadNodes(count - 1, defaults, s);
      Some(([n] + rest, s))
  }

  lemma {:induction false} NodesRoundTrip(nodes: seq<WireNode>, defaults: seq<Features>, rest: Bytes)
    requires WritableNodes(nodes) && |defaults| <= 6
    ensures ReadNodes(|nodes|, defaults, WriteNodes(nodes, defaults) + rest) == Some((nodes, rest))
  {
    hide NodeRecord, ReadNode, WritableNode;
    if nodes == [] {
      assert WriteNodes(nodes, defaults) + rest == rest;
    } else {
      var tail := WriteNodes(nodes[1..], defaults) + rest;
      assert WriteNodes(nodes, defaults) + rest == NodeRecord(nodes[0], defaults) + tail;
      NodeRoundTrip(nodes[0], defaults, tail);
      NodesRoundTrip(nodes[1..], defaults, rest);
      assert nodes == [nodes[0]] + nodes[1..];
    }
  }

  function WriteFeatureList(fs: seq<Features>): Bytes {
    if fs == [] then [] else WriteFeatures(fs[0]) + WriteFeatureList(fs[1..])
  }

  function ReadFeatureList(count: nat, s: Bytes): Option<(seq<Features>, Bytes)> {
    if count == 0 then Some(([], s))
    else
      var (f, s) :- ReadFeatures(s);
      var (rest, s) :- ReadFeatureList(count - 1, s);
      Some(([f] + rest, s))
  }

  lemma {:induction false} FeatureListRoundTrip(fs: seq<Features>, rest: Bytes)
    ensures ReadFeatureList(|fs|, WriteFeatureList(fs) + rest) == Some((fs, rest))
  {
    hide WriteFeatures, ReadFeatures;
    if fs == [] {
      assert WriteFeatureList(fs) + rest == rest;
    } else {
      var tail := WriteFeatureList(fs[1..]) + rest;
      assert WriteFeatureList(fs) + rest == WriteFeatures(fs[0]) + tail;
      ReadWrittenFeatures(fs[0], tail);
      FeatureListRoundTrip(fs[1..], rest);
      assert fs == [fs[0]] + fs[1..];
    }
  }

  // ---------------------------------------------------------------------------------------------
  // Body: announcements and updates, the same in every version
  // ---------------------------------------------------------------------------------------------

  predicate WritableBody(anns: seq<ChannelAnnouncement>, us: seq<UpdateSerialization>, ids: seq<NodeId>) {
    && |anns| <= U32_MAX && AnnouncementsFollow(0, anns) && IdsListed(anns, ids)
    && |us| <= U32_MAX && UpdatesFollow(0, us)
  }

  function WriteDefaults(defaults: RoutingValues, present: bool): Bytes {
    if present then WriteMasked(FULL_MASK, defaults) else []
  }

  function WriteBody(
    anns: seq<ChannelAnnouncement>, us: seq<UpdateSerialization>, defaults: RoutingValues, ids: seq<NodeId>): Bytes
    requires WritableBody(anns, us, ids)
  {
    WriteU32(|anns|) + WriteAnnouncements(anns, ids, 0)
    + WriteU32(|us|) + WriteDefaults(defaults, |us| > 0) + WriteUpdates(us, defaults, 0)
  }

  function ReadDefaults(present: bool, s: Bytes): Option<(RoutingValues, Bytes)> {
    if present then ReadMasked(FULL_MASK, ZERO_VALUES, s) else Some((ZERO_VALUES, s))
  }

  function ReadBody(ids: seq<NodeId>, s: Bytes): Option<((seq<ChannelAnnouncement>, seq<WireUpdate>), Bytes)> {
    var (announcementCount, s) :- ReadU32(s);
    var (anns, s) :- ReadAnnouncements(announcementCount, ids, 0, s);
    var (updateCount, s) :- ReadU32(s);
    var (defaults, s) :- ReadDefaults(updateCount > 0, s);
    var (us, s) :- ReadUpdates(updateCount, defaults, 0, s);
    Some(((anns, us), s))
  }

  lemma DefaultsRoundTrip(defaults: RoutingValues, present: bool, rest: Bytes)
    ensures ReadDefaults(present, WriteDefaults(defaults, present) + rest)
         == Some((if present then defaults else ZERO_VALUES, rest))
  {
    hide WriteMasked, ReadMasked;
    if present {
      MaskedRoundTrip(FULL_MASK, ZERO_VALUES, defaults, rest);
    } else {
      assert [] + rest == rest;
    }
  }

  lemma BodyRoundTrip(
    anns: seq<ChannelAnnouncement>, us: seq<UpdateSerialization>, defaults: RoutingValues, ids: seq<NodeId>,
    rest: Bytes)
    requires WritableBody(anns, us, ids)
    ensures ReadBody(ids, WriteBody(anns, us, defaults, ids) + rest) == Some(((anns, Meanings(us)), rest))
  {
    hide WriteU32, ReadU32, WriteAnnouncements, ReadAnnouncements, WriteDefaults, ReadDefaults, WriteUpdates;
    hide ReadUpdates;
    var p5 := WriteUpdates(us, defaults, 0);
    var p4 := WriteDefaults(defaults, |us| > 0);
    var p3 := WriteU32(|us|);
    var p2 := WriteAnnouncements(anns, ids, 0);
    Reassociate(WriteU32(|anns|), p2, p3, p4, p5, rest);
    ReadWrittenU32(|anns|, p2 + (p3 + (p4 + (p5 + rest))));
    AnnouncementsRoundTrip(anns, ids, 0, p3 + (p4 + (p5 + rest)));
    ReadWrittenU32(|us|, p4 + (p5 + rest));
    DefaultsRoundTrip(defaults, |us| > 0, p5 + rest);
    if us == [] {
      NoUpdates(defaults);
    }
    UpdatesRoundTrip(us, if |us| > 0 then defaults else ZERO_VALUES, 0, rest);
  }

  lemma NoUpdates(defaults: RoutingValues)
    ensures WriteUpdates([], defaults, 0) == WriteUpdates([], ZERO_VALUES, 0)
  {
  }

  // ---------------------------------------------------------------------------------------------
  // The blob
  // ---------------------------------------------------------------------------------------------

  /** Everything a client reads out of a blob. */
  datatype SnapshotBlob = SnapshotBlob(
    version: U8, chainHash: Bytes, timestamp: U32, nodes: seq<WireNode>,
    announcements: seq<ChannelAnnouncement>, updates: seq<WireUpdate>)

  /** Version 1 lists the nodes of announced channels; version 2 adds the nodes whose details are sent. */
  function ListedIds(s: SerializationSet, version: U8, order: HashOrder): seq<NodeId> {
    var announced := InternAll([], RequestedIds(s.announcements));
    if version >= 2 then InternAll(announced, order.nodes) else announced
  }

  function NodeFor(s: SerializationSet, version: U8, order: HashOrder, id: NodeId): WireNode {
    if version >= 2 && id in s.nodeMutations && s.nodeMutations[id].latestDetails.Some? && id in order.addresses then
      NodeMeaning(id, s.nodeMutations[id].strategy,
        s.nodeMutations[id].latestDetails.value.info.features, order.addresses[id])
    else NodeMeaning(id, None, [], [])
  }

  function NodesFor(s: SerializationSet, version: U8, order: HashOrder, ids: seq<NodeId>): (r: seq<WireNode>)
    ensures |r| == |ids| && forall i :: 0 <= i < |ids| ==> r[i] == NodeFor(s, version, order, ids[i])
  {
    if ids == [] then [] else [NodeFor(s, version, order, ids[0])] + NodesFor(s, version, order, ids[1..])
  }

  function DefaultsFor(s: SerializationSet, version: U8): seq<Features> {
    if version >= 2 then s.nodeFeatureDefaults else []
  }

  /** Sizes that fit their counters, keys of 33 bytes, and details for every node that is sent. */
  predicate Fits(s: SerializationSet, order: HashOrder) {
    && |s.chainHash| == 32
    && |s.nodeFeatureDefaults| <= 6
    && |s.announcements| <= U32_MAX && |s.updates| <= U32_MAX
    && |ListedIds(s, 2, order)| <= U32_MAX
    && (forall id :: id in ListedIds(s, 2, order) ==> |id.coordinate| == 32)
    && Enumerates(order.nodes, s.nodeMutations.Keys)
    && (forall id :: id in s.nodeMutations ==>
          && s.nodeMutations[id].strategy.Some? && s.nodeMutations[id].latestDetails.Some?
          && id in order.addresses
          && Enumerates(order.addresses[id], s.nodeMutations[id].latestDetails.value.info.addresses))
  }

  /** What the writer relies on. */
  predicate WellFormed(s: SerializationSet, order: HashOrder) {
    Fits(s, order) && AnnouncementsFollow(0, s.announcements) && UpdatesFollow(0, s.updates)
  }

  /** What the blob of a serialization set says. */
  function Content(s: SerializationSet, version: U8, interval: U32, order: HashOrder): SnapshotBlob
    requires interval > 0
  {
    SnapshotBlob(version, s.chainHash, RoundDown(s.latestSeen, interval),
      NodesFor(s, version, order, ListedIds(s, version, order)), s.announcements, Meanings(s.updates))
  }

  function WriteHeader(version: U8, chainHash: Bytes, timestamp: U32): Bytes {
    GOSSIP_PREFIX + [version] + chainHash + WriteU32(timestamp)
  }

  function WriteFeatureSection(version: U8, defaults: seq<Features>): Bytes
    requires |defaults| <= 6
  {
    if version >= 2 then [|defaults|] + WriteFeatureList(defaults) else []
  }

  function WriteNodeSection(defaults: seq<Features>, nodes: seq<WireNode>): Bytes
    requires WritableNodes(nodes) && |nodes| <= U32_MAX && |defaults| <= 6
  {
    WriteU32(|nodes|) + WriteNodes(nodes, defaults)
  }

  predicate Writable(s: SerializationSet, version: U8, order: HashOrder) {
    && |DefaultsFor(s, version)| <= 6 && |s.chainHash| == 32
    && |ListedIds(s, version, order)| <= U32_MAX
    && WritableNodes(NodesFor(s, version, order, ListedIds(s, version, order)))
    && WritableBody(s.announcements, s.updates, ListedIds(s, version, order))
  }

  function WriteBlob(s: SerializationSet, version: U8, interval: U32, order: HashOrder): Bytes
    requires interval > 0 && Writable(s, version, order)
  {
    WriteHeader(version, s.chainHash, RoundDown(s.latestSeen, interval))
    + WriteFeatureSection(version, DefaultsFor(s, version))
    + WriteNodeSection(DefaultsFor(s, version), NodesFor(s, version, order, ListedIds(s, version, order)))
    + WriteBody(s.announcements, s.updates, s.fullUpdateDefaults, ListedIds(s, version, order))
  }

  function ReadHeader(s: Bytes): Option<((U8, Bytes, U32), Bytes)> {
    var (prefix, s) :- ReadBytes(3, s);
    if prefix != GOSSIP_PREFIX then None
    else
      var (version, s) :- ReadU8(s);
      var (chainHash, s) :- ReadBytes(32, s);
      var (timestamp, s) :- ReadU32(s);
      Some(((version, chainHash, timestamp), s))
  }

  function ReadFeatureSection(version: U8, s: Bytes): Option<(seq<Features>, Bytes)> {
    if version >= 2 then
      var (count, s) :- ReadU8(s);
      ReadFeatureList(count, s)
    else Some(([], s))
  }

  function ReadNodeSection(defaults: seq<Features>, s: Bytes): Option<(seq<WireNode>, Bytes)> {
    var (count, s) :- ReadU32(s);
    ReadNodes(count, defaults, s)
  }

  function IdsOf(nodes: seq<WireNode>): (ids: seq<NodeId>)
    ensures |ids| == |nodes| && forall i :: 0 <= i < |nodes| ==> ids[i] == nodes[i].id
  {
    if nodes == [] then [] else [nodes[0].id] + IdsOf(nodes[1..])
  }

  /** The client's reader: every byte must be accounted for. */
  function ReadBlob(s: Bytes): Option<SnapshotBlob> {
    var ((version, chainHash, timestamp), s) :- ReadHeader(s);
    var (defaults, s) :- ReadFeatureSection(version, s);
    var (nodes, s) :- ReadNodeSection(defaults, s);
    var ((announcements, updates), s) :- ReadBody(IdsOf(nodes), s);
    if s != [] then None else Some(SnapshotBlob(version, chainHash, timestamp, nodes, announcements, updates))
  }

  lemma HeaderRoundTrip(version: U8, chainHash: Bytes, timestamp: U32, rest: Bytes)
    requires |chainHash| == 32
    ensures ReadHeader(WriteHeader(version, chainHash, timestamp) + rest)
         == Some(((version, chainHash, timestamp), rest))
  {
    hide WriteU32, ReadU32;
    var t := WriteU32(timestamp);
    Regroup(GOSSIP_PREFIX, [version], chainHash, t, rest);
    ReadWrittenBytes(GOSSIP_PREFIX, [version] + (chainHash + (t + rest)));
    assert ([version] + (chainHash + (t + rest)))[1..] == chainHash + (t + rest);
    ReadWrittenBytes(chainHash, t + rest);
    ReadWrittenU32(timestamp, rest);
  }

  lemma FeatureSectionRoundTrip(version: U8, defaults: seq<Features>, rest: Bytes)
    requires |defaults| <= 6 && (version < 2 ==> defaults == [])
    ensures ReadFeatureSection(version, WriteFeatureSection(version, defaults) + rest) == Some((defaults, rest))
  {
    if version >= 2 {
      var tail := WriteFeatureList(defaults) + rest;
      assert WriteFeatureSection(version, defaults) + rest == [|defaults|] + tail;
      assert ([|defaults|] + tail)[1..] == tail;
      FeatureListRoundTrip(defaults, rest);
    } else {
      assert [] + rest == rest;
    }
  }

  lemma NodeSectionRoundTrip(defaults: seq<Features>, nodes: seq<WireNode>, rest: Bytes)
    requires WritableNodes(nodes) && |nodes| <= U32_MAX && |defaults| <= 6
    ensures ReadNodeSection(defaults, WriteNodeSection(defaults, nodes) + rest) == Some((nodes, rest))
  {
    hide WriteU32, ReadU32, ReadNodes, WriteNodes, WritableNodes;
    var tail := WriteNodes(nodes, defaults) + rest;
    assert WriteNodeSection(defaults, nodes) + rest == WriteU32(|nodes|) + tail;
    ReadWrittenU32(|nodes|, tail);
    NodesRoundTrip(nodes, defaults, rest);
  }

  lemma NodesForIds(s: SerializationSet, version: U8, order: HashOrder, ids: seq<NodeId>)
    ensures IdsOf(NodesFor(s, version, order, ids)) == ids
  {
  }

  /** A client reads back exactly what was serialized and consumes every byte. */
  lemma BlobRoundTrip(s: SerializationSet, version: U8, interval: U32, order: HashOrder)
    requires interval > 0 && Writable(s, version, order)
    ensures ReadBlob(WriteBlob(s, version, interval, order)) == Some(Content(s, version, interval, order))
  {
    hide WriteHeader, ReadHeader, WriteFeatureSection, ReadFeatureSection, WriteNodeSection, ReadNodeSection;
    hide WriteBody, ReadBody, NodesFor, ListedIds, WritableNodes, WritableBody, RoundDown, DefaultsFor, IdsOf, Meanings;
    var ids := ListedIds(s, version, order);
    var nodes := NodesFor(s, version, order, ids);
    var defaults := DefaultsFor(s, version);
    var timestamp := RoundDown(s.latestSeen, interval);
    var p2 := WriteFeatureSection(version, defaults);
    var p3 := WriteNodeSection(defaults, nodes);
    var p4 := WriteBody(s.announcements, s.updates, s.fullUpdateDefaults, ids);
    assert WriteBlob(s, version, interval, order)
        == WriteHeader(version, s.chainHash, timestamp) + (p2 + (p3 + (p4 + []))) by {
      Regroup(WriteHeader(version, s.chainHash, timestamp), p2, p3, p4, []);
    }
    HeaderRoundTrip(version, s.chainHash, timestamp, p2 + (p3 + (p4 + [])));
    assert version < 2 ==> defaults == [] by {
      NoDefaultsBeforeVersion2(s, version);
    }
    FeatureSectionRoundTrip(version, defaults, p3 + (p4 + []));
    NodeSectionRoundTrip(defaults, nodes, p4 + []);
    NodesForIds(s, version, order, ids);
    BodyRoundTrip(s.announcements, s.updates, s.fullUpdateDefaults, ids, []);
  }

  lemma NoDefaultsBeforeVersion2(s: SerializationSet, version: U8)
    ensures version < 2 ==> DefaultsFor(s, version) == []
  {
  }

  // ---------------------------------------------------------------------------------------------
  // Well-formed sets are writable in every version
  // ---------------------------------------------------------------------------------------------

  lemma {:induction false} RequestedIdsHold(anns: seq<ChannelAnnouncement>)
    ensures forall i :: 0 <= i < |anns| ==>
      anns[i].nodeId1 in RequestedIds(anns) && anns[i].nodeId2 in RequestedIds(anns)
  {
    if anns != [] {
      RequestedIdsHold(anns[1..]);
      var ids := [anns[0].nodeId1, anns[0].nodeId2] + RequestedIds(anns[1..]);
      assert ids[0] == anns[0].nodeId1 && ids[1] == anns[0].nodeId2;
      assert forall x :: x in RequestedIds(anns[1..]) ==> x in ids;
      assert forall i :: 1 <= i < |anns| ==> anns[i] == anns[1..][i - 1];
    }
  }

  /** The list has no duplicates; version 1's is a prefix of version 2's and holds every announced node. */
  lemma ListedIdsProperties(s: SerializationSet, version: U8, order: HashOrder)
    ensures Distinct(ListedIds(s, version, order))
    ensures ListedIds(s, 1, order) <= ListedIds(s, version, order) <= ListedIds(s, 2, order)
    ensures forall i :: 0 <= i < |s.announcements| ==>
      s.announcements[i].nodeId1 in ListedIds(s, 1, order) && s.announcements[i].nodeId2 in ListedIds(s, 1, order)
    ensures forall id :: id in order.nodes ==> id in ListedIds(s, 2, order)
  {
    hide InternAll, RequestedIds;
    var requested := RequestedIds(s.announcements);
    InternAllExtends([], requested);
    InternAllExtends(InternAll([], requested), order.nodes);
    RequestedIdsHold(s.announcements);
  }

  lemma {:induction false} InternAllMembers(ids: seq<NodeId>, requests: seq<NodeId>)
    ensures forall id :: id in InternAll(ids, requests) <==> id in ids || id in requests
    decreases requests
  {
    if requests != [] {
      InternAllMembers(Intern(ids, requests[0]), requests[1..]);
      assert requests == [requests[0]] + requests[1..];
    }
  }

  predicate RefersTo(anns: seq<ChannelAnnouncement>, id: NodeId) {
    exists i :: 0 <= i < |anns| && (anns[i].nodeId1 == id || anns[i].nodeId2 == id)
  }

  lemma {:induction false} RequestedExactly(anns: seq<ChannelAnnouncement>, id: NodeId)
    ensures id in RequestedIds(anns) <==> RefersTo(anns, id)
  {
    if anns != [] {
      RequestedExactly(anns[1..], id);
      if RefersTo(anns[1..], id) {
        var i :| 0 <= i < |anns[1..]| && (anns[1..][i].nodeId1 == id || anns[1..][i].nodeId2 == id);
        assert anns[i + 1] == anns[1..][i];
      }
      if RefersTo(anns, id) {
        var i :| 0 <= i < |anns| && (anns[i].nodeId1 == id || anns[i].nodeId2 == id);
        assert i > 0 ==> anns[1..][i - 1] == anns[i];
      }
    }
  }

  /** Listed are the nodes of the announcements and, from version 2 on, those whose details are sent; no others. */
  lemma ListedExactly(s: SerializationSet, version: U8, order: HashOrder, id: NodeId)
    ensures id in ListedIds(s, version, order)
       <==> RefersTo(s.announcements, id) || (version >= 2 && id in order.nodes)
  {
    hide InternAll, RequestedIds, RefersTo;
    RequestedExactly(s.announcements, id);
    InternAllMembers([], RequestedIds(s.announcements));
    InternAllMembers(InternAll([], RequestedIds(s.announcements)), order.nodes);
  }

  lemma WellFormedIsWritable(s: SerializationSet, version: U8, order: HashOrder)
    requires WellFormed(s, order)
    ensures Writable(s, version, order)
  {
    hide ListedIds, AnnouncementsFollow, UpdatesFollow, NodeMeaning, Enumerates;
    ListedIdsProperties(s, version, order);
    var ids := ListedIds(s, version, order);
    var all := ListedIds(s, 2, order);
    forall i | 0 <= i < |ids|
      ensures WritableNode(NodeFor(s, version, order, ids[i]))
    {
      assert all[i] == ids[i];
      assert ids[i] in all;
      MeaningWritable(ids[i]);
    }
    assert IdsListed(s.announcements, ids);
  }

  lemma MeaningWritable(id: NodeId)
    requires |id.coordinate| == 32
    ensures forall st, f, order :: WritableNode(NodeMeaning(id, st, f, order))
  {
  }

  lemma {:induction false} AnnouncementBytesSurvive(
    anns: seq<ChannelAnnouncement>, ids: seq<NodeId>, longer: seq<NodeId>, previous: U64)
    requires AnnouncementsFollow(previous, anns) && IdsListed(anns, ids) && IdsListed(anns, longer)
    requires Distinct(longer) && ids <= longer
    ensures WriteAnnouncements(anns, ids, previous) == WriteAnnouncements(anns, longer, previous)
    decreases anns
  {
    hide StrippedAnnouncement, IndexOf, Distinct;
    if anns != [] {
      IndexSurvives(ids, longer, anns[0].nodeId1);
      IndexSurvives(ids, longer, anns[0].nodeId2);
      AnnouncementBytesSurvive(anns[1..], ids, longer, anns[0].scid);
    }
  }

  /** Announcement and update bytes do not depend on the version, although version 2 lists more nodes. */
  lemma BodyIsVersionIndependent(s: SerializationSet, order: HashOrder)
    requires Writable(s, 1, order) && Writable(s, 2, order)
    ensures WriteBody(s.announcements, s.updates, s.fullUpdateDefaults, ListedIds(s, 1, order))
         == WriteBody(s.announcements, s.updates, s.fullUpdateDefaults, ListedIds(s, 2, order))
  {
    hide ListedIds, NodesFor, WritableNodes, WriteUpdates, WriteDefaults, WriteU32, Distinct;
    ListedIdsProperties(s, 2, order);
    AnnouncementBytesSurvive(s.announcements, ListedIds(s, 1, order), ListedIds(s, 2, order), 0);
  }
}
