/** The imperative writer of a blob: loops that grow two buffers and a shared table of node ids. */
module BlobWriter {
  import opened Wrappers
  import opened GossipTypes
  import opened ByteCodec
  import opened UpdateCodec
  import opened NodeCodec
  import opened Rounding
  import opened Serialization
  import opened Blob

  /** The blob and the counters that are reported with it. */
  datatype SerializedResponse = SerializedResponse(
    data: Bytes,
    messageCount: nat,
    nodeAnnouncementCount: nat,
    nodeUpdateCount: nat,
    nodeFeatureUpdateCount: nat,
    nodeAddressUpdateCount: nat,
    channelAnnouncementCount: nat,
    updateCount: nat,
    updateCountFull: nat,
    updateCountIncremental: nat)

  function FullCount(us: seq<UpdateSerialization>): nat {
    if us == [] then 0 else (if us[0].Full? then 1 else 0) + FullCount(us[1..])
  }

  /** How many of the records carry features, addresses, or at least one of the two. */
  datatype NodeCounts = NodeCounts(updates: nat, features: nat, addresses: nat)

  function CountNodes(nodes: seq<WireNode>): NodeCounts {
    if nodes == [] then NodeCounts(0, 0, 0)
    else
      var rest := CountNodes(nodes[1..]);
      var a, f := nodes[0].addresses.Some?, nodes[0].features.Some?;
      NodeCounts(Num(a || f) + rest.updates, Num(f) + rest.features, Num(a) + rest.addresses)
  }

  lemma NextRequest(ids: seq<NodeId>, anns: seq<ChannelAnnouncement>, n: nat)
    requires n < |anns|
    ensures InternAll(ids, RequestedIds(anns[n..]))
         == InternAll(Intern(Intern(ids, anns[n].nodeId1), anns[n].nodeId2), RequestedIds(anns[n + 1..]))
  {
    var a := anns[n];
    var rest := RequestedIds(anns[n + 1..]);
    assert anns[n..][0] == a && anns[n..][1..] == anns[n + 1..];
    var requests := [a.nodeId1, a.nodeId2] + rest;
    assert RequestedIds(anns[n..]) == requests;
    assert requests[1..] == [a.nodeId2] + rest && requests[1..][1..] == rest;
    assert InternAll(ids, requests) == InternAll(Intern(ids, a.nodeId1), requests[1..]);
  }

  lemma NextAnnouncement(anns: seq<ChannelAnnouncement>, n: nat, ids: seq<NodeId>, previous: U64)
    requires n < |anns| && AnnouncementsFollow(previous, anns[n..]) && IdsListed(anns, ids)
    ensures IdsListed(anns[n..], ids) && IdsListed(anns[n + 1..], ids)
    ensures previous <= anns[n].scid && AnnouncementsFollow(anns[n].scid, anns[n + 1..])
    ensures anns[n].nodeId1 in ids && anns[n].nodeId2 in ids && |ids| <= U32_MAX
    ensures WriteAnnouncements(anns[n..], ids, previous)
         == StrippedAnnouncement(anns[n], IndexOf(ids, anns[n].nodeId1), IndexOf(ids, anns[n].nodeId2), previous)
          + WriteAnnouncements(anns[n + 1..], ids, anns[n].scid)
  {
    hide StrippedAnnouncement, IndexOf;
    assert anns[n..][0] == anns[n] && anns[n..][1..] == anns[n + 1..];
  }

  /** Announcement loop: ids are interned as they are met, and their indices written. */
  method SerializeAnnouncements(anns: seq<ChannelAnnouncement>, table: NodeIdTable) returns (output: Bytes)
    requires table.Valid() && table.ids == [] && AnnouncementsFollow(0, anns)
    requires IdsListed(anns, InternAll([], RequestedIds(anns))) && |InternAll([], RequestedIds(anns))| <= U32_MAX
    modifies table
    ensures table.Valid() && table.ids == InternAll([], RequestedIds(anns))
    ensures output == WriteAnnouncements(anns, table.ids, 0)
  {
    hide WriteAnnouncements, AnnouncementsFollow, IdsListed, InternAll, RequestedIds, Intern, StrippedAnnouncement;
    hide IndexOf;
    hide Distinct;
    ghost var all := InternAll([], RequestedIds(anns));
    output := [];
    var previous: U64 := 0;
    var n := 0;
    assert anns[0..] == anns;
    while n < |anns|
      invariant n <= |anns| && table.Valid() && IdsListed(anns[n..], all)
      invariant InternAll(table.ids, RequestedIds(anns[n..])) == all
      invariant AnnouncementsFollow(previous, anns[n..])
      invariant output + WriteAnnouncements(anns[n..], all, previous) == WriteAnnouncements(anns, all, 0)
    {
      var a := anns[n];
      NextRequest(table.ids, anns, n);
      NextAnnouncement(anns, n, all, previous);
      var index1 := table.GetNodeIdIndex(a.nodeId1);
      ghost var early := table.ids;
      var index2 := table.GetNodeIdIndex(a.nodeId2);
      InternAllExtends(table.ids, RequestedIds(anns[n + 1..]));
      IndexSurvives(early, all, a.nodeId1);
      IndexSurvives(table.ids, all, a.nodeId2);
      output := output + StrippedAnnouncement(a, index1, index2, previous);
      previous := a.scid;
      n := n + 1;
    }
    NothingLeft(anns, n, table.ids, all, previous);
  }

  lemma NothingLeft(anns: seq<ChannelAnnouncement>, n: nat, ids: seq<NodeId>, all: seq<NodeId>, previous: U64)
    requires n == |anns| && |all| <= U32_MAX
    ensures InternAll(ids, RequestedIds(anns[n..])) == ids
    ensures AnnouncementsFollow(previous, anns[n..]) && IdsListed(anns[n..], all)
    ensures WriteAnnouncements(anns[n..], all, previous) == []
  {
  }

  /** Update loop, counting full updates on the way. */
  method SerializeUpdates(us: seq<UpdateSerialization>, defaults: RoutingValues)
    returns (output: Bytes, full: nat, incremental: nat)
    requires UpdatesFollow(0, us)
    ensures output == WriteUpdates(us, defaults, 0)
    ensures full == FullCount(us) && full + incremental == |us|
  {
    hide StrippedUpdate;
    output, full, incremental := [], 0, 0;
    var previous: U64 := 0;
    var n := 0;
    assert us[0..] == us;
    while n < |us|
      invariant n <= |us| && UpdatesFollow(previous, us[n..])
      invariant output + WriteUpdates(us[n..], defaults, previous) == WriteUpdates(us, defaults, 0)
      invariant full + FullCount(us[n..]) == FullCount(us) && full + incremental == n
    {
      assert us[n..][0] == us[n] && us[n..][1..] == us[n + 1..];
      if us[n].Full? {
        full := full + 1;
      } else {
        incremental := incremental + 1;
      }
      var stripped := SerializeStrippedChannelUpdate(us[n], defaults, previous);
      output := output + stripped;
      previous := us[n].Scid();
      n := n + 1;
    }
  }

  /** Version 2 also lists the nodes whose details are sent, in the map's iteration order. */
  method InternNodes(order: seq<NodeId>, table: NodeIdTable)
    requires table.Valid()
    modifies table
    ensures table.Valid() && table.ids == InternAll(old(table.ids), order)
  {
    var n := 0;
    assert order[0..] == order;
    while n < |order|
      invariant n <= |order| && table.Valid()
      invariant InternAll(table.ids, order[n..]) == InternAll(old(table.ids), order)
    {
      assert order[n..][0] == order[n] && order[n..][1..] == order[n + 1..];
      var _ := table.GetNodeIdIndex(order[n]);
      n := n + 1;
    }
  }

  method SerializeFeatureDefaults(fs: seq<Features>) returns (output: Bytes)
    ensures output == WriteFeatureList(fs)
  {
    hide WriteFeatures;
    output := [];
    var n := 0;
    assert fs[0..] == fs;
    while n < |fs|
      invariant n <= |fs|
      invariant output + WriteFeatureList(fs[n..]) == WriteFeatureList(fs)
    {
      assert fs[n..][0] == fs[n] && fs[n..][1..] == fs[n + 1..];
      output := output + WriteFeatures(fs[n]);
      n := n + 1;
    }
  }

  /** Node loop: one record per listed id. */
  method SerializeNodeRecords(s: SerializationSet, version: U8, order: HashOrder, ids: seq<NodeId>)
    returns (output: Bytes, counts: NodeCounts)
    requires |DefaultsFor(s, version)| <= 6 && WritableNodes(NodesFor(s, version, order, ids))
    ensures output == WriteNodes(NodesFor(s, version, order, ids), DefaultsFor(s, version))
    ensures counts == CountNodes(NodesFor(s, version, order, ids))
  {
    hide NodeRecord, NodeMeaning, WritableNode;
    var defaults := DefaultsFor(s, version);
    ghost var nodes := NodesFor(s, version, order, ids);
    output := [];
    var updates, features, addresses := 0, 0, 0;
    var n := 0;
    assert nodes[0..] == nodes;
    while n < |ids|
      invariant n <= |ids|
      invariant output + WriteNodes(nodes[n..], defaults) == WriteNodes(nodes, defaults)
      invariant var rest := CountNodes(nodes[n..]);
        CountNodes(nodes) == NodeCounts(updates + rest.updates, features + rest.features, addresses + rest.addresses)
    {
      assert nodes[n..][0] == nodes[n] && nodes[n..][1..] == nodes[n + 1..];
      var id := ids[n];
      var record: Bytes, addressesSent: bool, featuresSent: bool;
      CoordinateFits(nodes[n], s, version, order, id);
      if version >= 2 && id in s.nodeMutations && s.nodeMutations[id].latestDetails.Some? && id in order.addresses {
        var d := s.nodeMutations[id];
        record, addressesSent, featuresSent :=
          SerializeNode(id, d.strategy, d.latestDetails.value.info.features, order.addresses[id], defaults);
      } else {
        record, addressesSent, featuresSent := SerializeNode(id, None, [], [], defaults);
      }
      if addressesSent {
        addresses := addresses + 1;
      }
      if featuresSent {
        features := features + 1;
      }
      if addressesSent || featuresSent {
        updates := updates + 1;
      }
      output := output + record;
      n := n + 1;
    }
    counts := NodeCounts(updates, features, addresses);
  }

  lemma CoordinateFits(w: WireNode, s: SerializationSet, version: U8, order: HashOrder, id: NodeId)
    requires w == NodeFor(s, version, order, id) && WritableNode(w)
    ensures |id.coordinate| == 32
  {
  }

  /** The whole writer. */
  method SerializeDelta(s: SerializationSet, version: U8, interval: U32, order: HashOrder)
    returns (r: SerializedResponse)
    requires interval > 0 && WellFormed(s, order)
    ensures Writable(s, version, order) && r.data == WriteBlob(s, version, interval, order)
    ensures r.messageCount == r.channelAnnouncementCount + r.updateCount
    ensures r.channelAnnouncementCount == |s.announcements| && r.updateCount == |s.updates|
    ensures r.updateCountFull == FullCount(s.updates) && r.updateCountFull + r.updateCountIncremental == r.updateCount
    ensures r.nodeAnnouncementCount == |ListedIds(s, version, order)|
    ensures NodeCounts(r.nodeUpdateCount, r.nodeFeatureUpdateCount, r.nodeAddressUpdateCount)
         == CountNodes(NodesFor(s, version, order, ListedIds(s, version, order)))
  {
    hide WriteAnnouncements, WriteUpdates, WriteDefaults, WriteNodes, WriteFeatureList, InternAll, NodesFor;
    hide WritableNodes;
    hide AnnouncementsFollow, UpdatesFollow, WriteU32, RoundDown, Enumerates, FullCount, CountNodes;
    WellFormedIsWritable(s, 1, order);
    WellFormedIsWritable(s, 2, order);
    WellFormedIsWritable(s, version, order);
    BodyIsVersionIndependent(s, order);
    var table := new NodeIdTable();
    var output := WriteU32(|s.announcements|);
    var announcements := SerializeAnnouncements(s.announcements, table);
    output := output + announcements;
    output := output + WriteU32(|s.updates|);
    if |s.updates| > 0 {
      output := output + WriteMasked(FULL_MASK, s.fullUpdateDefaults);
    }
    var updates, full, incremental := SerializeUpdates(s.updates, s.fullUpdateDefaults);
    output := output + updates;
    assert output == WriteBody(s.announcements, s.updates, s.fullUpdateDefaults, ListedIds(s, 1, order)) by {
      DefaultsWritten(s.fullUpdateDefaults);
    }

    var prefixed := GOSSIP_PREFIX + [version];
    prefixed := prefixed + s.chainHash;
    prefixed := prefixed + WriteU32(RoundDown(s.latestSeen, interval));
    if version >= 2 {
      InternNodes(order.nodes, table);
      var defaults := SerializeFeatureDefaults(s.nodeFeatureDefaults);
      prefixed := prefixed + ([|s.nodeFeatureDefaults|] + defaults);
    }
    assert prefixed == WriteHeader(version, s.chainHash, RoundDown(s.latestSeen, interval))
                     + WriteFeatureSection(version, DefaultsFor(s, version));
    assert table.ids == ListedIds(s, version, order);
    var nodes, counts := SerializeNodeRecords(s, version, order, table.ids);
    prefixed := prefixed + (WriteU32(|table.ids|) + nodes);
    prefixed := prefixed + output;
    r := SerializedResponse(
      prefixed, |s.announcements| + |s.updates|, |table.ids|, counts.updates, counts.features, counts.addresses,
      |s.announcements|, |s.updates|, full, incremental);
    assert r.data == WriteBlob(s, version, interval, order) by {
      assert ListedIds(s, version, order) == ListedIds(s, if version >= 2 then 2 else 1, order);
    }
  }

  lemma DefaultsWritten(defaults: RoutingValues)
    ensures WriteDefaults(defaults, true) == WriteMasked(FULL_MASK, defaults)
    ensures WriteDefaults(defaults, false) == []
  {
  }

  /** The no-op blob served for the current reference timestamp. */
  method SerializeEmptyBlob(reference: U32, version: U8, granularity: U32, chainHash: Bytes) returns (blob: Bytes)
    requires granularity > 0 && |chainHash| == 32
    ensures ReadBlob(blob) == Some(SnapshotBlob(version, chainHash, RoundDown(reference, granularity), [], [], []))
  {
    hide WriteU32;
    blob := GOSSIP_PREFIX + [version];
    blob := blob + chainHash;
    blob := blob + WriteU32(RoundDown(reference, granularity));
    ghost var s := SerializationSet([], [], ZERO_VALUES, [], map[], reference, chainHash);
    ghost var order := HashOrder([], map[]);
    assert WriteFeatureList([]) == [];
    if version >= 2 {
      blob := blob + [0];
    }
    assert blob == WriteHeader(version, chainHash, RoundDown(reference, granularity))
                  + WriteFeatureSection(version, []);
    blob := blob + WriteU32(0);
    blob := blob + WriteU32(0);
    blob := blob + WriteU32(0);
    EmptyBlob(s, version, granularity, order);
    assert blob == WriteBlob(s, version, granularity, order) by {
      assert WriteNodeSection([], []) == WriteU32(0);
    }
    BlobRoundTrip(s, version, granularity, order);
  }

  lemma EmptyBlob(s: SerializationSet, version: U8, interval: U32, order: HashOrder)
    requires interval > 0 && |s.chainHash| == 32 && order == HashOrder([], map[])
    requires s.(latestSeen := 0, chainHash := []) == SerializationSet([], [], ZERO_VALUES, [], map[], 0, [])
    ensures Writable(s, version, order) && ListedIds(s, version, order) == [] && DefaultsFor(s, version) == []
    ensures NodesFor(s, version, order, []) == []
    ensures WriteBlob(s, version, interval, order)
         == WriteHeader(version, s.chainHash, RoundDown(s.latestSeen, interval)) + WriteFeatureSection(version, [])
          + WriteNodeSection([], []) + (WriteU32(0) + WriteU32(0))
    ensures Content(s, version, interval, order)
         == SnapshotBlob(version, s.chainHash, RoundDown(s.latestSeen, interval), [], [], [])
  {
    hide WriteU32, RoundDown;
  }
}
