/** `calculate_delta`: the stages in their order, and the blob written for a client. */
module Server {
  import opened Wrappers
  import opened GossipTypes
  import opened Database
  import opened Lookup
  import opened AnnouncementLookup
  import opened NodeLookup
  import opened Serialization
  import opened Blob
  import opened BlobWriter
  import opened Client
  import opened Pipeline
  import opened Convergence

  /** The answers of the database to the queries of one computation. */
  datatype Answers = Answers(
    announcements: seq<SeenAnnouncement>, firstUpdates: seq<(U64, U32)>, reminders: seq<UpdateRow>,
    references: seq<UpdateRow>, intermediates: seq<UpdateRow>,
    nodeReferences: seq<NodeRow>, nodeIntermediates: seq<NodeRow>)

  ghost predicate Answered(
    db: Tables, table: set<NodeRow>, graph: Graph, nodeGraph: map<NodeId, NodeInfo>, sync: U32, now: U32, q: Answers)
    requires now >= PRUNE_INTERVAL
  {
    && AnnouncementQuery(db, ChannelIds(graph), q.announcements)
    && FirstBidirectionalQuery(db, ChannelIds(graph), sync, q.firstUpdates)
    && (ShouldIncludeReminders(sync, now) ==> ReminderQuery(db, ChannelIds(graph), now - PRUNE_INTERVAL, q.reminders))
    && ReferenceQuery(db, sync, q.references) && IntermediateQuery(db, sync, q.intermediates)
    && NodeReferenceQuery(table, nodeGraph.Keys, sync, q.nodeReferences)
    && NodeIntermediateQuery(table, nodeGraph.Keys, EffectiveThreshold(sync, now), q.nodeIntermediates)
  }

  /** Fetch, filter and serialize; none of the unwraps and assertions on the way can fail. */
  method CalculateDelta(
    ghost db: Tables, ghost table: set<NodeRow>, graph: Graph, nodeGraph: map<NodeId, NodeInfo>,
    sync: U32, now: U32, serializedAt: U32, chainHash: Bytes, q: Answers)
    returns (x: Computation)
    requires Valid(db) && now >= PRUNE_INTERVAL && serializedAt >= now
    requires Answered(db, table, graph, nodeGraph, sync, now, q)
    ensures Computed(db, x)
    ensures x.sync == sync && x.now == now && x.serializedAt == serializedAt && x.graph == graph
    ensures x.reminders == q.reminders
    ensures DescribesNodes(nodeGraph, table, sync, now, q.nodeIntermediates, x.nodes)
    ensures forall id :: id in x.payload.nodeMutations ==>
      && x.payload.nodeMutations[id].strategy.Some? && x.payload.nodeMutations[id].latestDetails.Some?
      && id in nodeGraph && x.payload.nodeMutations[id].latestDetails.value.info == nodeGraph[id]
  {
    hide Valid, AnnouncementQuery, FirstBidirectionalQuery, ReminderQuery, ReferenceQuery, IntermediateQuery;
    hide NodeReferenceQuery, NodeIntermediateQuery, DescribesDelta, DescribesSerialization, DescribesNodes;
    var delta := CalculateChannelDelta(
      graph, db, sync, now, q.announcements, q.firstUpdates, q.reminders, q.references, q.intermediates);
    var nodes := FetchNodeUpdates(nodeGraph, table, sync, now, q.nodeReferences, q.nodeIntermediates);
    DeltaIsSerializable(db, graph, sync, now, q.reminders, delta);
    var s := SerializeDeltaSet(delta, nodes, sync, serializedAt, chainHash);
    x := Computation(sync, now, serializedAt, graph, q.reminders, delta, nodes, chainHash, s);
    NodeDetailsArePresent(nodeGraph, table, q.nodeIntermediates, x);
  }

  /** The node details that the writer unwraps are there, and they are the graph's. */
  lemma NodeDetailsArePresent(
    nodeGraph: map<NodeId, NodeInfo>, table: set<NodeRow>, rows: seq<NodeRow>, x: Computation)
    requires DescribesNodes(nodeGraph, table, x.sync, x.now, rows, x.nodes)
    requires DescribesSerialization(x.delta, x.nodes, x.sync, x.serializedAt, x.chainHash, x.payload)
    ensures forall id :: id in x.payload.nodeMutations ==>
      && x.payload.nodeMutations[id].strategy.Some? && x.payload.nodeMutations[id].latestDetails.Some?
      && id in nodeGraph && x.payload.nodeMutations[id].latestDetails.value.info == nodeGraph[id]
  {
    hide SortedKeys, KeysAnnounced, AnnouncementsOf, UpdatesOf, CountedOf, SeenOf, LeadingFeatures;
    hide DescribesNodeReference;
  }

  /** A computation, written and read back: a client that covers a channel since the last sync ends in sync on it. */
  method ServeSnapshot(
    ghost db: Tables, x: Computation, version: U8, interval: U32, order: HashOrder, ghost g: ClientGraph, ghost t: U32)
    returns (r: SerializedResponse)
    requires interval > 0 && Valid(db) && Computed(db, x) && Fits(x.payload, order)
    ensures ReadBlob(r.data) == Some(Content(x.payload, version, interval, order))
    ensures forall k: U64 ::
      x.sync <= t && k in db.announcements && OrdersAgree(db, k)
      && Carried(db, x.graph, k) && CoversChannel(db, g, t, k) ==>
      ChannelInSync(db, ApplyBlob(g, ReadBlob(r.data).value), k)
  {
    PipelineIsOrdered(
      db, x.graph, x.sync, x.now, x.reminders, x.delta, x.nodes, x.serializedAt, x.chainHash, x.payload);
    hide Valid, Computed, Fits, Writable, WriteBlob, ReadBlob, OrdersAgree, Carried, CoversChannel, ChannelInSync;
    hide AnnouncementsFollow, UpdatesFollow, AnnouncementsOrdered, UpdatesOrdered, ListedIds, FullCount, CountNodes;
    r := SerializeDelta(x.payload, version, interval, order);
    BlobRoundTrip(x.payload, version, interval, order);
    forall k: U64 |
      x.sync <= t && k in db.announcements && OrdersAgree(db, k)
      && Carried(db, x.graph, k) && CoversChannel(db, g, t, k)
      ensures ChannelInSync(db, ApplyBlob(g, ReadBlob(r.data).value), k)
    {
      SnapshotConverges(db, x, g, t, k);
    }
  }
}
