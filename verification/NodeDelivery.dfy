/** Node details through the bytes of a version 2 blob. */
module NodeDelivery {
  import opened Wrappers
  import opened GossipTypes
  import opened Lookup
  import opened NodeLookup
  import opened NodeCodec
  import opened Serialization
  import opened Blob
  import opened Snapshots

  /** What a client makes of one record. */
  function ApplyRecord(held: NodeInfo, w: WireNode): NodeInfo {
    NodeInfo(
      if w.features.Some? then w.features.value else held.features,
      if w.addresses.Some? then (set a | a in w.addresses.value) else held.addresses)
  }

  /** What a list of records makes of one node. */
  function ApplyRecords(held: NodeInfo, nodes: seq<WireNode>, n: NodeId): NodeInfo
    decreases nodes
  {
    if nodes == [] then held
    else ApplyRecords(if nodes[0].id == n then ApplyRecord(held, nodes[0]) else held, nodes[1..], n)
  }

  /** At most 255 addresses, of at most 255 bytes each. */
  predicate AddressesFit(order: seq<Bytes>, info: NodeInfo) {
    |order| <= 255 && forall a :: a in info.addresses ==> |a| <= 255
  }

  /** A record does to a client what the strategy means. */
  lemma RecordMeansStrategy(
    id: NodeId, s: Option<NodeSerializationStrategy>, latest: NodeInfo, order: seq<Bytes>, held: NodeInfo)
    requires Enumerates(order, latest.addresses) && AddressesFit(order, latest)
    ensures ApplyRecord(held, NodeMeaning(id, s, latest.features, order)) == ApplyStrategy(held, s, latest)
  {
    AllAddressesDelivered(order, latest.addresses);
    hide Sendable, Enumerates;
  }

  lemma SilentRecord(held: NodeInfo, id: NodeId)
    ensures ApplyRecord(held, NodeMeaning(id, None, [], [])) == held
  {
  }

  lemma {:induction false} AbsentNode(held: NodeInfo, nodes: seq<WireNode>, n: NodeId)
    requires forall i :: 0 <= i < |nodes| ==> nodes[i].id != n
    ensures ApplyRecords(held, nodes, n) == held
    decreases nodes
  {
    if nodes != [] {
      AbsentNode(held, nodes[1..], n);
    }
  }

  lemma {:induction false} OnlyRecord(held: NodeInfo, nodes: seq<WireNode>, n: NodeId, i: nat)
    requires i < |nodes| && nodes[i].id == n && forall j :: 0 <= j < |nodes| && j != i ==> nodes[j].id != n
    ensures ApplyRecords(held, nodes, n) == ApplyRecord(held, nodes[i])
    decreases nodes
  {
    hide ApplyRecord;
    if i == 0 {
      AbsentNode(ApplyRecord(held, nodes[0]), nodes[1..], n);
    } else {
      assert nodes[1..][i - 1] == nodes[i];
      OnlyRecord(held, nodes[1..], n, i - 1);
    }
  }

  lemma RecordsOfListed(s: SerializationSet, version: U8, order: HashOrder, held: NodeInfo, n: NodeId)
    ensures var ids := ListedIds(s, version, order);
      ApplyRecords(held, NodesFor(s, version, order, ids), n)
      == if n in ids then ApplyRecord(held, NodeFor(s, version, order, n)) else held
  {
    hide ListedIds, ApplyRecord, ApplyRecords, NodeMeaning;
    ListedIdsProperties(s, version, order);
    var ids := ListedIds(s, version, order);
    var nodes := NodesFor(s, version, order, ids);
    assert forall i :: 0 <= i < |ids| ==> nodes[i].id == ids[i] by {
      RecordIds(s, version, order);
    }
    if n in ids {
      var i :| 0 <= i < |ids| && ids[i] == n;
      OnlyRecord(held, nodes, n, i);
    } else {
      AbsentNode(held, nodes, n);
    }
  }

  lemma RecordIds(s: SerializationSet, version: U8, order: HashOrder)
    ensures forall id :: NodeFor(s, version, order, id).id == id
  {
  }

  /** A version 2 blob does to each node what its final strategy means, and nothing to any other. */
  lemma BlobMeansStrategies(s: SerializationSet, order: HashOrder, held: NodeInfo, n: NodeId)
    requires Fits(s, order)
    requires n in s.nodeMutations ==>
      AddressesFit(order.addresses[n], s.nodeMutations[n].latestDetails.value.info)
    ensures ApplyRecords(held, NodesFor(s, 2, order, ListedIds(s, 2, order)), n)
         == if n in s.nodeMutations
            then ApplyStrategy(held, s.nodeMutations[n].strategy, s.nodeMutations[n].latestDetails.value.info) else held
  {
    hide ApplyRecord, ApplyRecords, NodeMeaning, ApplyStrategy, AddressesFit, Enumerates;
    RecordsOfListed(s, 2, order, held, n);
    if n in s.nodeMutations {
      assert n in ListedIds(s, 2, order) by {
        MutatedIsListed(s, order, n);
      }
      hide ListedIds;
      RecordMeansStrategy(
        n, s.nodeMutations[n].strategy, s.nodeMutations[n].latestDetails.value.info, order.addresses[n], held);
    } else {
      SilentRecord(held, n);
    }
  }

  lemma MutatedIsListed(s: SerializationSet, order: HashOrder, n: NodeId)
    requires Enumerates(order.nodes, s.nodeMutations.Keys) && n in s.nodeMutations
    ensures n in ListedIds(s, 2, order)
  {
    hide ListedIds;
    ListedIdsProperties(s, 2, order);
  }

  /**
   * Through the bytes: whatever a client holds, after reading and applying a version 2 blob it has the graph's latest
   * details of a node exactly when each property was sent or already there.
   */
  lemma NodeConvergesThroughBytes(
    graph: map<NodeId, NodeInfo>, table: set<NodeRow>, sync: U32, now: U32, rows: seq<NodeRow>, nodes: NodeDeltaSet,
    s: SerializationSet, serializedAt: U32, interval: U32, order: HashOrder, n: NodeId, held: NodeInfo)
    requires interval > 0 && now >= PRUNE_INTERVAL && NodeOrdersAgree(table, n)
    requires n in graph && now <= serializedAt
    requires NodeIntermediateQuery(table, graph.Keys, EffectiveThreshold(sync, now), rows)
    requires DescribesNodes(graph, table, sync, now, rows, nodes)
    requires s.nodeMutations == NodeMutations(nodes, serializedAt - CHANNEL_REMINDER_AGE)
    requires Fits(s, order) && Writable(s, 2, order)
    requires n in nodes && nodes[n].lastDetailsBeforeSeen.Some?
    requires n in s.nodeMutations ==> AddressesFit(order.addresses[n], s.nodeMutations[n].latestDetails.value.info)
    ensures var read := ReadBlob(WriteBlob(s, 2, interval, order));
      && read.Some?
      && ApplyRecords(held, read.value.nodes, n)
         == ApplyStrategy(held, FinalStrategy(nodes[n], serializedAt - CHANNEL_REMINDER_AGE), graph[n])
      && (ApplyRecords(held, read.value.nodes, n) == graph[n]
          <==> Reaches(table, sync, n, nodes[n], serializedAt - CHANNEL_REMINDER_AGE, held, graph[n]))
  {
    hide DescribesNodes, NodeIntermediateQuery, NodeMutations, ReadBlob, WriteBlob, Writable, FinalStrategy, Fits;
    hide Reaches;
    hide NodeOrdersAgree, ApplyRecords, ApplyStrategy, AddressesFit, NodesFor, ListedIds;
    MutationOf(nodes, serializedAt - CHANNEL_REMINDER_AGE, n);
    LatestOf(graph, table, sync, now, rows, nodes, n);
    NodeReachesExactly(graph, table, sync, now, rows, nodes, n, serializedAt, held);
    BlobRoundTrip(s, 2, interval, order);
    BlobMeansStrategies(s, order, held, n);
    NothingIsKept(held, graph[n]);
  }

  /** What the record of a node carries, by its final strategy. */
  predicate CarriesAs(w: WireNode, s: Option<NodeSerializationStrategy>) {
    && (w.reminder <==> s == Some(ReminderOnly))
    && (w.addresses.Some? <==> s == Some(FullDetails) || (s.Some? && s.value.MutatedOnly? && s.value.addresses))
    && (w.features.Some? <==> s == Some(FullDetails) || (s.Some? && s.value.MutatedOnly? && s.value.features))
  }

  /** In the bytes of a version 2 blob every node that is sent has a record, and it carries what its strategy says. */
  lemma RecordsCarryStrategies(s: SerializationSet, interval: U32, order: HashOrder, n: NodeId)
    requires interval > 0 && Fits(s, order) && Writable(s, 2, order)
    ensures var read := ReadBlob(WriteBlob(s, 2, interval, order));
      && read.Some?
      && (n in s.nodeMutations ==> exists i :: 0 <= i < |read.value.nodes| && read.value.nodes[i].id == n)
      && forall i :: 0 <= i < |read.value.nodes| && read.value.nodes[i].id == n ==>
           CarriesAs(read.value.nodes[i], if n in s.nodeMutations then s.nodeMutations[n].strategy else None)
  {
    hide ReadBlob, WriteBlob, Writable, Fits, ListedIds, NodeFor, CarriesAs;
    BlobRoundTrip(s, 2, interval, order);
    var ids := ListedIds(s, 2, order);
    RecordIds(s, 2, order);
    RecordCarriesStrategy(s, order, n);
    if n in s.nodeMutations {
      assert n in ids;
      var i :| 0 <= i < |ids| && ids[i] == n;
      assert NodesFor(s, 2, order, ids)[i].id == n;
    }
  }

  lemma RecordCarriesStrategy(s: SerializationSet, order: HashOrder, n: NodeId)
    requires Fits(s, order)
    ensures CarriesAs(NodeFor(s, 2, order, n), if n in s.nodeMutations then s.nodeMutations[n].strategy else None)
    ensures n in s.nodeMutations ==> n in ListedIds(s, 2, order)
  {
    hide ListedIds, Sendable, Enumerates;
    if n in s.nodeMutations {
      MutatedIsListed(s, order, n);
    }
  }

  lemma MutationOf(nodes: NodeDeltaSet, threshold: int, n: NodeId)
    requires n in nodes
    ensures n in NodeMutations(nodes, threshold) <==> FinalStrategy(nodes[n], threshold).Some?
    ensures n in NodeMutations(nodes, threshold) ==>
      NodeMutations(nodes, threshold)[n] == nodes[n].(strategy := FinalStrategy(nodes[n], threshold))
  {
  }

  lemma LatestOf(
    graph: map<NodeId, NodeInfo>, table: set<NodeRow>, sync: U32, now: U32, rows: seq<NodeRow>, nodes: NodeDeltaSet,
    n: NodeId)
    requires DescribesNodes(graph, table, sync, now, rows, nodes) && n in nodes
    ensures n in graph && nodes[n].latestDetails.Some? && nodes[n].latestDetails.value.info == graph[n]
  {
  }

  lemma NothingIsKept(held: NodeInfo, latest: NodeInfo)
    ensures ApplyStrategy(held, None, latest) == held
  {
  }

  /**
   * Through the link: a client that held a node's details as of its timestamp, at whatever generation it follows its
   * link, ends at the graph's latest details when the reference is unambiguous, and in any case exactly as above.
   */
  lemma LinkedNodeConverges(
    graph: map<NodeId, NodeInfo>, table: set<NodeRow>, reference: U32, interval: U32, links: map<nat, Link>, t: U32,
    sync: U32, rows: seq<NodeRow>, nodes: NodeDeltaSet, s: SerializationSet, serializedAt: U32, order: HashOrder,
    n: NodeId, held: NodeInfo, newest: NodeRow)
    requires interval > 0 && reference >= EARLIEST && IsLinkMap(reference, interval, links) && t in links
    requires links[t].Snapshot? ==> sync == LastSync(reference, links[t].scope)
    requires NodeOrdersAgree(table, n) && n in graph && reference <= serializedAt
    requires NodeIntermediateQuery(table, graph.Keys, EffectiveThreshold(sync, reference), rows)
    requires DescribesNodes(graph, table, sync, reference, rows, nodes)
    requires s.nodeMutations == NodeMutations(nodes, serializedAt - CHANNEL_REMINDER_AGE)
    requires Fits(s, order) && Writable(s, 2, order)
    requires n in nodes && nodes[n].lastDetailsBeforeSeen.Some? && NodeHeldAsOf(table, n, t, held)
    requires IsNewest(table, n, newest) && graph[n] == newest.info
    requires n in s.nodeMutations ==> AddressesFit(order.addresses[n], s.nodeMutations[n].latestDetails.value.info)
    ensures var read := ReadBlob(WriteBlob(s, 2, interval, order));
      && read.Some?
      && (ReferenceIsUnambiguous(table, sync, n) ==> ApplyRecords(held, read.value.nodes, n) == graph[n])
      && (ApplyRecords(held, read.value.nodes, n) == graph[n]
          <==> Reaches(table, sync, n, nodes[n], serializedAt - CHANNEL_REMINDER_AGE, held, graph[n]))
  {
    hide IsLinkMap, LastSync, NodeIntermediateQuery, NodeMutations, ReadBlob, WriteBlob, Writable, Fits, AddressesFit;
    hide NodeOrdersAgree, IsNewest, ApplyRecords, NodeHeldAsOf, ReferenceIsUnambiguous, DescribesNodeReference, Replay;
    hide Reaches, ApplyStrategy, FinalStrategy;
    assert DescribesNodeReference(table, sync, n, nodes[n].lastDetailsBeforeSeen);
    hide DescribesNodes;
    NodeConvergesThroughBytes(graph, table, sync, reference, rows, nodes, s, serializedAt, interval, order, n, held);
    if ReferenceIsUnambiguous(table, sync, n) {
      LinkIsSound(reference, interval, links, t);
      NodeHeldSince(table, sync, t, n, nodes[n].lastDetailsBeforeSeen.value, held);
      NodeConvergence(graph, table, sync, reference, rows, nodes, n, serializedAt, held, newest);
      UnambiguousServes(table, sync, n, nodes[n], serializedAt - CHANNEL_REMINDER_AGE, newest);
    }
  }
}
