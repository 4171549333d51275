/** The node delta set, the row loop that chooses each node's strategy, and what that choice guarantees. */
module NodeLookup {
  import opened Wrappers
  import opened GossipTypes
  import opened Lookup
  import opened AnnouncementLookup

  /** What a node announcement says that clients care about. */
  datatype NodeInfo = NodeInfo(features: Features, addresses: set<Bytes>)

  datatype NodeRow = NodeRow(id: int, publicKey: NodeId, timestamp: U32, seen: U32, info: NodeInfo)

  datatype NodeDetails = NodeDetails(seen: Option<U32>, info: NodeInfo)

  datatype NodeSerializationStrategy =
    | MutatedOnly(addresses: bool, features: bool)
    | FullDetails
    | ReminderOnly

  datatype NodeDelta = NodeDelta(
    latestDetails: Option<NodeDetails>,
    strategy: Option<NodeSerializationStrategy>,
    lastDetailsBeforeSeen: Option<NodeDetails>)

  type NodeDeltaSet = map<NodeId, NodeDelta>

  // ---------------------------------------------------------------------------------------------
  // The queries
  // ---------------------------------------------------------------------------------------------

  ghost predicate IsNodeReference(table: set<NodeRow>, sync: U32, n: NodeId, r: NodeRow) {
    && r in table && r.publicKey == n && r.seen < sync
    && forall x :: x in table && x.publicKey == n && x.seen < sync ==> x.seen <= r.seen
  }

  ghost predicate NodeReferenceQuery(table: set<NodeRow>, ids: set<NodeId>, sync: U32, rows: seq<NodeRow>) {
    && (forall i :: 0 <= i < |rows| ==>
          rows[i].publicKey in ids && IsNodeReference(table, sync, rows[i].publicKey, rows[i]))
    && (forall i, j :: 0 <= i < j < |rows| ==> rows[i].publicKey != rows[j].publicKey)
    && (forall x :: x in table && x.publicKey in ids && x.seen < sync ==>
          exists i :: 0 <= i < |rows| && rows[i].publicKey == x.publicKey)
  }

  /** Rows of one key are contiguous and by descending timestamp; nothing orders rows of equal timestamp. */
  predicate GroupedDescending(rows: seq<NodeRow>) {
    && (forall i, j, l :: 0 <= i < j < l < |rows| && rows[i].publicKey == rows[l].publicKey ==>
          rows[j].publicKey == rows[i].publicKey)
    && (forall i, j :: 0 <= i < j < |rows| && rows[i].publicKey == rows[j].publicKey ==>
          rows[i].timestamp >= rows[j].timestamp)
  }

  ghost predicate NodeIntermediateQuery(table: set<NodeRow>, ids: set<NodeId>, from: int, rows: seq<NodeRow>) {
    && GroupedDescending(rows)
    && (forall i :: 0 <= i < |rows| ==> rows[i] in table && rows[i].publicKey in ids && rows[i].seen >= from)
    && (forall x :: x in table && x.publicKey in ids && x.seen >= from ==> x in rows)
  }

  /** Of the node's rows one stored earlier has an earlier timestamp. */
  ghost predicate NodeOrdersAgree(table: set<NodeRow>, n: NodeId) {
    forall a, b :: a in table && b in table && a.publicKey == n && b.publicKey == n && a.seen < b.seen ==>
      a.timestamp < b.timestamp
  }

  // ---------------------------------------------------------------------------------------------
  // The loop
  // ---------------------------------------------------------------------------------------------

  /** What the loop compares rows against: the sync time, and the reminder threshold when reminders are on. */
  datatype Limits = Limits(sync: U32, reminders: bool, threshold: int)

  function LimitsAt(sync: U32, now: U32): Limits {
    Limits(sync, ShouldIncludeReminders(sync, now), now - CHANNEL_REMINDER_AGE)
  }

  function EffectiveThreshold(sync: U32, now: U32): int
    requires now >= PRUNE_INTERVAL
  {
    if ShouldIncludeReminders(sync, now) && now - PRUNE_INTERVAL < sync then now - PRUNE_INTERVAL else sync
  }

  /** The variables the loop carries from row to row of one node, and the strategy chosen so far. */
  datatype Progress = Progress(
    strategy: Option<NodeSerializationStrategy>, addresses: bool, features: bool, latestMutation: Option<U32>)

  const START := Progress(None, false, false, None)

  /** One row of a node whose last details before the sync are `last`. */
  function NodeStep(p: Progress, row: NodeRow, last: Option<NodeDetails>, l: Limits): Progress {
    match last
    case None => p.(strategy := Some(FullDetails))
    case Some(reference) =>
      var addressesDiffer := row.info.addresses != reference.info.addresses;
      var featuresDiffer := row.info.features != reference.info.features;
      var addresses := p.addresses || addressesDiffer;
      var features := p.features || featuresDiffer;
      var latestMutation :=
        if (addressesDiffer || featuresDiffer) && p.latestMutation.None? then Some(row.seen) else p.latestMutation;
      var strategy :=
        if row.seen >= l.sync then
          if addresses || features then Some(MutatedOnly(addresses, features)) else p.strategy
        else if l.reminders && latestMutation.Some? && latestMutation.value <= l.threshold then Some(ReminderOnly)
        else p.strategy;
      Progress(strategy, addresses, features, latestMutation)
  }

  function Replay(rows: seq<NodeRow>, last: Option<NodeDetails>, l: Limits): Progress {
    if rows == [] then START
    else NodeStep(Replay(rows[..|rows| - 1], last, l), rows[|rows| - 1], last, l)
  }

  /** The rows of one node, in order. */
  function RowsOf(rows: seq<NodeRow>, n: NodeId): seq<NodeRow> {
    if rows == [] then []
    else
      var init := RowsOf(rows[..|rows| - 1], n);
      if rows[|rows| - 1].publicKey == n then init + [rows[|rows| - 1]] else init
  }

  lemma {:induction false} RowsOfMembers(rows: seq<NodeRow>, n: NodeId)
    ensures forall r :: r in RowsOf(rows, n) <==> r in rows && r.publicKey == n
  {
    if rows != [] {
      RowsOfMembers(rows[..|rows| - 1], n);
      assert rows == rows[..|rows| - 1] + [rows[|rows| - 1]];
    }
  }

  lemma RowsOfStep(rows: seq<NodeRow>, i: nat, n: NodeId)
    requires i < |rows|
    ensures RowsOf(rows[..i + 1], n)
         == if rows[i].publicKey == n then RowsOf(rows[..i], n) + [rows[i]] else RowsOf(rows[..i], n)
  {
    assert rows[..i + 1][..i] == rows[..i];
  }

  lemma ReplayStep(rows: seq<NodeRow>, row: NodeRow, last: Option<NodeDetails>, l: Limits)
    ensures Replay(rows + [row], last, l) == NodeStep(Replay(rows, last, l), row, last, l)
  {
    assert (rows + [row])[..|rows|] == rows;
  }

  lemma ReplayNothing(l: Limits)
    ensures forall n :: RowsOf([], n) == []
    ensures forall last :: Replay([], last, l) == START
  {
  }

  lemma {:induction false} NoRowsOf(rows: seq<NodeRow>, n: NodeId)
    requires forall i :: 0 <= i < |rows| ==> rows[i].publicKey != n
    ensures RowsOf(rows, n) == []
  {
    if rows != [] {
      NoRowsOf(rows[..|rows| - 1], n);
    }
  }

  lemma NewGroupIsEmpty(rows: seq<NodeRow>, i: nat)
    requires i < |rows| && GroupedDescending(rows)
    requires i > 0 ==> rows[i - 1].publicKey != rows[i].publicKey
    ensures RowsOf(rows[..i], rows[i].publicKey) == []
  {
    assert forall j :: 0 <= j < i ==> rows[j].publicKey != rows[i].publicKey;
    NoRowsOf(rows[..i], rows[i].publicKey);
  }

  /** The graph's announced nodes, joined with the newest details stored before the sync. */
  ghost predicate DescribesReferences(
    graph: map<NodeId, NodeInfo>, table: set<NodeRow>, sync: U32, delta: NodeDeltaSet)
  {
    && delta.Keys == graph.Keys
    && forall n :: n in delta ==>
         && delta[n].latestDetails.Some? && delta[n].latestDetails.value.info == graph[n]
         && DescribesNodeReference(table, sync, n, delta[n].lastDetailsBeforeSeen)
  }

  ghost predicate DescribesNodeReference(table: set<NodeRow>, sync: U32, n: NodeId, o: Option<NodeDetails>) {
    && (o.Some? <==> exists r :: IsNodeReference(table, sync, n, r))
    && (o.Some? ==> exists r :: IsNodeReference(table, sync, n, r) && o.value == NodeDetails(Some(r.seen), r.info))
  }

  ghost predicate TakenFrom(rows: seq<NodeRow>, n: NodeId, d: NodeDetails) {
    exists r :: r in rows && r.publicKey == n && d == NodeDetails(Some(r.seen), r.info)
  }

  method CollectNodeReferences(
    graph: map<NodeId, NodeInfo>, ghost table: set<NodeRow>, ghost sync: U32, rows: seq<NodeRow>)
    returns (delta: NodeDeltaSet)
    requires NodeReferenceQuery(table, graph.Keys, sync, rows)
    ensures DescribesReferences(graph, table, sync, delta)
    ensures forall n :: n in delta ==> delta[n].strategy.None?
  {
    hide IsNodeReference, TakenFrom, DescribesNodeReference;
    delta := map n | n in graph :: NodeDelta(Some(NodeDetails(None, graph[n])), None, None);
    var i := 0;
    while i < |rows|
      invariant i <= |rows| && delta.Keys == graph.Keys
      invariant forall n :: n in delta ==>
        delta[n].strategy.None? && delta[n].latestDetails == Some(NodeDetails(None, graph[n]))
      invariant forall j :: 0 <= j < i ==> delta[rows[j].publicKey].lastDetailsBeforeSeen.Some?
      invariant forall n :: n in delta && delta[n].lastDetailsBeforeSeen.Some? ==>
        TakenFrom(rows, n, delta[n].lastDetailsBeforeSeen.value)
    {
      var n := rows[i].publicKey;
      if delta[n].lastDetailsBeforeSeen.None? {
        var details := NodeDetails(Some(rows[i].seen), rows[i].info);
        TakenAt(rows, i);
        delta := delta[n := delta[n].(lastDetailsBeforeSeen := Some(details))];
      }
      i := i + 1;
    }
    forall n | n in delta
      ensures DescribesNodeReference(table, sync, n, delta[n].lastDetailsBeforeSeen)
    {
      TakenDescribes(table, graph.Keys, sync, rows, n, delta[n].lastDetailsBeforeSeen);
    }
  }

  lemma TakenAt(rows: seq<NodeRow>, i: nat)
    requires i < |rows|
    ensures TakenFrom(rows, rows[i].publicKey, NodeDetails(Some(rows[i].seen), rows[i].info))
  {
    assert rows[i] in rows;
  }

  lemma TakenDescribes(
    table: set<NodeRow>, ids: set<NodeId>, sync: U32, rows: seq<NodeRow>, n: NodeId, o: Option<NodeDetails>)
    requires NodeReferenceQuery(table, ids, sync, rows) && n in ids
    requires o.Some? ==> TakenFrom(rows, n, o.value)
    requires o.None? ==> forall i :: 0 <= i < |rows| ==> rows[i].publicKey != n
    ensures DescribesNodeReference(table, sync, n, o)
  {
    if o.Some? {
      var r :| r in rows && r.publicKey == n && o.value == NodeDetails(Some(r.seen), r.info);
      assert IsNodeReference(table, sync, n, r);
    }
  }

  /** The loop over grouped rows replays each node's own rows, in order, against its own reference. */
  method ChooseStrategies(delta0: NodeDeltaSet, rows: seq<NodeRow>, l: Limits) returns (delta: NodeDeltaSet)
    requires GroupedDescending(rows)
    requires forall i :: 0 <= i < |rows| ==> rows[i].publicKey in delta0
    requires forall n :: n in delta0 ==> delta0[n].strategy.None? && delta0[n].latestDetails.Some?
    ensures delta.Keys == delta0.Keys
    ensures forall n :: n in delta ==>
      && delta[n].latestDetails.Some? && delta[n].latestDetails.value.info == delta0[n].latestDetails.value.info
      && delta[n].lastDetailsBeforeSeen == delta0[n].lastDetailsBeforeSeen
      && delta[n].strategy == Replay(RowsOf(rows, n), delta0[n].lastDetailsBeforeSeen, l).strategy
    ensures forall n :: n in delta && RowsOf(rows, n) != [] ==>
      delta[n].latestDetails.value.seen == Some(RowsOf(rows, n)[0].seen)
  {
    hide NodeStep, Replay, RowsOf, GroupedDescending;
    delta := delta0;
    var previous: Option<NodeId> := None;
    ReplayNothing(l);
    var p := START;
    var i := 0;
    while i < |rows|
      invariant i <= |rows| && delta.Keys == delta0.Keys
      invariant i == 0 ==> previous.None?
      invariant i > 0 ==> previous == Some(rows[i - 1].publicKey)
      invariant previous.Some? ==>
        previous.value in delta0
        && p == Replay(RowsOf(rows[..i], previous.value), delta0[previous.value].lastDetailsBeforeSeen, l)
      invariant forall n :: n in delta ==>
        && delta[n].latestDetails.Some? && delta[n].latestDetails.value.info == delta0[n].latestDetails.value.info
        && delta[n].lastDetailsBeforeSeen == delta0[n].lastDetailsBeforeSeen
        && delta[n].strategy == Replay(RowsOf(rows[..i], n), delta0[n].lastDetailsBeforeSeen, l).strategy
      invariant forall n :: n in delta && RowsOf(rows[..i], n) != [] ==>
        delta[n].latestDetails.value.seen == Some(RowsOf(rows[..i], n)[0].seen)
      invariant i > 0 ==> RowsOf(rows[..i], rows[i - 1].publicKey) != []
    {
      var n := rows[i].publicKey;
      var current := delta[n];
      if previous != Some(n) {
        NewGroupIsEmpty(rows, i);
        p := START;
        current := current.(latestDetails := Some(current.latestDetails.value.(seen := Some(rows[i].seen))));
      }
      ReplayStep(RowsOf(rows[..i], n), rows[i], delta0[n].lastDetailsBeforeSeen, l);
      forall m | m in delta {
        RowsOfStep(rows, i, m);
      }
      p := NodeStep(p, rows[i], current.lastDetailsBeforeSeen, l);
      current := current.(strategy := p.strategy);
      delta := delta[n := current];
      previous := Some(n);
      i := i + 1;
    }
    assert rows[..i] == rows;
  }

  /** The node delta set the stage hands on, given the rows the two queries answered with. */
  ghost predicate DescribesNodes(
    graph: map<NodeId, NodeInfo>, table: set<NodeRow>, sync: U32, now: U32, rows: seq<NodeRow>, delta: NodeDeltaSet)
  {
    && DescribesReferences(graph, table, sync, delta)
    && forall n :: n in delta ==>
         delta[n].strategy == Replay(RowsOf(rows, n), delta[n].lastDetailsBeforeSeen, LimitsAt(sync, now)).strategy
  }

  method FetchNodeUpdates(
    graph: map<NodeId, NodeInfo>, ghost table: set<NodeRow>, sync: U32, now: U32,
    references: seq<NodeRow>, intermediates: seq<NodeRow>)
    returns (delta: NodeDeltaSet)
    requires now >= PRUNE_INTERVAL
    requires NodeReferenceQuery(table, graph.Keys, sync, references)
    requires NodeIntermediateQuery(table, graph.Keys, EffectiveThreshold(sync, now), intermediates)
    ensures DescribesNodes(graph, table, sync, now, intermediates, delta)
  {
    hide Replay, RowsOf, DescribesNodeReference, GroupedDescending;
    var referenced := CollectNodeReferences(graph, table, sync, references);
    delta := ChooseStrategies(referenced, intermediates, LimitsAt(sync, now));
  }

  // ---------------------------------------------------------------------------------------------
  // What the strategy guarantees
  // ---------------------------------------------------------------------------------------------

  /** Rows since the sync come before rows from before it. */
  predicate NewFirst(rows: seq<NodeRow>, sync: U32) {
    forall i, j :: 0 <= i < j < |rows| && rows[j].seen >= sync ==> rows[i].seen >= sync
  }

  predicate AddressesMutated(rows: seq<NodeRow>, reference: NodeInfo, sync: U32) {
    exists r :: r in rows && r.seen >= sync && r.info.addresses != reference.addresses
  }

  predicate FeaturesMutated(rows: seq<NodeRow>, reference: NodeInfo, sync: U32) {
    exists r :: r in rows && r.seen >= sync && r.info.features != reference.features
  }

  /**
   * The invariant of the loop over one node's rows. A row from before the sync may replace a mutation by a
   * reminder, but only when the newest mutation is itself older than the reminder threshold.
   */
  predicate Progressed(rows: seq<NodeRow>, reference: NodeInfo, l: Limits, p: Progress) {
    var a := AddressesMutated(rows, reference, l.sync);
    var f := FeaturesMutated(rows, reference, l.sync);
    && ((forall r :: r in rows ==> r.seen >= l.sync) ==> p.addresses == a && p.features == f)
    && (p.latestMutation.Some? == (p.addresses || p.features))
    && (a || f ==> p.latestMutation.Some? && p.latestMutation.value >= l.sync)
    && (a || f ==> p.strategy == Some(MutatedOnly(a, f))
                   || (p.strategy == Some(ReminderOnly) && p.latestMutation.value <= l.threshold))
    && (!a && !f ==> p.strategy == None || p.strategy == Some(ReminderOnly))
  }

  lemma MutatedStep(rows: seq<NodeRow>, row: NodeRow, reference: NodeInfo, sync: U32)
    ensures AddressesMutated(rows + [row], reference, sync)
       <==> AddressesMutated(rows, reference, sync) || (row.seen >= sync && row.info.addresses != reference.addresses)
    ensures FeaturesMutated(rows + [row], reference, sync)
       <==> FeaturesMutated(rows, reference, sync) || (row.seen >= sync && row.info.features != reference.features)
  {
    if AddressesMutated(rows, reference, sync) {
      var r :| r in rows && r.seen >= sync && r.info.addresses != reference.addresses;
      assert r in rows + [row];
    }
    if FeaturesMutated(rows, reference, sync) {
      var r :| r in rows && r.seen >= sync && r.info.features != reference.features;
      assert r in rows + [row];
    }
    assert row in rows + [row];
  }

  lemma ProgressStep(rows: seq<NodeRow>, row: NodeRow, last: NodeDetails, l: Limits, p: Progress)
    requires Progressed(rows, last.info, l, p)
    requires row.seen >= l.sync ==> forall r :: r in rows ==> r.seen >= l.sync
    ensures Progressed(rows + [row], last.info, l, NodeStep(p, row, Some(last), l))
  {
    hide AddressesMutated, FeaturesMutated;
    MutatedStep(rows, row, last.info, l.sync);
    assert row in rows + [row];
    assert forall r :: r in rows ==> r in rows + [row];
  }

  lemma {:induction false} ReplayProgresses(rows: seq<NodeRow>, last: NodeDetails, l: Limits)
    requires NewFirst(rows, l.sync)
    ensures Progressed(rows, last.info, l, Replay(rows, Some(last), l))
  {
    if rows != [] {
      var init, row := rows[..|rows| - 1], rows[|rows| - 1];
      assert rows == init + [row];
      ReplayProgresses(init, last, l);
      ProgressStep(init, row, last, l, Replay(init, Some(last), l));
    }
  }

  lemma {:induction false} RowsOfDescending(rows: seq<NodeRow>, n: NodeId)
    requires GroupedDescending(rows)
    ensures forall i, j :: 0 <= i < j < |RowsOf(rows, n)| ==>
      RowsOf(rows, n)[i].timestamp >= RowsOf(rows, n)[j].timestamp
  {
    if rows != [] {
      var init, row := rows[..|rows| - 1], rows[|rows| - 1];
      RowsOfDescending(init, n);
      RowsOfMembers(init, n);
      forall i | 0 <= i < |RowsOf(init, n)| && row.publicKey == n
        ensures RowsOf(init, n)[i].timestamp >= row.timestamp
      {
        var r := RowsOf(init, n)[i];
        assert r in init;
        var j :| 0 <= j < |init| && init[j] == r;
        assert rows[j] == r;
      }
    }
  }

  /** With `seen` and timestamp order in agreement, a node's rows since the sync are replayed first. */
  lemma ReplayedNewFirst(table: set<NodeRow>, ids: set<NodeId>, from: int, rows: seq<NodeRow>, sync: U32, n: NodeId)
    requires NodeIntermediateQuery(table, ids, from, rows) && NodeOrdersAgree(table, n)
    ensures NewFirst(RowsOf(rows, n), sync)
  {
    var mine := RowsOf(rows, n);
    RowsOfDescending(rows, n);
    RowsOfMembers(rows, n);
    forall i, j | 0 <= i < j < |mine| && mine[j].seen >= sync
      ensures mine[i].seen >= sync
    {
      assert mine[i] in mine && mine[j] in mine;
    }
  }

  /** `x` is a row of the node stored since the sync. */
  ghost predicate NewRow(table: set<NodeRow>, sync: U32, n: NodeId, x: NodeRow) {
    x in table && x.publicKey == n && x.seen >= sync
  }

  /** What changed among the rows replayed is what changed in the table. */
  lemma MutatedInTable(
    graph: map<NodeId, NodeInfo>, table: set<NodeRow>, sync: U32, now: U32, rows: seq<NodeRow>, n: NodeId,
    reference: NodeInfo)
    requires now >= PRUNE_INTERVAL && n in graph
    requires NodeIntermediateQuery(table, graph.Keys, EffectiveThreshold(sync, now), rows)
    ensures AddressesMutated(RowsOf(rows, n), reference, sync)
       <==> exists x :: NewRow(table, sync, n, x) && x.info.addresses != reference.addresses
    ensures FeaturesMutated(RowsOf(rows, n), reference, sync)
       <==> exists x :: NewRow(table, sync, n, x) && x.info.features != reference.features
  {
    hide GroupedDescending;
    RowsOfMembers(rows, n);
    assert forall x :: NewRow(table, sync, n, x) <==> x in RowsOf(rows, n) && x.seen >= sync;
  }

  /** The strategy after the loop, in terms of the table. */
  lemma StrategyMeaning(
    graph: map<NodeId, NodeInfo>, table: set<NodeRow>, sync: U32, now: U32, rows: seq<NodeRow>, delta: NodeDeltaSet,
    n: NodeId)
    requires now >= PRUNE_INTERVAL && NodeOrdersAgree(table, n) && n in delta && delta[n].lastDetailsBeforeSeen.Some?
    requires NodeIntermediateQuery(table, graph.Keys, EffectiveThreshold(sync, now), rows)
    requires DescribesNodes(graph, table, sync, now, rows, delta)
    ensures var last := delta[n].lastDetailsBeforeSeen.value;
            var mine := RowsOf(rows, n);
            && Progressed(mine, last.info, LimitsAt(sync, now), Replay(mine, Some(last), LimitsAt(sync, now)))
            && AddressesMutated(mine, last.info, sync)
               == (exists x :: NewRow(table, sync, n, x) && x.info.addresses != last.info.addresses)
            && FeaturesMutated(mine, last.info, sync)
               == (exists x :: NewRow(table, sync, n, x) && x.info.features != last.info.features)
  {
    hide Replay, Progressed, NewFirst, GroupedDescending, LimitsAt, DescribesNodeReference, NodeOrdersAgree;
    assert LimitsAt(sync, now).sync == sync by {
      LimitsSync(sync, now);
    }
    ReplayedNewFirst(table, graph.Keys, EffectiveThreshold(sync, now), rows, sync, n);
    ReplayProgresses(RowsOf(rows, n), delta[n].lastDetailsBeforeSeen.value, LimitsAt(sync, now));
    MutatedInTable(graph, table, sync, now, rows, n, delta[n].lastDetailsBeforeSeen.value.info);
  }

  lemma LimitsSync(sync: U32, now: U32)
    ensures LimitsAt(sync, now).sync == sync && LimitsAt(sync, now).threshold == now - CHANNEL_REMINDER_AGE
  {
  }

  /** Serialization drops nodes without a strategy or a reference, and sends long-unseen ones in full. */
  function FinalStrategy(d: NodeDelta, nonIncrementalThreshold: int): Option<NodeSerializationStrategy> {
    if d.strategy.None? || d.lastDetailsBeforeSeen.None? then None
    else
      var seen := d.lastDetailsBeforeSeen.value.seen;
      if seen.Some? && seen.value <= nonIncrementalThreshold then Some(FullDetails) else d.strategy
  }

  /** The node has a strategy and a reference old enough for it to be sent in full. */
  predicate SentInFull(d: NodeDelta, threshold: int) {
    && d.strategy.Some? && d.lastDetailsBeforeSeen.Some?
    && d.lastDetailsBeforeSeen.value.seen.Some? && d.lastDetailsBeforeSeen.value.seen.value <= threshold
  }

  /**
   * A property that some announcement since the sync changed is always sent, although the loop may overwrite
   * a mutation by a reminder: then the reference is old enough for the node to be sent in full.
   */
  lemma NodeMutationsNeverDowngraded(
    graph: map<NodeId, NodeInfo>, table: set<NodeRow>, sync: U32, now: U32, rows: seq<NodeRow>, delta: NodeDeltaSet,
    n: NodeId, serializedAt: U32)
    requires now >= PRUNE_INTERVAL && NodeOrdersAgree(table, n) && n in delta && now <= serializedAt
    requires NodeIntermediateQuery(table, graph.Keys, EffectiveThreshold(sync, now), rows)
    requires DescribesNodes(graph, table, sync, now, rows, delta)
    requires delta[n].lastDetailsBeforeSeen.Some?
    ensures var last := delta[n].lastDetailsBeforeSeen.value.info;
            var a := exists x :: NewRow(table, sync, n, x) && x.info.addresses != last.addresses;
            var f := exists x :: NewRow(table, sync, n, x) && x.info.features != last.features;
            var s := FinalStrategy(delta[n], serializedAt - CHANNEL_REMINDER_AGE);
            && (a || f ==> s == Some(FullDetails) || s == Some(MutatedOnly(a, f)))
            && (!a && !f ==> s == None || s == Some(FullDetails) || s == Some(ReminderOnly))
            && (s == Some(FullDetails) <==> SentInFull(delta[n], serializedAt - CHANNEL_REMINDER_AGE))
  {
    StrategyMeaning(graph, table, sync, now, rows, delta, n);
    LimitsSync(sync, now);
    assert delta[n].lastDetailsBeforeSeen.value.seen.Some?
      && delta[n].lastDetailsBeforeSeen.value.seen.value < sync by {
      assert DescribesNodeReference(table, sync, n, delta[n].lastDetailsBeforeSeen);
    }
    hide Replay, RowsOf, AddressesMutated, FeaturesMutated, LimitsAt, NodeIntermediateQuery, NodeOrdersAgree;
    hide DescribesReferences;
  }

  // ---------------------------------------------------------------------------------------------
  // When a mutation is downgraded, whatever the order of the rows
  // ---------------------------------------------------------------------------------------------

  /** When the first row that differs from the reference was seen. */
  function FirstDifference(rows: seq<NodeRow>, reference: NodeInfo): Option<U32> {
    if rows == [] then None
    else
      var last := |rows| - 1;
      var first := FirstDifference(rows[..last], reference);
      if first.Some? then first else if rows[last].info != reference then Some(rows[last].seen) else None
  }

  /** The first row that differs from the reference, in replay order, was seen at the threshold or earlier. */
  predicate DiffersEarly(rows: seq<NodeRow>, reference: NodeInfo, threshold: int) {
    exists i :: 0 <= i < |rows| && rows[i].info != reference && rows[i].seen <= threshold
                && forall j :: 0 <= j < i ==> rows[j].info == reference
  }

  lemma {:induction false} FirstDifferenceMeaning(rows: seq<NodeRow>, reference: NodeInfo)
    ensures match FirstDifference(rows, reference)
            case None => forall i :: 0 <= i < |rows| ==> rows[i].info == reference
            case Some(t) =>
              exists i :: 0 <= i < |rows| && rows[i].info != reference && rows[i].seen == t
                          && forall j :: 0 <= j < i ==> rows[j].info == reference
  {
    if rows != [] {
      var last := |rows| - 1;
      FirstDifferenceMeaning(rows[..last], reference);
      assert forall i :: 0 <= i < last ==> rows[..last][i] == rows[i];
      if FirstDifference(rows[..last], reference).Some? {
        var i :| 0 <= i < last && rows[..last][i].info != reference
                 && rows[..last][i].seen == FirstDifference(rows[..last], reference).value
                 && forall j :: 0 <= j < i ==> rows[..last][j].info == reference;
        assert rows[i].info != reference && forall j :: 0 <= j < i ==> rows[..last][j] == rows[j];
      }
    }
  }

  lemma DiffersEarlyMeaning(rows: seq<NodeRow>, reference: NodeInfo, threshold: int)
    ensures DiffersEarly(rows, reference, threshold)
       <==> FirstDifference(rows, reference).Some? && FirstDifference(rows, reference).value <= threshold
  {
    FirstDifferenceMeaning(rows, reference);
    hide FirstDifference;
    if i, j :| 0 <= i < |rows| && 0 <= j < |rows| && rows[i].info != reference && rows[j].info != reference
               && (forall m :: 0 <= m < i ==> rows[m].info == reference)
               && (forall m :: 0 <= m < j ==> rows[m].info == reference) {
      assert i == j;
    }
  }

  /** The last row replayed is from before the sync, and turns whatever was chosen into a reminder. */
  predicate Overwritten(rows: seq<NodeRow>, reference: NodeInfo, l: Limits) {
    l.reminders && rows != [] && rows[|rows| - 1].seen < l.sync && DiffersEarly(rows, reference, l.threshold)
  }

  /** The strategy sends the properties that are to be sent. */
  predicate Sends(s: Option<NodeSerializationStrategy>, addresses: bool, features: bool) {
    s.Some? && match s.value
               case FullDetails => true
               case MutatedOnly(a, f) => (addresses ==> a) && (features ==> f)
               case ReminderOnly => false
  }

  /** Some row since the sync differs from the reference. */
  predicate Mutated(rows: seq<NodeRow>, reference: NodeInfo, sync: U32) {
    AddressesMutated(rows, reference, sync) || FeaturesMutated(rows, reference, sync)
  }

  /** The invariant of the loop over rows in any order. */
  predicate Replayed(rows: seq<NodeRow>, reference: NodeInfo, l: Limits, p: Progress) {
    var first := FirstDifference(rows, reference);
    && p.latestMutation == first && (p.addresses || p.features <==> first.Some?)
    && (AddressesMutated(rows, reference, l.sync) ==> p.addresses)
    && (FeaturesMutated(rows, reference, l.sync) ==> p.features)
    && (Mutated(rows, reference, l.sync) ==>
          if l.reminders && rows[|rows| - 1].seen < l.sync && first.value <= l.threshold
          then p.strategy == Some(ReminderOnly)
          else Sends(p.strategy, AddressesMutated(rows, reference, l.sync), FeaturesMutated(rows, reference, l.sync)))
  }

  lemma ReplayedStep(rows: seq<NodeRow>, row: NodeRow, last: NodeDetails, l: Limits, p: Progress)
    requires Replayed(rows, last.info, l, p)
    ensures Mutated(rows + [row], last.info, l.sync) ==> FirstDifference(rows + [row], last.info).Some?
    ensures Replayed(rows + [row], last.info, l, NodeStep(p, row, Some(last), l))
  {
    MutatedStep(rows, row, last.info, l.sync);
    assert (rows + [row])[..|rows|] == rows;
    hide AddressesMutated, FeaturesMutated;
    assert Mutated(rows, last.info, l.sync) ==> FirstDifference(rows, last.info).Some?;
  }

  lemma {:induction false} ReplayInAnyOrder(rows: seq<NodeRow>, last: NodeDetails, l: Limits)
    ensures Mutated(rows, last.info, l.sync) ==> FirstDifference(rows, last.info).Some?
    ensures Replayed(rows, last.info, l, Replay(rows, Some(last), l))
  {
    if rows != [] {
      var init, row := rows[..|rows| - 1], rows[|rows| - 1];
      assert rows == init + [row];
      ReplayInAnyOrder(init, last, l);
      hide Replayed;
      ReplayedStep(init, row, last, l, Replay(init, Some(last), l));
    }
  }

  /** Given a property changed since the sync: it ends as a reminder iff overwritten, and is sent otherwise. */
  lemma DowngradedExactly(rows: seq<NodeRow>, last: NodeDetails, l: Limits)
    requires Mutated(rows, last.info, l.sync)
    ensures var s := Replay(rows, Some(last), l).strategy;
      && (s == Some(ReminderOnly) <==> Overwritten(rows, last.info, l))
      && (Sends(s, AddressesMutated(rows, last.info, l.sync), FeaturesMutated(rows, last.info, l.sync))
          <==> !Overwritten(rows, last.info, l))
  {
    ReplayInAnyOrder(rows, last, l);
    DiffersEarlyMeaning(rows, last.info, l.threshold);
    hide Replay, FirstDifference, DiffersEarly;
    assert rows != [];
    hide AddressesMutated, FeaturesMutated;
  }

  /**
   * The exact condition, for any table: a property that some announcement since the sync changed is sent exactly when
   * the reference is old enough for the node to be sent in full, or its replay is not overwritten.
   */
  lemma MutationSentExactly(
    graph: map<NodeId, NodeInfo>, table: set<NodeRow>, sync: U32, now: U32, rows: seq<NodeRow>, delta: NodeDeltaSet,
    n: NodeId, serializedAt: U32)
    requires now >= PRUNE_INTERVAL && n in delta
    requires NodeIntermediateQuery(table, graph.Keys, EffectiveThreshold(sync, now), rows)
    requires DescribesNodes(graph, table, sync, now, rows, delta)
    requires delta[n].lastDetailsBeforeSeen.Some?
    ensures var last := delta[n].lastDetailsBeforeSeen.value;
            var a := exists x :: NewRow(table, sync, n, x) && x.info.addresses != last.info.addresses;
            var f := exists x :: NewRow(table, sync, n, x) && x.info.features != last.info.features;
            var threshold := serializedAt - CHANNEL_REMINDER_AGE;
            a || f ==>
              (Sends(FinalStrategy(delta[n], threshold), a, f)
               <==> || (last.seen.Some? && last.seen.value <= threshold)
                    || !Overwritten(RowsOf(rows, n), last.info, LimitsAt(sync, now)))
  {
    var last := delta[n].lastDetailsBeforeSeen.value;
    var mine := RowsOf(rows, n);
    MutatedInTable(graph, table, sync, now, rows, n, last.info);
    LimitsSync(sync, now);
    assert delta[n].strategy == Replay(mine, Some(last), LimitsAt(sync, now)).strategy;
    hide RowsOf, DescribesNodes, NodeIntermediateQuery, Replay, Overwritten, LimitsAt, AddressesMutated;
    hide FeaturesMutated;
    if Mutated(mine, last.info, sync) {
      DowngradedExactly(mine, last, LimitsAt(sync, now));
    }
  }

  // ---------------------------------------------------------------------------------------------
  // Nodes that did not change
  // ---------------------------------------------------------------------------------------------

  /** The invariant of the loop while nothing since the sync differs from the reference. */
  predicate Unchanged(rows: seq<NodeRow>, reference: NodeInfo, l: Limits, p: Progress) {
    var first := FirstDifference(rows, reference);
    && p.latestMutation == first && (p.addresses || p.features <==> first.Some?)
    && ((forall r :: r in rows ==> r.seen >= l.sync) ==> first.None?)
    && p.strategy == (if l.reminders && first.Some? && first.value <= l.threshold then Some(ReminderOnly) else None)
  }

  lemma UnchangedStep(rows: seq<NodeRow>, row: NodeRow, last: NodeDetails, l: Limits, p: Progress)
    requires Unchanged(rows, last.info, l, p) && (row.seen >= l.sync ==> row.info == last.info)
    requires row.seen >= l.sync ==> forall r :: r in rows ==> r.seen >= l.sync
    ensures Unchanged(rows + [row], last.info, l, NodeStep(p, row, Some(last), l))
  {
    assert (rows + [row])[..|rows|] == rows;
    assert row in rows + [row];
    assert forall r :: r in rows ==> r in rows + [row];
  }

  /** With the rows since the sync first and none of them changed: a reminder iff the first difference is early. */
  lemma {:induction false} UnchangedExactly(rows: seq<NodeRow>, last: NodeDetails, l: Limits)
    requires NewFirst(rows, l.sync) && !Mutated(rows, last.info, l.sync)
    ensures Unchanged(rows, last.info, l, Replay(rows, Some(last), l))
    ensures Replay(rows, Some(last), l).strategy
         == if l.reminders && DiffersEarly(rows, last.info, l.threshold) then Some(ReminderOnly) else None
  {
    DiffersEarlyMeaning(rows, last.info, l.threshold);
    if rows != [] {
      var init, row := rows[..|rows| - 1], rows[|rows| - 1];
      assert rows == init + [row];
      MutatedStep(init, row, last.info, l.sync);
      hide DiffersEarly, AddressesMutated, FeaturesMutated;
      assert row.seen >= l.sync ==> forall r :: r in init ==> r.seen >= l.sync;
      UnchangedExactly(init, last, l);
      UnchangedStep(init, row, last, l, Replay(init, Some(last), l));
    }
  }

  /** A row of the node inside the window of the query: fourteen days back when reminders are on, or since the sync. */
  ghost predicate NodeInWindow(table: set<NodeRow>, sync: U32, now: U32, n: NodeId, x: NodeRow) {
    && x in table && x.publicKey == n
    && (x.seen >= sync || (ShouldIncludeReminders(sync, now) && x.seen >= now - 1_209_600))
  }

  /** The newest row in the window that differs from the reference was seen six days ago or earlier. */
  ghost predicate DiffersLongAgo(table: set<NodeRow>, sync: U32, now: U32, n: NodeId, reference: NodeInfo) {
    exists x :: NodeInWindow(table, sync, now, n, x) && x.info != reference && x.seen <= now - 518_400
                && forall y :: NodeInWindow(table, sync, now, n, y) && y.info != reference ==>
                     y.timestamp <= x.timestamp
  }

  /** `x` differs from the reference, early enough, and nothing that differs has a higher timestamp. */
  predicate NewestDifference(rows: seq<NodeRow>, reference: NodeInfo, threshold: int, x: NodeRow) {
    && x in rows && x.info != reference && x.seen <= threshold
    && forall y :: y in rows && y.info != reference ==> y.timestamp <= x.timestamp
  }

  predicate HasNewestDifference(rows: seq<NodeRow>, reference: NodeInfo, threshold: int) {
    exists x :: x in rows && NewestDifference(rows, reference, threshold, x)
  }

  /** By descending timestamp, rows of one timestamp having been seen together. */
  predicate InReplayOrder(rows: seq<NodeRow>) {
    && (forall i, j :: 0 <= i < j < |rows| ==> rows[i].timestamp >= rows[j].timestamp)
    && (forall i, j :: 0 <= i < j < |rows| && rows[i].timestamp == rows[j].timestamp ==> rows[i].seen == rows[j].seen)
  }

  lemma EarlyHasNewest(rows: seq<NodeRow>, reference: NodeInfo, threshold: int)
    requires InReplayOrder(rows) && DiffersEarly(rows, reference, threshold)
    ensures HasNewestDifference(rows, reference, threshold)
  {
    var i :| 0 <= i < |rows| && rows[i].info != reference && rows[i].seen <= threshold
             && forall j :: 0 <= j < i ==> rows[j].info == reference;
    forall y | y in rows && y.info != reference
      ensures y.timestamp <= rows[i].timestamp
    {
      var j :| 0 <= j < |rows| && rows[j] == y;
    }
    assert NewestDifference(rows, reference, threshold, rows[i]);
  }

  lemma NewestIsEarly(rows: seq<NodeRow>, reference: NodeInfo, threshold: int)
    requires InReplayOrder(rows) && HasNewestDifference(rows, reference, threshold)
    ensures DiffersEarly(rows, reference, threshold)
  {
    var x :| x in rows && NewestDifference(rows, reference, threshold, x);
    FirstDifferenceMeaning(rows, reference);
    hide FirstDifference;
    var j :| 0 <= j < |rows| && rows[j] == x;
    var i :| 0 <= i < |rows| && rows[i].info != reference && forall m :: 0 <= m < i ==> rows[m].info == reference;
    assert rows[i] in rows && rows[i].timestamp == x.timestamp;
    assert i <= j;
  }

  /** The rows that are replayed for a node are those in the window. */
  lemma RowsAreWindow(
    graph: map<NodeId, NodeInfo>, table: set<NodeRow>, sync: U32, now: U32, rows: seq<NodeRow>, n: NodeId)
    requires now >= PRUNE_INTERVAL && n in graph
    requires NodeIntermediateQuery(table, graph.Keys, EffectiveThreshold(sync, now), rows)
    ensures forall x :: x in RowsOf(rows, n) <==> NodeInWindow(table, sync, now, n, x)
  {
    hide GroupedDescending, RowsOf, ShouldIncludeReminders;
    RowsOfMembers(rows, n);
  }

  /** Whatever the order of rows with equal timestamps, the loop finds the newest difference. */
  lemma EarlyIsLongAgo(
    graph: map<NodeId, NodeInfo>, table: set<NodeRow>, sync: U32, now: U32, rows: seq<NodeRow>, n: NodeId,
    reference: NodeInfo)
    requires now >= PRUNE_INTERVAL && n in graph && NodeOrdersAgree(table, n)
    requires NodeIntermediateQuery(table, graph.Keys, EffectiveThreshold(sync, now), rows)
    ensures DiffersEarly(RowsOf(rows, n), reference, now - 518_400)
       <==> DiffersLongAgo(table, sync, now, n, reference)
  {
    hide RowsOf, DiffersEarly, HasNewestDifference, DiffersLongAgo, InReplayOrder, NodeIntermediateQuery;
    hide NodeOrdersAgree;
    hide EffectiveThreshold, NodeInWindow;
    var mine := RowsOf(rows, n);
    RowsAreWindow(graph, table, sync, now, rows, n);
    ReplayOrder(table, graph.Keys, EffectiveThreshold(sync, now), rows, n);
    if DiffersEarly(mine, reference, now - 518_400) {
      EarlyHasNewest(mine, reference, now - 518_400);
    }
    if HasNewestDifference(mine, reference, now - 518_400) {
      NewestIsEarly(mine, reference, now - 518_400);
    }
    LongAgoIsNewest(table, sync, now, n, reference, mine, now - 518_400);
  }

  lemma ReplayOrder(table: set<NodeRow>, ids: set<NodeId>, from: int, rows: seq<NodeRow>, n: NodeId)
    requires NodeIntermediateQuery(table, ids, from, rows) && NodeOrdersAgree(table, n)
    ensures InReplayOrder(RowsOf(rows, n))
  {
    var mine := RowsOf(rows, n);
    RowsOfDescending(rows, n);
    RowsOfMembers(rows, n);
    hide RowsOf, GroupedDescending;
    forall i, j | 0 <= i < j < |mine| && mine[i].timestamp == mine[j].timestamp
      ensures mine[i].seen == mine[j].seen
    {
      assert mine[i] in mine && mine[j] in mine;
    }
  }

  lemma LongAgoIsNewest(
    table: set<NodeRow>, sync: U32, now: U32, n: NodeId, reference: NodeInfo, mine: seq<NodeRow>, threshold: int)
    requires forall x :: x in mine <==> NodeInWindow(table, sync, now, n, x)
    requires threshold == now - 518_400
    ensures DiffersLongAgo(table, sync, now, n, reference) <==> HasNewestDifference(mine, reference, threshold)
  {
    hide NodeInWindow;
    if x :| x in mine && NewestDifference(mine, reference, threshold, x) {
      assert NodeInWindow(table, sync, now, n, x);
    }
    if x :| NodeInWindow(table, sync, now, n, x) && x.info != reference && x.seen <= now - 518_400
            && forall y :: NodeInWindow(table, sync, now, n, y) && y.info != reference ==> y.timestamp <= x.timestamp {
      assert x in mine && NewestDifference(mine, reference, threshold, x);
    }
  }

  /**
   * What is sent for every node of the graph, exactly: nothing without a reference; otherwise in full once the
   * reference is six days old, if anything is sent at all; else the changed properties; else a reminder when reminders
   * are on and the newest difference from the reference is itself six days old; else nothing.
   */
  lemma NodeStrategyExactly(
    graph: map<NodeId, NodeInfo>, table: set<NodeRow>, sync: U32, now: U32, rows: seq<NodeRow>, delta: NodeDeltaSet,
    n: NodeId, serializedAt: U32)
    requires now >= PRUNE_INTERVAL && NodeOrdersAgree(table, n) && n in delta && now <= serializedAt
    requires NodeIntermediateQuery(table, graph.Keys, EffectiveThreshold(sync, now), rows)
    requires DescribesNodes(graph, table, sync, now, rows, delta)
    ensures var s := FinalStrategy(delta[n], serializedAt - CHANNEL_REMINDER_AGE);
            var o := delta[n].lastDetailsBeforeSeen;
            && (o.None? ==> s == None)
            && (o.Some? ==>
                  var a := exists x :: NewRow(table, sync, n, x) && x.info.addresses != o.value.info.addresses;
                  var f := exists x :: NewRow(table, sync, n, x) && x.info.features != o.value.info.features;
                  var due := ShouldIncludeReminders(sync, now) && DiffersLongAgo(table, sync, now, n, o.value.info);
                  && o.value.seen.Some?
                  && s == if !a && !f && !due then None
                          else if o.value.seen.value <= serializedAt - 518_400 then Some(FullDetails)
                          else if a || f then Some(MutatedOnly(a, f))
                          else Some(ReminderOnly))
  {
    if delta[n].lastDetailsBeforeSeen.Some? {
      var last := delta[n].lastDetailsBeforeSeen.value;
      assert n in graph && last.seen.Some? && last.seen.value < sync by {
        assert DescribesNodeReference(table, sync, n, delta[n].lastDetailsBeforeSeen);
      }
      assert delta[n].strategy == Replay(RowsOf(rows, n), Some(last), LimitsAt(sync, now)).strategy;
      NodeMutationsNeverDowngraded(graph, table, sync, now, rows, delta, n, serializedAt);
      hide DescribesNodes, NodeIntermediateQuery, Replay, RowsOf, NewFirst, DiffersEarly, DiffersLongAgo, NewRow;
      hide ShouldIncludeReminders, NodeOrdersAgree, AddressesMutated, FeaturesMutated, EffectiveThreshold;
      MutatedInTable(graph, table, sync, now, rows, n, last.info);
      if !Mutated(RowsOf(rows, n), last.info, sync) {
        ReplayedNewFirst(table, graph.Keys, EffectiveThreshold(sync, now), rows, sync, n);
        UnchangedExactly(RowsOf(rows, n), last, LimitsAt(sync, now));
        EarlyIsLongAgo(graph, table, sync, now, rows, n, last.info);
      }
    }
  }

  lemma {:induction false} OnlyOwnRows(rows: seq<NodeRow>, n: NodeId)
    requires forall i :: 0 <= i < |rows| ==> rows[i].publicKey == n
    ensures RowsOf(rows, n) == rows
  {
    if rows != [] {
      OnlyOwnRows(rows[..|rows| - 1], n);
    }
  }

  /** Features changed since the sync, yet only a reminder is sent. */
  ghost predicate Downgraded(
    graph: map<NodeId, NodeInfo>, table: set<NodeRow>, sync: U32, now: U32, references: seq<NodeRow>,
    rows: seq<NodeRow>,
    delta: NodeDeltaSet, n: NodeId)
  {
    && now >= PRUNE_INTERVAL && NodeReferenceQuery(table, graph.Keys, sync, references)
    && NodeIntermediateQuery(table, graph.Keys, EffectiveThreshold(sync, now), rows)
    && DescribesNodes(graph, table, sync, now, rows, delta)
    && n in delta && delta[n].lastDetailsBeforeSeen.Some?
    && (exists x :: NewRow(table, sync, n, x) && x.info.features != delta[n].lastDetailsBeforeSeen.value.info.features)
    && FinalStrategy(delta[n], now - CHANNEL_REMINDER_AGE) == Some(ReminderOnly)
  }

  /** A table of three rows: an old one with the highest timestamp, a new one, and the reference with the lowest. */
  predicate ThreeRows(n: NodeId, r1: NodeRow, r2: NodeRow, r3: NodeRow, sync: U32, from: int) {
    && r1.publicKey == n && r2.publicKey == n && r3.publicKey == n
    && r1.timestamp > r2.timestamp > r3.timestamp && from <= r1.seen < r3.seen < sync <= r2.seen
  }

  lemma ThreeRowsAnswered(n: NodeId, r1: NodeRow, r2: NodeRow, r3: NodeRow, sync: U32, from: int)
    requires ThreeRows(n, r1, r2, r3, sync, from)
    ensures NodeReferenceQuery({r1, r2, r3}, {n}, sync, [r3])
    ensures NodeIntermediateQuery({r1, r2, r3}, {n}, from, [r1, r2, r3])
    ensures DescribesNodeReference({r1, r2, r3}, sync, n, Some(NodeDetails(Some(r3.seen), r3.info)))
  {
    assert IsNodeReference({r1, r2, r3}, sync, n, r3);
    assert [r3][0].publicKey == n;
    var rows := [r1, r2, r3];
    assert rows[0] == r1 && rows[1] == r2 && rows[2] == r3;
  }

  lemma ThreeRowsOverwritten(n: NodeId, r1: NodeRow, r2: NodeRow, r3: NodeRow, from: int, l: Limits)
    requires ThreeRows(n, r1, r2, r3, l.sync, from) && l.reminders && r1.seen <= l.threshold
    requires r1.info.features != r3.info.features && r2.info == r1.info
    ensures RowsOf([r1, r2, r3], n) == [r1, r2, r3]
    ensures Mutated([r1, r2, r3], r3.info, l.sync) && Overwritten([r1, r2, r3], r3.info, l)
  {
    var rows := [r1, r2, r3];
    assert rows[0] == r1 && rows[1] == r2 && rows[2] == r3;
    OnlyOwnRows(rows, n);
    hide RowsOf;
    assert r2 in rows;
    assert FeaturesMutated(rows, r3.info, l.sync);
  }

  /** The delta set that the stage makes of such a table when reminders are due. */
  function ThreeRowsDelta(n: NodeId, r1: NodeRow, r3: NodeRow): NodeDeltaSet {
    map[n := NodeDelta(
          Some(NodeDetails(Some(r1.seen), r1.info)), Some(ReminderOnly), Some(NodeDetails(Some(r3.seen), r3.info)))]
  }

  lemma ThreeRowsReplayed(n: NodeId, r1: NodeRow, r2: NodeRow, r3: NodeRow, from: int, l: Limits)
    requires ThreeRows(n, r1, r2, r3, l.sync, from) && l.reminders && r1.seen <= l.threshold
    requires r1.info.features != r3.info.features && r2.info == r1.info
    ensures Replay(RowsOf([r1, r2, r3], n), Some(NodeDetails(Some(r3.seen), r3.info)), l).strategy == Some(ReminderOnly)
  {
    hide Replay, RowsOf, Mutated, Overwritten;
    ThreeRowsOverwritten(n, r1, r2, r3, from, l);
    DowngradedExactly([r1, r2, r3], NodeDetails(Some(r3.seen), r3.info), l);
  }

  lemma ThreeRowsDescribed(n: NodeId, r1: NodeRow, r2: NodeRow, r3: NodeRow, sync: U32, now: U32, from: int)
    requires ShouldIncludeReminders(sync, now) && ThreeRows(n, r1, r2, r3, sync, from)
    requires r1.seen <= now - CHANNEL_REMINDER_AGE && r1.info.features != r3.info.features && r2.info == r1.info
    ensures DescribesNodes(map[n := r1.info], {r1, r2, r3}, sync, now, [r1, r2, r3], ThreeRowsDelta(n, r1, r3))
  {
    hide ShouldIncludeReminders;
    var l := LimitsAt(sync, now);
    hide NodeReferenceQuery, NodeIntermediateQuery, DescribesNodeReference, Replay, RowsOf, ThreeRows;
    ThreeRowsReplayed(n, r1, r2, r3, from, l);
    hide LimitsAt;
    ThreeRowsAnswered(n, r1, r2, r3, sync, from);
  }

  /**
   * Without agreement of the two orders a mutation can be downgraded: an old row with the highest timestamp sets the
   * newest mutation, a row since the sync changes the features, and the reference, replayed last, makes it a reminder.
   */
  lemma DisorderCanDowngrade(n: NodeId)
    returns (graph: map<NodeId, NodeInfo>, table: set<NodeRow>, sync: U32, now: U32, references: seq<NodeRow>,
             rows: seq<NodeRow>, delta: NodeDeltaSet)
    ensures Downgraded(graph, table, sync, now, references, rows, delta, n)
  {
    hide EffectiveThreshold, ShouldIncludeReminders, NodeReferenceQuery, NodeIntermediateQuery, DescribesNodeReference;
    hide DescribesNodes;
    var past, recent := NodeInfo([], {}), NodeInfo([1], {});
    assert |recent.features| != |past.features|;
    sync, now := 1_645_898_400, 1_645_920_000;
    DowngradeTimes();
    var r1 := NodeRow(1, n, 30, 1_645_000_000, recent);
    var r2 := NodeRow(2, n, 20, 1_645_898_400, recent);
    var r3 := NodeRow(3, n, 10, 1_645_800_000, past);
    graph, table, references, rows := map[n := recent], {r1, r2, r3}, [r3], [r1, r2, r3];
    delta := ThreeRowsDelta(n, r1, r3);
    ThreeRowsAnswered(n, r1, r2, r3, sync, EffectiveThreshold(sync, now));
    ThreeRowsDescribed(n, r1, r2, r3, sync, now, EffectiveThreshold(sync, now));
    hide ThreeRows;
    assert graph.Keys == {n};
    assert NewRow(table, sync, n, r2);
  }

  lemma DowngradeTimes()
    ensures ShouldIncludeReminders(1_645_898_400, 1_645_920_000)
    ensures EffectiveThreshold(1_645_898_400, 1_645_920_000) == 1_644_710_400
  {
  }

  // ---------------------------------------------------------------------------------------------
  // Convergence
  // ---------------------------------------------------------------------------------------------

  /** Whichever row of the newest second before the sync the reference query picks, it says the same. */
  ghost predicate ReferenceIsUnambiguous(table: set<NodeRow>, sync: U32, n: NodeId) {
    forall a, b :: IsNodeReference(table, sync, n, a) && IsNodeReference(table, sync, n, b) ==> a.info == b.info
  }

  ghost predicate IsNewest(table: set<NodeRow>, n: NodeId, w: NodeRow) {
    && w in table && w.publicKey == n
    && forall x :: x in table && x.publicKey == n ==> x.timestamp <= w.timestamp
  }

  /** What a client makes of a node's record. */
  function ApplyStrategy(held: NodeInfo, s: Option<NodeSerializationStrategy>, latest: NodeInfo): NodeInfo {
    match s
    case None => held
    case Some(ReminderOnly) => held
    case Some(FullDetails) => latest
    case Some(MutatedOnly(a, f)) =>
      NodeInfo(if f then latest.features else held.features, if a then latest.addresses else held.addresses)
  }

  /** Each property is sent, because an announcement since the sync changed it, or the client has it already. */
  ghost predicate Reaches(
    table: set<NodeRow>, sync: U32, n: NodeId, d: NodeDelta, threshold: int, held: NodeInfo, latest: NodeInfo)
    requires d.lastDetailsBeforeSeen.Some?
  {
    var last := d.lastDetailsBeforeSeen.value.info;
    || SentInFull(d, threshold)
    || (&& (held.addresses == latest.addresses
            || exists x :: NewRow(table, sync, n, x) && x.info.addresses != last.addresses)
        && (held.features == latest.features
            || exists x :: NewRow(table, sync, n, x) && x.info.features != last.features))
  }

  /** Whatever a client holds: when its details become the graph's. */
  lemma NodeReachesExactly(
    graph: map<NodeId, NodeInfo>, table: set<NodeRow>, sync: U32, now: U32, rows: seq<NodeRow>, delta: NodeDeltaSet,
    n: NodeId, serializedAt: U32, held: NodeInfo)
    requires now >= PRUNE_INTERVAL && NodeOrdersAgree(table, n) && n in delta && now <= serializedAt && n in graph
    requires NodeIntermediateQuery(table, graph.Keys, EffectiveThreshold(sync, now), rows)
    requires DescribesNodes(graph, table, sync, now, rows, delta)
    requires delta[n].lastDetailsBeforeSeen.Some?
    ensures var threshold := serializedAt - CHANNEL_REMINDER_AGE;
      ApplyStrategy(held, FinalStrategy(delta[n], threshold), graph[n]) == graph[n]
      <==> Reaches(table, sync, n, delta[n], threshold, held, graph[n])
  {
    NodeMutationsNeverDowngraded(graph, table, sync, now, rows, delta, n, serializedAt);
    hide DescribesNodes, NodeIntermediateQuery, NodeOrdersAgree, NewRow;
    hide SentInFull, FinalStrategy;
  }

  /**
   * Something was announced since the sync, the node is sent in full, or the reference row says what the graph says.
   */
  ghost predicate ReferenceServes(
    table: set<NodeRow>, sync: U32, n: NodeId, d: NodeDelta, threshold: int, latest: NodeInfo)
    requires d.lastDetailsBeforeSeen.Some?
  {
    || (exists x :: NewRow(table, sync, n, x))
    || SentInFull(d, threshold)
    || d.lastDetailsBeforeSeen.value.info == latest
  }

  /**
   * A client holding the reference, or anything announced since the sync, ends at the graph's latest details, except
   * when nothing was announced since and the query picked a reference that another row of its second has overtaken.
   */
  lemma NodeConvergence(
    graph: map<NodeId, NodeInfo>, table: set<NodeRow>, sync: U32, now: U32, rows: seq<NodeRow>, delta: NodeDeltaSet,
    n: NodeId, serializedAt: U32, held: NodeInfo, newest: NodeRow)
    requires now >= PRUNE_INTERVAL && NodeOrdersAgree(table, n)
    requires n in delta && now <= serializedAt && n in graph
    requires NodeIntermediateQuery(table, graph.Keys, EffectiveThreshold(sync, now), rows)
    requires DescribesNodes(graph, table, sync, now, rows, delta)
    requires delta[n].lastDetailsBeforeSeen.Some?
    requires held == delta[n].lastDetailsBeforeSeen.value.info
          || exists x :: NewRow(table, sync, n, x) && held == x.info
    requires IsNewest(table, n, newest) && graph[n] == newest.info
    ensures var threshold := serializedAt - CHANNEL_REMINDER_AGE;
      ApplyStrategy(held, FinalStrategy(delta[n], threshold), graph[n]) == graph[n]
      <==> ReferenceServes(table, sync, n, delta[n], threshold, graph[n])
  {
    NodeReachesExactly(graph, table, sync, now, rows, delta, n, serializedAt, held);
    hide DescribesNodes, NodeIntermediateQuery, FinalStrategy, ApplyStrategy, SentInFull;
    if exists x :: NewRow(table, sync, n, x) {
      assert NewRow(table, sync, n, newest);
    }
  }

  /** With an unambiguous reference there is no such exception. */
  lemma UnambiguousServes(
    table: set<NodeRow>, sync: U32, n: NodeId, d: NodeDelta, threshold: int, newest: NodeRow)
    requires NodeOrdersAgree(table, n) && ReferenceIsUnambiguous(table, sync, n) && IsNewest(table, n, newest)
    requires d.lastDetailsBeforeSeen.Some? && DescribesNodeReference(table, sync, n, d.lastDetailsBeforeSeen)
    ensures ReferenceServes(table, sync, n, d, threshold, newest.info)
  {
    if newest.seen >= sync {
      assert NewRow(table, sync, n, newest);
    } else {
      assert IsNodeReference(table, sync, n, newest);
    }
  }

  /** The details are those of a row at least as new as everything announced before `t`. */
  ghost predicate NodeHeldAsOf(table: set<NodeRow>, n: NodeId, t: U32, held: NodeInfo) {
    exists x :: x in table && x.publicKey == n && held == x.info
                && forall y :: y in table && y.publicKey == n && y.seen < t ==> y.timestamp <= x.timestamp
  }

  /** What a client held at `t` are the reference details of any earlier sync, or some announced since that sync. */
  lemma NodeHeldSince(table: set<NodeRow>, sync: U32, t: U32, n: NodeId, last: NodeDetails, held: NodeInfo)
    requires NodeOrdersAgree(table, n) && ReferenceIsUnambiguous(table, sync, n) && sync <= t
    requires DescribesNodeReference(table, sync, n, Some(last)) && NodeHeldAsOf(table, n, t, held)
    ensures held == last.info || exists x :: NewRow(table, sync, n, x) && held == x.info
  {
    var r :| IsNodeReference(table, sync, n, r) && last == NodeDetails(Some(r.seen), r.info);
    var x :| x in table && x.publicKey == n && held == x.info
             && forall y :: y in table && y.publicKey == n && y.seen < t ==> y.timestamp <= x.timestamp;
    if x.seen >= sync {
      assert NewRow(table, sync, n, x);
    } else {
      assert x.seen == r.seen;
      assert IsNodeReference(table, sync, n, x);
    }
  }
}
