/** Generations: what `generate_snapshots` makes, and that every valid table has computations and generations. */
module Generations {
  import opened Collections
  import opened Wrappers
  import opened GossipTypes
  import opened UpdateCodec
  import opened Database
  import opened Lookup
  import opened AnnouncementLookup
  import opened NodeLookup
  import opened NodeCodec
  import opened Histograms
  import opened Serialization
  import opened Rounding
  import opened Blob
  import opened Pipeline
  import opened Convergence
  import opened ChannelGuarantees
  import opened Snapshots
  import opened Server
  import opened Runs
  import opened QueryAnswers

  // ---------------------------------------------------------------------------------------------
  // The loop over the scopes, and the links
  // ---------------------------------------------------------------------------------------------

  /** What the computation of one scope reads. */
  datatype Inputs = Inputs(graph: Graph, nodeGraph: map<NodeId, NodeInfo>, serializedAt: U32, q: Answers)

  /** The tables that its queries saw, and when; and the hash orders of its blobs. */
  datatype Circumstances = Circumstances(db: Tables, table: set<NodeRow>, at: U32, order: HashOrder)

  /** The inputs are answers over tables that have only grown since. */
  ghost predicate Provided(
    i: Inputs, c: Circumstances, db: Tables, clock: U32, reference: U32, interval: U32, scope: U64)
    requires reference >= PRUNE_INTERVAL
  {
    && reference <= c.at <= clock && Sound(c.db, interval, c.at) && Grows(c.db, db, c.at) && reference <= i.serializedAt
    && Answered(c.db, c.table, i.graph, i.nodeGraph, LastSync(reference, scope), reference, i.q)
  }

  function CaptureFor(x: Computation, c: Circumstances): Capture {
    Capture(c.db, c.at, x, c.order)
  }

  /** Captures for the given scopes. */
  ghost predicate Captured(
    scopes: seq<U64>, snapshots: map<U64, Computation>, circumstances: map<U64, Circumstances>, db: Tables, clock: U32,
    reference: U32, interval: U32)
  {
    forall scope :: scope in scopes ==>
      && scope in snapshots && scope in circumstances
      && (Fits(snapshots[scope].payload, circumstances[scope].order) ==>
            IsCapture(CaptureFor(snapshots[scope], circumstances[scope]), db, clock, reference, interval, scope))
  }

  /**
   * One generation: a computation per scope of the ladder, and the links. Whatever it computes, if the blobs fit their
   * counters, the result is a generation in the sense of the runs.
   */
  method GenerateSnapshots(
    interval: U32, started: U32, inputs: map<U64, Inputs>, chainHash: Bytes,
    ghost circumstances: map<U64, Circumstances>, ghost db: Tables, ghost clock: U32)
    returns (reference: U32, v1: map<nat, Link>, v2: map<nat, Link>, snapshots: map<U64, Computation>)
    requires ValidInterval(interval) && RoundDown(started, interval) > EARLIEST
    requires forall scope :: scope in Ladder(interval) ==>
      && scope in inputs && scope in circumstances
      && Provided(inputs[scope], circumstances[scope], db, clock, RoundDown(started, interval), interval, scope)
    ensures reference == RoundDown(started, interval) && v1 == v2[reference := Dummy] && reference !in v2
    ensures snapshots.Keys == set scope | scope in Ladder(interval)
    ensures forall scope :: scope in Ladder(interval) ==>
      && snapshots[scope].sync == (if scope <= reference then reference - scope else 0)
      && snapshots[scope].now == reference
    ensures (forall scope :: scope in Ladder(interval) ==>
                  Fits(snapshots[scope].payload, circumstances[scope].order)) ==>
      var captures := map scope | scope in Ladder(interval) :: CaptureFor(snapshots[scope], circumstances[scope]);
      IsGeneration(Generation(reference, v2, captures), db, clock, interval)
  {
    hide Ladder, Sound, Grows, Answered, Computed, Fits, LastSync, IsCapture, RoundDown, LinksUpTo, DescribesNodes;
    reference := RoundDown(started, interval);
    var scopes := SnapshotScopes(interval);
    LadderTop(interval);
    snapshots := map[];
    var n := 0;
    while n < |scopes|
      invariant n <= |scopes| && snapshots.Keys == set scope | scope in scopes[..n]
      invariant Captured(scopes[..n], snapshots, circumstances, db, clock, reference, interval)
      invariant forall scope :: scope in snapshots ==>
        snapshots[scope].sync == LastSync(reference, scope) && snapshots[scope].now == reference
    {
      var scope := scopes[n];
      assert scope in Ladder(interval);
      var i := inputs[scope];
      ghost var c := circumstances[scope];
      SoundIsValid(c.db, interval, c.at);
      var x := CalculateDelta(
        c.db, c.table, i.graph, i.nodeGraph, LastSync(reference, scope), reference, i.serializedAt, chainHash, i.q);
      ComputedIsCapture(x, c, db, clock, reference, interval, scope);
      CapturedStep(scopes, n, snapshots, circumstances, db, clock, reference, interval, x);
      snapshots := snapshots[scope := x];
      n := n + 1;
    }
    assert scopes[..n] == scopes;
    forall scope: U64 {
      LastSyncMeaning(reference, scope);
    }
    v1, v2 := GenerateLinks(reference, SYMLINK_GRANULARITY_INTERVAL, scopes, None);
  }

  lemma LastSyncMeaning(reference: U32, scope: U64)
    ensures LastSync(reference, scope) == if scope <= reference then reference - scope else 0
  {
  }

  lemma ComputedIsCapture(
    x: Computation, c: Circumstances, db: Tables, clock: U32, reference: U32, interval: U32, scope: U64)
    requires reference <= c.at <= clock && Sound(c.db, interval, c.at) && Grows(c.db, db, c.at)
    requires Computed(c.db, x) && x.now == reference && x.serializedAt >= reference
    requires x.sync == LastSync(reference, scope)
    ensures Fits(x.payload, c.order) ==> IsCapture(CaptureFor(x, c), db, clock, reference, interval, scope)
  {
  }

  lemma CapturedStep(
    scopes: seq<U64>, n: nat, snapshots: map<U64, Computation>, circumstances: map<U64, Circumstances>, db: Tables,
    clock: U32, reference: U32, interval: U32, x: Computation)
    requires n < |scopes| && Captured(scopes[..n], snapshots, circumstances, db, clock, reference, interval)
    requires scopes[n] in circumstances
    requires Fits(x.payload, circumstances[scopes[n]].order) ==>
      IsCapture(CaptureFor(x, circumstances[scopes[n]]), db, clock, reference, interval, scopes[n])
    ensures Captured(scopes[..n + 1], snapshots[scopes[n] := x], circumstances, db, clock, reference, interval)
  {
    hide Fits, IsCapture;
    assert scopes[..n + 1] == scopes[..n] + [scopes[n]];
  }

  // ---------------------------------------------------------------------------------------------
  // Computations exist
  // ---------------------------------------------------------------------------------------------

  lemma LatestExists(db: Tables, sync: U32, k: U64, d: bool) returns (r: UpdateRow)
    requires HasSince(db, sync, k, d)
    ensures IsLatest(db, sync, k, d, r)
  {
    var rows := set x | x in db.updates && Of(x, k, d) && x.seen >= sync;
    var w :| Row(db, w, k, d) && w.seen >= sync;
    assert w in rows;
    r := LeastBy(rows, (x: UpdateRow) => 0 - x.timestamp as int);
    assert forall x :: Row(db, x, k, d) && x.seen >= sync ==> x in rows;
  }

  ghost predicate Mutates(db: Tables, sync: U32, k: U64, d: bool, reference: ChannelUpdate, p: Property) {
    exists r :: Mutation(db, sync, k, d, reference, p, r)
  }

  lemma MutationsExist(db: Tables, sync: U32, k: U64, d: bool, o: Option<UpdateDelta>) returns (m: MutatedProperties)
    ensures DescribesMutations(db, sync, k, d, o, m)
  {
    m := UNMUTATED;
    if o.Some? {
      var u := o.value.update;
      hide Mutates;
      m := MutatedProperties(
        Mutates(db, sync, k, d, u, Flags),
        FieldMask(
          Mutates(db, sync, k, d, u, CltvExpiryDelta), Mutates(db, sync, k, d, u, HtlcMinimum),
          Mutates(db, sync, k, d, u, FeeBase), Mutates(db, sync, k, d, u, FeeProportional),
          Mutates(db, sync, k, d, u, HtlcMaximum)));
      forall p
        ensures Marked(m, p) <==> Mutates(db, sync, k, d, u, p)
      {
      }
      forall p
        ensures Marked(m, p) <==> exists r :: Mutation(db, sync, k, d, u, p, r)
      {
        MutatesMeaning(db, sync, k, d, u, p);
      }
    }
  }

  lemma MutatesMeaning(db: Tables, sync: U32, k: U64, d: bool, reference: ChannelUpdate, p: Property)
    ensures Mutates(db, sync, k, d, reference, p) <==> exists r :: Mutation(db, sync, k, d, reference, p, r)
  {
  }

  lemma DirectionExists(db: Tables, sync: U32, k: U64, d: bool) returns (u: DirectedUpdateDelta)
    ensures DescribesDirection(db, sync, k, d, u) && u.serializationUpdateFlags.None?
  {
    hide IsReference, IsLatest, DescribesMutations, HasBefore, HasSince, ChannelHasSince;
    var last, latest := None, None;
    if HasBefore(db, sync, k, d) && ChannelHasSince(db, sync, k) {
      var r := ReferenceExists(db, sync, k, d);
      last := Some(UpdateDelta(r.seen, r.update));
    }
    if HasSince(db, sync, k, d) {
      var r := LatestExists(db, sync, k, d);
      latest := Some(UpdateDelta(r.seen, r.update));
    }
    var m := MutationsExist(db, sync, k, d, last);
    u := DirectedUpdateDelta(last, latest, m, None);
  }

  lemma ChannelExists(db: Tables, graph: Graph, sync: U32, now: U32, reminders: seq<UpdateRow>, k: U64)
    returns (c: ChannelDelta)
    ensures DescribesChannel(db, graph, sync, now, reminders, k, c)
  {
    hide DescribesReference, DescribesLatest, DescribesMutations, IsFirstBidirectional, CompletedSince, ReminderFlags;
    hide IsReminded;
    var forward := DirectionExists(db, sync, k, false);
    var backward := DirectionExists(db, sync, k, true);
    forward := forward.(serializationUpdateFlags := ReminderFlags(graph, sync, now, reminders, k, false));
    backward := backward.(serializationUpdateFlags := ReminderFlags(graph, sync, now, reminders, k, true));
    var first: Option<U32> := None;
    if k in ChannelIds(graph) && CompletedSince(db, sync, k) {
      FirstBidirectionalMeaning(db, sync, k);
      var t: U32 :| IsFirstBidirectional(db, k, t) && t >= sync;
      first := Some(t);
    }
    c := ChannelDelta(
      AnnouncementFor(db, graph, k), Some(forward), Some(backward), first, IsReminded(graph, sync, now, reminders, k));
    assert c.Directed(false) == forward && c.Directed(true) == backward;
  }

  /** The declarative delta of a channel. */
  ghost function ChannelFrom(
    db: Tables, graph: Graph, sync: U32, now: U32, reminders: seq<UpdateRow>, k: U64): (c: ChannelDelta)
    ensures DescribesChannel(db, graph, sync, now, reminders, k, c)
  {
    assert exists c :: DescribesChannel(db, graph, sync, now, reminders, k, c) by {
      var c := ChannelExists(db, graph, sync, now, reminders, k);
    }
    var c :| DescribesChannel(db, graph, sync, now, reminders, k, c);
    c
  }

  lemma DeltaExists(db: Tables, graph: Graph, sync: U32, now: U32, reminders: seq<UpdateRow>) returns (delta: DeltaSet)
    ensures DescribesDelta(db, graph, sync, now, reminders, delta)
  {
    hide ChannelFrom, Retained;
    delta := map k: U64 | k in ChannelIds(graph) && Retained(ChannelFrom(db, graph, sync, now, reminders, k)) ::
      ChannelFrom(db, graph, sync, now, reminders, k);
    forall k: U64
      ensures DescribesEntry(db, graph, sync, now, reminders, delta, k)
    {
      var c := ChannelFrom(db, graph, sync, now, reminders, k);
      if Retained(c) {
        RetainedIsCarried(db, graph, sync, now, reminders, k, c);
      }
      hide DescribesChannel;
      assert FilteredTo(db, graph, sync, now, reminders, delta, k, c);
    }
  }

  lemma RetainedIsCarried(
    db: Tables, graph: Graph, sync: U32, now: U32, reminders: seq<UpdateRow>, k: U64, c: ChannelDelta)
    requires DescribesChannel(db, graph, sync, now, reminders, k, c) && Retained(c)
    ensures k in ChannelIds(graph) && k in db.announcements
  {
  }

  lemma ModeExists<T(!new)>(values: seq<T>, default: T) returns (m: T)
    ensures IsMode(values, m)
  {
    m := default;
    var all := set v | v in values;
    if values != [] {
      assert values[0] in all;
      m := LeastBy(all, (v: T) => 0 - multiset(values)[v] as int);
    }
    forall v
      ensures multiset(values)[v] <= multiset(values)[m]
    {
      if v in values {
        assert v in all;
      } else {
        assert multiset(values)[v] == 0;
      }
    }
  }

  lemma ModesExist(us: seq<ChannelUpdate>) returns (m: RoutingValues)
    ensures AreModes(us, m)
  {
    hide IsMode;
    var cltv := ModeExists(CltvColumn(us), 0);
    var htlcMin := ModeExists(HtlcMinimumColumn(us), 0);
    var feeBase := ModeExists(FeeBaseColumn(us), 0);
    var feeRate := ModeExists(FeeProportionalColumn(us), 0);
    var htlcMax := ModeExists(HtlcMaximumColumn(us), 0);
    m := RoutingValues(cltv, htlcMin, feeBase, feeRate, htlcMax);
  }

  /** What serialization makes of a delta set without nodes, with the given defaults. */
  function PayloadWith(
    delta: DeltaSet, sync: U32, now: U32, defaults: RoutingValues, chainHash: Bytes): SerializationSet
    requires KeysAnnounced(delta, SortedKeys(delta.Keys))
  {
    var keys := SortedKeys(delta.Keys);
    SerializationSet(AnnouncementsOf(delta, keys, sync), UpdatesOf(delta, keys, sync, now - CHANNEL_REMINDER_AGE),
      defaults, [], map[], SeenOf(delta, keys, sync, 0), chainHash)
  }

  lemma NoLeadingFeatures()
    ensures forall threshold: int :: NodeMutations(map[], threshold) == map[]
    ensures LeadingFeatures(map[], [])
  {
    var mutations: map<NodeId, NodeDelta> := map[];
    NoSenders(mutations);
    assert mutations.Keys == {};
    var h: map<Features, nat> := map[];
    assert LeadsAmong(mutations, [], h, {});
  }

  lemma PayloadWithIsSerialized(delta: DeltaSet, sync: U32, now: U32, defaults: RoutingValues, chainHash: Bytes)
    requires KeysAnnounced(delta, SortedKeys(delta.Keys))
    requires AreModes(CountedOf(delta, SortedKeys(delta.Keys), sync, now - CHANNEL_REMINDER_AGE), defaults)
    ensures DescribesSerialization(delta, map[], sync, now, chainHash,
      PayloadWith(delta, sync, now, defaults, chainHash))
  {
    hide SortedKeys, AnnouncementsOf, UpdatesOf, CountedOf, SeenOf, AreModes, KeysAnnounced;
    NoLeadingFeatures();
  }

  /** Every valid table has a computation for every graph and time, here one without nodes. */
  lemma ComputationExists(db: Tables, graph: Graph, sync: U32, now: U32, serializedAt: U32, chainHash: Bytes)
    returns (x: Computation)
    requires Valid(db) && now >= PRUNE_INTERVAL
    ensures Computed(db, x) && x.graph == graph && x.sync == sync && x.now == now && x.serializedAt == serializedAt
    ensures x.payload.nodeMutations == map[] && x.payload.nodeFeatureDefaults == [] && x.payload.chainHash == chainHash
  {
    hide Valid, ReminderQuery, DescribesDelta, DescribesSerialization, SortedKeys, KeysAnnounced, CountedOf, AreModes;
    hide AnnouncementsOf, UpdatesOf, SeenOf;
    var reminders := RemindersAnswered(db, ChannelIds(graph), now - PRUNE_INTERVAL);
    var delta := DeltaExists(db, graph, sync, now, reminders);
    DeltaIsSerializable(db, graph, sync, now, reminders, delta);
    KeysOf(delta);
    var m := ModesExist(CountedOf(delta, SortedKeys(delta.Keys), sync, serializedAt - CHANNEL_REMINDER_AGE));
    PayloadWithIsSerialized(delta, sync, serializedAt, m, chainHash);
    x := Computation(
      sync, now, serializedAt, graph, reminders, delta, map[], chainHash,
      PayloadWith(delta, sync, serializedAt, m, chainHash));
  }

  // ---------------------------------------------------------------------------------------------
  // They fit
  // ---------------------------------------------------------------------------------------------

  /** Few enough channels for the counters, between keys of 33 bytes. */
  predicate Small(db: Tables) {
    && |db.announcements| <= 0x1000_0000
    && forall k :: k in db.announcements ==>
         && |db.announcements[k].announcement.nodeId1.coordinate| == 32
         && |db.announcements[k].announcement.nodeId2.coordinate| == 32
  }

  lemma {:induction false} SortedKeysSize(s: set<U64>)
    ensures |SortedKeys(s)| == |s|
    decreases |s|
  {
    if s != {} {
      var m := Least(s);
      SortedKeysSize(s - {m});
    }
  }

  lemma {:induction false} VectorSizes(delta: DeltaSet, keys: seq<U64>, sync: U32, threshold: int)
    requires KeysAnnounced(delta, keys)
    ensures |AnnouncementsOf(delta, keys, sync)| <= |keys| && |UpdatesOf(delta, keys, sync, threshold)| <= 2 * |keys|
  {
    hide Categorize, SendAnnouncement;
    if keys != [] {
      VectorSizes(delta, keys[1..], sync, threshold);
    }
  }

  lemma PayloadSizes(db: Tables, x: Computation)
    requires Valid(db) && Computed(db, x) && Small(db)
    ensures |x.payload.announcements| <= 0x1000_0000 && |x.payload.updates| <= 0x2000_0000
  {
    hide Valid, Computed, SortedKeys, AnnouncementsOf, UpdatesOf, SeenOf, KeysSerializable, Ascending;
    var keys := DeltaKeys(db, x);
    PayloadOf(db, x, keys);
    SortedKeysSize(x.delta.Keys);
    VectorSizes(x.delta, keys, x.sync, x.serializedAt - CHANNEL_REMINDER_AGE);
    forall k | k in x.delta.Keys
      ensures k in db.announcements.Keys
    {
      RetainedExactly(db, x, k);
    }
    SubsetSize(x.delta.Keys, db.announcements.Keys);
  }

  predicate AnnouncementsKeyed(anns: seq<ChannelAnnouncement>) {
    forall i :: 0 <= i < |anns| ==> |anns[i].nodeId1.coordinate| == 32 && |anns[i].nodeId2.coordinate| == 32
  }

  lemma {:induction false} SentKeyed(db: Tables, x: Computation, keys: seq<U64>)
    requires Small(db) && Computed(db, x) && KeysAnnounced(x.delta, keys)
    ensures AnnouncementsKeyed(AnnouncementsOf(x.delta, keys, x.sync))
  {
    hide Computed, SendAnnouncement, FilteredTo;
    if keys != [] {
      SentKeyed(db, x, keys[1..]);
      var c := ChannelOf(db, x, keys[0]);
      DescribedEntry(db, x, keys[0], c);
      assert c.announcement == AnnouncementFor(db, x.graph, keys[0]);
    }
  }

  lemma {:induction false} RequestedKeyed(anns: seq<ChannelAnnouncement>)
    requires AnnouncementsKeyed(anns)
    ensures |RequestedIds(anns)| == 2 * |anns| && forall id :: id in RequestedIds(anns) ==> |id.coordinate| == 32
  {
    if anns != [] {
      RequestedKeyed(anns[1..]);
    }
  }

  lemma {:induction false} InternedKeyed(ids: seq<NodeId>, requests: seq<NodeId>)
    requires forall id :: id in ids ==> |id.coordinate| == 32
    requires forall id :: id in requests ==> |id.coordinate| == 32
    ensures |InternAll(ids, requests)| <= |ids| + |requests|
    ensures forall id :: id in InternAll(ids, requests) ==> |id.coordinate| == 32
    decreases requests
  {
    if requests != [] {
      InternedKeyed(Intern(ids, requests[0]), requests[1..]);
    }
  }

  lemma PayloadKeyed(db: Tables, x: Computation)
    requires Valid(db) && Computed(db, x) && Small(db)
    ensures AnnouncementsKeyed(x.payload.announcements)
  {
    hide Valid, Computed, Small, SortedKeys, AnnouncementsOf, UpdatesOf, SeenOf, KeysSerializable, Ascending;
    hide AnnouncementsKeyed;
    var keys := DeltaKeys(db, x);
    PayloadOf(db, x, keys);
    SentKeyed(db, x, keys);
  }

  lemma ListedKeyed(s: SerializationSet, order: HashOrder)
    requires AnnouncementsKeyed(s.announcements) && |s.announcements| <= 0x1000_0000 && order.nodes == []
    ensures |ListedIds(s, 2, order)| <= U32_MAX && forall id :: id in ListedIds(s, 2, order) ==> |id.coordinate| == 32
  {
    hide AnnouncementsKeyed, InternAll, RequestedIds;
    RequestedKeyed(s.announcements);
    InternedKeyed([], RequestedIds(s.announcements));
    InternedKeyed(InternAll([], RequestedIds(s.announcements)), []);
  }

  /** Such a computation can be written. */
  lemma SmallFits(db: Tables, x: Computation)
    requires Valid(db) && Computed(db, x) && Small(db) && |x.payload.chainHash| == 32
    requires x.payload.nodeMutations == map[] && x.payload.nodeFeatureDefaults == []
    ensures Fits(x.payload, HashOrder([], map[]))
  {
    hide Valid, Computed, Small, ListedIds, AnnouncementsKeyed;
    PayloadSizes(db, x);
    PayloadKeyed(db, x);
    ListedKeyed(x.payload, HashOrder([], map[]));
  }

  // ---------------------------------------------------------------------------------------------
  // Links and generations exist
  // ---------------------------------------------------------------------------------------------

  lemma {:induction false} LinksExist(reference: U32, scopes: seq<U64>, n: nat) returns (links: map<nat, Link>)
    requires reference >= EARLIEST && n <= LinkCount(reference, SYMLINK_GRANULARITY_INTERVAL)
    requires scopes != [] && scopes[|scopes| - 1] == U64_MAX
    ensures LinksUpTo(reference, SYMLINK_GRANULARITY_INTERVAL, scopes, n, links)
  {
    hide LinksUpTo, LinkName, LinkCount, LinkScope;
    var g := SYMLINK_GRANULARITY_INTERVAL;
    if n == 0 {
      links := map[];
      NoLinks(reference, g, scopes);
    } else {
      links := LinksExist(reference, scopes, n - 1);
      NameIsNew(reference, g, scopes, n - 1, links);
      LinksStep(reference, g, scopes, n - 1, links);
      links := links[LinkName(reference, g, n - 1) := Link.Snapshot(LinkScope(scopes, g, n - 1))];
    }
  }

  /** A snapshot of the present tables. */
  ghost predicate CapturesNow(
    c: Capture, db: Tables, clock: U32, graph: Graph, reference: U32, interval: U32, scope: U64)
  {
    IsCapture(c, db, clock, reference, interval, scope) && c.db == db && c.at == clock && c.x.graph == graph
  }

  lemma CaptureExists(db: Tables, clock: U32, graph: Graph, reference: U32, interval: U32, scope: U64, chainHash: Bytes)
    returns (c: Capture)
    requires Sound(db, interval, clock) && Small(db) && EARLIEST < reference <= clock && |chainHash| == 32
    ensures CapturesNow(c, db, clock, graph, reference, interval, scope)
  {
    hide Sound, Small, Fits, Computed, LastSync;
    SoundIsValid(db, interval, clock);
    var x := ComputationExists(db, graph, LastSync(reference, scope), reference, reference, chainHash);
    SmallFits(db, x);
    c := Capture(db, clock, x, HashOrder([], map[]));
  }

  lemma SoundIsValid(db: Tables, interval: U32, clock: U32)
    requires Sound(db, interval, clock)
    ensures Valid(db)
  {
  }

  ghost function CaptureOf(
    db: Tables, clock: U32, graph: Graph, reference: U32, interval: U32, scope: U64, chainHash: Bytes): (c: Capture)
    requires Sound(db, interval, clock) && Small(db) && EARLIEST < reference <= clock && |chainHash| == 32
    ensures CapturesNow(c, db, clock, graph, reference, interval, scope)
  {
    assert exists c :: CapturesNow(c, db, clock, graph, reference, interval, scope) by {
      var c := CaptureExists(db, clock, graph, reference, interval, scope, chainHash);
    }
    var c :| CapturesNow(c, db, clock, graph, reference, interval, scope);
    c
  }

  /** A generation that captures the present tables in every scope. */
  ghost predicate GeneratesNow(gen: Generation, db: Tables, clock: U32, graph: Graph, reference: U32, interval: U32)
    requires interval > 0
  {
    && IsGeneration(gen, db, clock, interval) && gen.reference == reference
    && forall scope :: scope in Ladder(interval) ==>
         scope in gen.captures && CapturesNow(gen.captures[scope], db, clock, graph, reference, interval, scope)
  }

  lemma GenerationExists(db: Tables, clock: U32, graph: Graph, reference: U32, interval: U32, chainHash: Bytes)
    returns (gen: Generation)
    requires ValidInterval(interval) && Sound(db, interval, clock) && Small(db) && EARLIEST < reference <= clock
    requires IsMultiple(reference, interval) && |chainHash| == 32
    ensures GeneratesNow(gen, db, clock, graph, reference, interval)
  {
    hide Sound, Small, IsCapture, Ladder, LinkCount, LinksUpTo;
    LadderTop(interval);
    var links := LinksExist(reference, Ladder(interval), LinkCount(reference, SYMLINK_GRANULARITY_INTERVAL));
    var captures := map scope | scope in Ladder(interval) ::
      CaptureOf(db, clock, graph, reference, interval, scope, chainHash);
    gen := Generation(reference, links, captures);
    assert forall scope :: scope in Ladder(interval) ==>
      CapturesNow(captures[scope], db, clock, graph, reference, interval, scope);
  }
}
