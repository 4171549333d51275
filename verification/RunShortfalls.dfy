/** Runs in which an expected property fails: a channel that is missed, and a timestamp that goes back. */
module RunShortfalls {
  import opened Collections
  import opened Wrappers
  import opened GossipTypes
  import opened Database
  import opened Lookup
  import opened AnnouncementLookup
  import opened Serialization
  import opened Rounding
  import opened Blob
  import opened Client
  import opened Pipeline
  import opened Convergence
  import opened ChannelGuarantees
  import opened Snapshots
  import opened Runs
  import opened Generations
  import opened Shortfalls

  // ---------------------------------------------------------------------------------------------
  // Which snapshot the first and the next fetch get
  // ---------------------------------------------------------------------------------------------

  /** A new client is linked to the snapshot of everything. */
  lemma NewClientIsServed(w: World, db: Tables, graph: Graph, reference: U32, interval: U32)
    requires ValidInterval(interval) && w.published.Some? && w.timestamp == 0 && w.db == db
    requires GeneratesNow(w.published.value, db, w.clock, graph, reference, interval)
    ensures Served(w).Some? && Served(w).value.x.sync == 0
    ensures Served(w).value.db == db && Served(w).value.x.graph == graph && Computed(db, Served(w).value.x)
  {
    hide Ladder, IsLinkMap, Computed, Fits, Sound, Grows;
    ZeroIsLinked(reference, interval, w.published.value.links);
    LadderTop(interval);
  }

  lemma ZeroIsLinked(reference: U32, interval: U32, links: map<nat, Link>)
    requires ValidInterval(interval) && IsMultiple(reference, interval)
    requires reference > EARLIEST && IsLinkMap(reference, interval, links)
    ensures 0 in links && links[0] == Link.Snapshot(U64_MAX)
  {
    MultipleOfGranularity(reference, interval);
    assert LinkCount(reference, SYMLINK_GRANULARITY_INTERVAL) > 0;
    hide Ladder, IsLinkMap, LinkCount;
    LinkOfStep(reference, interval, links, 0);
  }

  lemma SmallestScope(interval: U32)
    requires ValidInterval(interval)
    ensures interval in Ladder(interval) && Ladder(interval)[|Ladder(interval)| - 1] == U64_MAX
    ensures FirstFit(Ladder(interval), interval) == interval
  {
    LadderTop(interval);
    assert Ladder(interval)[0] == interval;
  }

  lemma PreviousIntervalIsLinked(reference: U32, interval: U32, links: map<nat, Link>, t: U32)
    requires ValidInterval(interval) && IsMultiple(t, interval) && IsMultiple(reference, interval)
    requires EARLIEST < t && t + interval == reference && IsLinkMap(reference, interval, links)
    ensures t in links && links[t] == Link.Snapshot(interval)
  {
    MultipleOfGranularity(reference, interval);
    MultipleOfGranularity(t, interval);
    var i := StepOfName(reference, t);
    assert SYMLINK_GRANULARITY_INTERVAL * i == interval;
    SmallestScope(interval);
    hide IsLinkMap, LinkCount, Ladder, FirstFit;
    LinkOfStep(reference, interval, links, i);
  }

  /** A client one interval behind the reference is linked to the smallest snapshot, which goes back just that far. */
  lemma NextClientIsServed(w: World, db: Tables, graph: Graph, reference: U32, interval: U32)
    requires ValidInterval(interval) && w.published.Some? && w.db == db
    requires w.timestamp + interval == reference && IsMultiple(w.timestamp, interval) && w.timestamp > EARLIEST
    requires GeneratesNow(w.published.value, db, w.clock, graph, reference, interval)
    ensures Served(w).Some? && Served(w).value.x.sync == w.timestamp
    ensures Served(w).value.db == db && Served(w).value.x.graph == graph && Computed(db, Served(w).value.x)
  {
    hide Ladder, IsLinkMap, Computed, Fits, Sound, Grows;
    SmallestScope(interval);
    PreviousIntervalIsLinked(reference, interval, w.published.value.links, w.timestamp);
  }

  // ---------------------------------------------------------------------------------------------
  // The tables
  // ---------------------------------------------------------------------------------------------

  /** Updates of `k` just before `t`, updates of `j` at `t`, and announcements at `t`, of `j` at least. */
  ghost predicate AroundBoundary(db: Tables, k: U64, j: U64, t: U32) {
    && 0 < t && j != k && Valid(db) && OrdersAgree(db, k) && Small(db)
    && (forall r :: r in db.updates ==> (r.scid == k && r.seen == t - 1) || (r.scid == j && r.seen == t))
    && (forall r :: r in db.updates ==> !DisabledBy(r.update.channelFlags))
    && (forall a :: a in db.announcements ==> (a == k || a == j) && db.announcements[a].seen == t)
    && j in db.announcements && HasRow(db, j, false) && HasRow(db, k, false) && HasRow(db, k, true)
  }

  /** The tables before and after the announcement of `k` is stored. */
  function BoundaryTables(k: U64, j: U64, t: U32, announced: bool): Tables
    requires 0 < t
  {
    var announcements := map[j := ExampleAnnouncement(j, t)];
    Tables(if announced then announcements[k := ExampleAnnouncement(k, t)] else announcements,
           {ExampleRow(k, false, t - 1, 0), ExampleRow(k, true, t - 1, 0),
            ExampleRow(j, false, t, 0), ExampleRow(j, true, t, 0)})
  }

  lemma BoundaryTablesValid(k: U64, j: U64, t: U32, announced: bool)
    requires 0 < t && j != k
    ensures Valid(BoundaryTables(k, j, t, announced))
  {
  }

  lemma BoundaryTablesAgree(k: U64, j: U64, t: U32, announced: bool)
    requires 0 < t && j != k
    ensures OrdersAgree(BoundaryTables(k, j, t, announced), k)
  {
  }

  lemma BoundaryTablesSmall(k: U64, j: U64, t: U32, announced: bool)
    requires 0 < t && j != k
    ensures Small(BoundaryTables(k, j, t, announced))
    ensures k in BoundaryTables(k, j, t, announced).announcements <==> announced
  {
    var db := BoundaryTables(k, j, t, announced);
    assert db.announcements.Keys <= {k, j};
    SubsetSize(db.announcements.Keys, {k, j});
  }

  lemma BoundaryTablesMeaning(k: U64, j: U64, t: U32, announced: bool)
    requires 0 < t && j != k
    ensures AroundBoundary(BoundaryTables(k, j, t, announced), k, j, t)
    ensures k in BoundaryTables(k, j, t, announced).announcements <==> announced
  {
    BoundaryTablesValid(k, j, t, announced);
    BoundaryTablesAgree(k, j, t, announced);
    BoundaryTablesSmall(k, j, t, announced);
    BoundaryTablesRows(k, j, t, announced);
    hide Valid, OrdersAgree, Small, HasRow, ExampleRow, DisabledBy;
  }

  lemma BoundaryTablesRows(k: U64, j: U64, t: U32, announced: bool)
    requires 0 < t && j != k
    ensures var db := BoundaryTables(k, j, t, announced);
      && (forall r :: r in db.updates ==> (r.scid == k && r.seen == t - 1) || (r.scid == j && r.seen == t))
      && (forall r :: r in db.updates ==> !DisabledBy(r.update.channelFlags))
      && HasRow(db, j, false) && HasRow(db, k, false) && HasRow(db, k, true)
  {
    var db := BoundaryTables(k, j, t, announced);
    assert Row(db, ExampleRow(k, false, t - 1, 0), k, false) && Row(db, ExampleRow(k, true, t - 1, 0), k, true);
    assert Row(db, ExampleRow(j, false, t, 0), j, false);
  }

  lemma BoundaryFacts(db: Tables, k: U64, j: U64, t: U32)
    requires AroundBoundary(db, k, j, t)
    ensures 0 < t && Valid(db) && Small(db) && OrdersAgree(db, k) && j in db.announcements && HasRow(db, j, false)
    ensures forall r :: Row(db, r, j, false) ==> r.seen == t
    ensures forall s: U32 :: SeenAt(db, s) ==> s <= t
  {
    hide Valid, Small, OrdersAgree;
  }

  lemma BoundaryIsSound(db: Tables, k: U64, j: U64, t: U32, interval: U32, clock: U32)
    requires AroundBoundary(db, k, j, t) && EARLIEST + interval < t <= clock
    ensures Sound(db, interval, clock)
  {
  }

  lemma BoundaryGrows(k: U64, j: U64, t: U32)
    requires 0 < t && j != k
    ensures Grows(BoundaryTables(k, j, t, false), BoundaryTables(k, j, t, true), t)
  {
  }

  /** Nothing of `k` is new since `t`. */
  lemma BoundaryIsLate(db: Tables, k: U64, j: U64, t: U32)
    requires AroundBoundary(db, k, j, t) && k in db.announcements
    ensures Complete(db, k) && !CompletedSince(db, t, k) && !EveryDirectionNew(db, t, k) && !AnnouncedInTime(db, k)
  {
    forall d: bool
      ensures HasRow(db, k, d) && HasBefore(db, t, k, d) && !HasSince(db, t, k, d)
      ensures exists r :: Row(db, r, k, d) && r.seen < t
    {
      BothDirections(db, k, d);
      var r :| Row(db, r, k, d);
    }
  }

  /** A graph with both channels, every direction enabled. */
  function BothEnabled(k: U64, j: U64): Graph {
    map[k := GraphChannel(true, Some(true), Some(true)), j := GraphChannel(true, Some(true), Some(true))]
  }

  lemma BoundaryIsCarried(db: Tables, k: U64, j: U64, t: U32)
    requires AroundBoundary(db, k, j, t)
    ensures Carried(db, BothEnabled(k, j), k) && j in ChannelIds(BothEnabled(k, j))
  {
  }

  // ---------------------------------------------------------------------------------------------
  // The first fetch leaves the timestamp at the boundary, and the client without the channel
  // ---------------------------------------------------------------------------------------------

  lemma BoundaryReported(db: Tables, x: Computation, k: U64, j: U64, t: U32)
    requires AroundBoundary(db, k, j, t) && Computed(db, x) && x.sync == 0 && j in ChannelIds(x.graph)
    ensures x.payload.latestSeen == t
  {
    hide AroundBoundary, Computed, Valid, Small, OrdersAgree, SeenAt;
    BoundaryFacts(db, k, j, t);
    var r :| Row(db, r, j, false);
    assert HasSince(db, 0, j, false);
    RetainedExactly(db, x, j);
    var latest := LatestExists(db, 0, j, false);
    assert NewsSince(db, 0, t, j);
    hide NewsSince;
    ReportedTimeExactly(db, x, t);
    LatestSeenSource(db, x);
  }

  lemma BoundaryMisses(db: Tables, x: Computation, k: U64)
    requires Valid(db) && Computed(db, x) && k !in db.announcements
    ensures k !in ApplySet(map[], x.payload)
  {
    AnnouncedExactly(db, x, k);
    NotAnnouncedStaysUnknown(x, map[], k);
  }

  /** From the start: the tables without the announcement of `k` are published at `t`, and the client fetches. */
  ghost predicate FirstFetch(w0: World, gen: Generation, w2: World, k: U64, j: U64, t: U32, interval: U32)
    requires interval > 0 && 0 < t
  {
    && w0 == World(BoundaryTables(k, j, t, false), t, None, map[], 0) && Sound(w0.db, interval, t)
    && IsGeneration(gen, w0.db, t, interval) && Fetch(w0.(published := Some(gen)), 2, w2, interval)
    && Steady(w2, interval) && w2.db == w0.db && w2.clock == t && w2.published == Some(gen)
    && w2.timestamp == t && k !in w2.client && Served(w0.(published := Some(gen))).Some?
    && Served(w0.(published := Some(gen))).value.db == w0.db
  }

  lemma FirstFetchExists(k: U64, j: U64, t: U32, interval: U32) returns (w0: World, gen: Generation, w2: World)
    requires ValidInterval(interval) && IsMultiple(t, interval) && EARLIEST + interval < t && j != k
    ensures FirstFetch(w0, gen, w2, k, j, t, interval)
  {
    var db := BoundaryTables(k, j, t, false);
    BoundaryTablesMeaning(k, j, t, false);
    BoundaryIsSound(db, k, j, t, interval, t);
    BoundaryIsCarried(db, k, j, t);
    BoundaryFacts(db, k, j, t);
    hide BoundaryTables, Sound, Valid, Small, GeneratesNow, Fetch, AroundBoundary, Carried, Computed, BothEnabled;
    gen := GenerationExists(db, t, BothEnabled(k, j), t, interval, ZEROS);
    GeneratesIsGeneration(gen, db, t, BothEnabled(k, j), t, interval);
    w0 := World(db, t, None, map[], 0);
    var w1 := w0.(published := Some(gen));
    NewClientIsServed(w1, db, BothEnabled(k, j), t, interval);
    hide IsGeneration;
    w2 := FetchIsPossible(w1, 2, interval);
    FetchKeepsSteady(w1, 2, w2, interval);
    FetchAppliesPayload(w1, 2, w2, interval);
    var x := Served(w1).value.x;
    BoundaryReported(db, x, k, j, t);
    BoundaryMisses(db, x, k);
    RoundDownUnique(t, interval, t);
  }

  lemma GeneratesIsGeneration(gen: Generation, db: Tables, clock: U32, graph: Graph, reference: U32, interval: U32)
    requires interval > 0 && GeneratesNow(gen, db, clock, graph, reference, interval)
    ensures IsGeneration(gen, db, clock, interval) && gen.reference == reference
  {
  }

  // ---------------------------------------------------------------------------------------------
  // The next fetch
  // ---------------------------------------------------------------------------------------------

  /** After the first fetch: tables `db` are published one interval later, over `graph`, and the client fetches. */
  ghost predicate NextFetch(w2: World, w3: World, gen: Generation, w5: World, db: Tables, graph: Graph, interval: U32)
    requires interval > 0
  {
    && Arrive(w2, w3, interval) && w3.db == db && IsGeneration(gen, db, w3.clock, interval)
    && (var w4 := w3.(published := Some(gen));
        && Fetch(w4, 2, w5, interval) && Served(w4).Some? && Served(w4).value.db == db
        && Served(w4).value.x.graph == graph && Computed(db, Served(w4).value.x)
        && Served(w4).value.x.sync == w2.timestamp
        && w5.client == ApplySet(w2.client, Served(w4).value.x.payload)
        && w5.timestamp == RoundDown(Served(w4).value.x.payload.latestSeen, interval))
  }

  lemma NextFetchExists(w2: World, db: Tables, graph: Graph, interval: U32)
    returns (w3: World, gen: Generation, w5: World)
    requires ValidInterval(interval) && Steady(w2, interval) && w2.timestamp == w2.clock
    requires w2.timestamp > EARLIEST && w2.clock + interval <= U32_MAX
    requires Grows(w2.db, db, w2.clock) && Sound(db, interval, w2.clock + interval) && Small(db)
    ensures NextFetch(w2, w3, gen, w5, db, graph, interval)
  {
    hide Sound, Small, GeneratesNow, Fetch, Grows, Computed, IsGeneration;
    var t := w2.timestamp;
    var reference := t + interval;
    assert IsMultiple(reference, interval) by {
      NextMultiple(t, interval);
    }
    w3 := World(db, reference, w2.published, w2.client, t);
    ArriveKeepsSteady(w2, w3, interval);
    gen := GenerationExists(db, reference, graph, reference, interval, ZEROS);
    GeneratesIsGeneration(gen, db, reference, graph, reference, interval);
    var w4 := w3.(published := Some(gen));
    NextClientIsServed(w4, db, graph, reference, interval);
    w5 := FetchIsPossible(w4, 2, interval);
    FetchAppliesPayload(w4, 2, w5, interval);
  }

  lemma NextMultiple(t: nat, unit: nat)
    requires IsMultiple(t, unit)
    ensures IsMultiple(t + unit, unit)
  {
    var q :| t == q * unit;
    assert t + unit == (q + 1) * unit;
  }

  /** The two fetches as a run. */
  lemma RunOfTwoFetches(
    w0: World, gen1: Generation, w2: World, w3: World, gen2: Generation, w5: World, db: Tables, graph: Graph,
    k: U64, j: U64, t: U32, interval: U32)
    returns (worlds: seq<World>, events: seq<Event>)
    requires interval > 0 && 0 < t && FirstFetch(w0, gen1, w2, k, j, t, interval)
    requires NextFetch(w2, w3, gen2, w5, db, graph, interval)
    ensures |worlds| == 6 && |events| == 5 && IsRun(worlds, events, interval)
    ensures worlds[1] == w0.(published := Some(gen1))
    ensures worlds[4] == w3.(published := Some(gen2)) && worlds[5] == w5
    ensures events[1].Fetched? && events[4].Fetched?
    ensures !events[0].Fetched? && !events[2].Fetched? && !events[3].Fetched?
  {
    hide Sound, IsGeneration, Fetch, Arrive, Steady, BoundaryTables, Computed, ApplySet;
    worlds := [w0, w0.(published := Some(gen1)), w2, w3, w3.(published := Some(gen2)), w5];
    events := [Published(gen1), Fetched(2), Arrival, Published(gen2), Fetched(2)];
    assert Next(worlds[0], events[0], worlds[1], interval);
    assert Next(worlds[1], events[1], worlds[2], interval);
    assert Next(worlds[2], events[2], worlds[3], interval);
    assert Next(worlds[3], events[3], worlds[4], interval);
    assert Next(worlds[4], events[4], worlds[5], interval);
  }

  // ---------------------------------------------------------------------------------------------
  // A channel that is missed
  // ---------------------------------------------------------------------------------------------

  /**
   * All that convergence of a channel in a run needs, except that it was announced in time; and yet it is not in sync.
   */
  ghost predicate RunMisses(worlds: seq<World>, events: seq<Event>, interval: U32, n: nat, k: U64) {
    && ValidInterval(interval) && IsRun(worlds, events, interval) && n < |events| && events[n].Fetched?
    && CarriedThroughout(worlds, events, n + 1, k) && OrdersAgree(worlds[n].db, k)
    && Served(worlds[n]).Some? && Complete(Served(worlds[n]).value.db, k)
    && !AnnouncedInTime(worlds[n].db, k)
    && !ChannelInSync(Served(worlds[n]).value.db, worlds[n + 1].client, k)
  }

  lemma CarriedInBoth(
    worlds: seq<World>, events: seq<Event>, k: U64, early: Tables, late: Tables, graph: Graph)
    requires |worlds| == 6 && |events| == 5
    requires !events[0].Fetched? && !events[2].Fetched? && !events[3].Fetched?
    requires Served(worlds[1]).Some? && Served(worlds[1]).value.db == early && k !in early.announcements
    requires Served(worlds[4]).Some? && Served(worlds[4]).value.db == late && Served(worlds[4]).value.x.graph == graph
    requires Carried(late, graph, k)
    ensures CarriedThroughout(worlds, events, 5, k)
  {
    hide Carried, Served;
    assert CarriedWhenServed(worlds[1], k) && CarriedWhenServed(worlds[4], k);
  }

  /**
   * For every channel, interval and boundary `t`: the first updates of both directions arrive just before `t` and the
   * announcement at `t`, while another channel keeps the client's timestamp at `t`. Both fetches leave the channel out.
   */
  lemma LateAnnouncementIsMissed(k: U64, t: U32, interval: U32) returns (worlds: seq<World>, events: seq<Event>)
    requires ValidInterval(interval) && IsMultiple(t, interval)
    requires EARLIEST + interval < t && t + interval <= U32_MAX
    ensures RunMisses(worlds, events, interval, 4, k)
  {
    var j: U64 := if k == 0 then 1 else 0;
    hide BoundaryTables, AroundBoundary, BothEnabled, RunMisses, LateRun;
    BoundaryTablesMeaning(k, j, t, false);
    BoundaryTablesMeaning(k, j, t, true);
    worlds, events := LateRunExists(k, j, t, interval);
    BoundaryIsLate(BoundaryTables(k, j, t, true), k, j, t);
    BoundaryIsCarried(BoundaryTables(k, j, t, true), k, j, t);
    LateRunMisses(worlds, events, k, j, t, interval);
  }

  /** A run of two fetches, the second of the tables in which `k` is announced, by a client that lacks it. */
  ghost predicate LateRun(worlds: seq<World>, events: seq<Event>, k: U64, j: U64, t: U32, interval: U32)
    requires interval > 0 && 0 < t
  {
    && |worlds| == 6 && |events| == 5 && IsRun(worlds, events, interval)
    && events[4].Fetched? && !events[0].Fetched? && !events[2].Fetched? && !events[3].Fetched?
    && worlds[4].db == BoundaryTables(k, j, t, true)
    && Served(worlds[1]).Some? && Served(worlds[1]).value.db == BoundaryTables(k, j, t, false)
    && Served(worlds[4]).Some? && k !in worlds[4].client
    && (var c := Served(worlds[4]).value;
        && c.db == BoundaryTables(k, j, t, true) && Computed(c.db, c.x)
        && c.x.sync == t && c.x.graph == BothEnabled(k, j)
        && worlds[5].client == ApplySet(worlds[4].client, c.x.payload))
  }

  lemma LateRunExists(k: U64, j: U64, t: U32, interval: U32) returns (worlds: seq<World>, events: seq<Event>)
    requires ValidInterval(interval) && IsMultiple(t, interval) && j != k
    requires EARLIEST + interval < t && t + interval <= U32_MAX
    ensures LateRun(worlds, events, k, j, t, interval)
  {
    hide BoundaryTables, AroundBoundary, BothEnabled, Sound, Small, Valid, OrdersAgree, Grows, IsRun, Computed, HasRow;
    hide SeenAt;
    hide Served, Fetch, Arrive, IsGeneration, Steady, ApplySet;
    var late := BoundaryTables(k, j, t, true);
    BoundaryTablesMeaning(k, j, t, true);
    BoundaryGrows(k, j, t);
    BoundaryIsSound(late, k, j, t, interval, t + interval);
    BoundaryFacts(late, k, j, t);
    var w0, gen1, w2 := FirstFetchExists(k, j, t, interval);
    var w3, gen2, w5 := NextFetchExists(w2, late, BothEnabled(k, j), interval);
    ArriveKeepsClient(w2, w3, interval);
    worlds, events := RunOfTwoFetches(w0, gen1, w2, w3, gen2, w5, late, BothEnabled(k, j), k, j, t, interval);
  }

  lemma ArriveKeepsClient(w: World, w': World, interval: U32)
    requires Arrive(w, w', interval)
    ensures w'.client == w.client && w'.timestamp == w.timestamp
  {
  }

  lemma LateRunMisses(worlds: seq<World>, events: seq<Event>, k: U64, j: U64, t: U32, interval: U32)
    requires ValidInterval(interval) && 0 < t && LateRun(worlds, events, k, j, t, interval)
    requires AroundBoundary(BoundaryTables(k, j, t, true), k, j, t)
    requires k !in BoundaryTables(k, j, t, false).announcements
    requires var late := BoundaryTables(k, j, t, true);
      && Complete(late, k) && !CompletedSince(late, t, k) && !EveryDirectionNew(late, t, k) && !AnnouncedInTime(late, k)
      && Carried(late, BothEnabled(k, j), k)
    ensures RunMisses(worlds, events, interval, 4, k)
  {
    hide BoundaryTables, AroundBoundary, BothEnabled, Small, Valid, OrdersAgree, Carried, Complete, AnnouncedInTime;
    hide Served;
    hide CompletedSince, EveryDirectionNew, IsRun, ChannelInSync, Computed, CarriedThroughout, HasRow, SeenAt, ApplySet;
    var early, late := BoundaryTables(k, j, t, false), BoundaryTables(k, j, t, true);
    BoundaryFacts(late, k, j, t);
    CarriedInBoth(worlds, events, k, early, late, BothEnabled(k, j));
    CompleteHasRow(late, k);
    LackingClientExactly(late, Served(worlds[4]).value.x, worlds[4].client, k);
  }

  lemma CompleteHasRow(db: Tables, k: U64)
    requires Complete(db, k)
    ensures k in db.announcements && HasRow(db, k, false)
  {
  }

  /**
   * At any fetch: a client that lacks a channel gets it in sync exactly when the served snapshot calls for all of it.
   */
  lemma LackingFetchExactly(w: World, version: U8, w': World, interval: U32, k: U64)
    requires ValidInterval(interval) && Steady(w, interval) && Fetch(w, version, w', interval) && k !in w.client
    requires Complete(Served(w).value.db, k) && OrdersAgree(Served(w).value.db, k)
    requires Carried(Served(w).value.db, Served(w).value.x.graph, k)
    ensures var c := Served(w).value;
      ChannelInSync(c.db, w'.client, k)
      <==> || CompletedSince(c.db, c.x.sync, k)
           || (c.db.announcements[k].seen >= c.x.sync && EveryDirectionNew(c.db, c.x.sync, k))
  {
    FetchAppliesPayload(w, version, w', interval);
    ServedIsCapture(w, interval);
    var c := Served(w).value;
    assert Valid(c.db) && Computed(c.db, c.x);
    hide Fetch, Steady, IsCapture, Computed, Valid, OrdersAgree, Carried, ChannelInSync, CompletedSince;
    hide EveryDirectionNew;
    LackingClientExactly(c.db, c.x, w.client, k);
  }

  // ---------------------------------------------------------------------------------------------
  // A timestamp that goes back, and a payload that reports none
  // ---------------------------------------------------------------------------------------------

  lemma EmptyGraphReportsNothing(db: Tables, x: Computation)
    requires Valid(db) && Computed(db, x) && x.graph == map[]
    ensures x.payload.latestSeen == 0
  {
    LatestSeenSource(db, x);
    if k :| k in x.delta {
      RetainedExactly(db, x, k);
    }
  }

  /** When every channel has left the graph, a client that had a timestamp is sent back to zero. */
  lemma TimestampCanGoBack(t: U32, interval: U32) returns (worlds: seq<World>, events: seq<Event>)
    requires ValidInterval(interval) && IsMultiple(t, interval)
    requires EARLIEST + interval < t && t + interval <= U32_MAX
    ensures IsRun(worlds, events, interval) && |events| == 5 && events[4].Fetched?
    ensures worlds[4].timestamp == t && worlds[5].timestamp == 0
  {
    var db := BoundaryTables(0, 1, t, false);
    BoundaryTablesMeaning(0, 1, t, false);
    BoundaryIsSound(db, 0, 1, t, interval, t + interval);
    assert Grows(db, db, t);
    BoundaryFacts(db, 0, 1, t);
    hide BoundaryTables, AroundBoundary, Sound, Small, Valid, Grows, IsRun, Computed, Served, Fetch, IsGeneration;
    hide Steady;
    hide OrdersAgree, HasRow, SeenAt, ApplySet;
    var w0, gen1, w2 := FirstFetchExists(0, 1, t, interval);
    var w3, gen2, w5 := NextFetchExists(w2, db, map[], interval);
    worlds, events := RunOfTwoFetches(w0, gen1, w2, w3, gen2, w5, db, map[], 0, 1, t, interval);
    EmptyGraphReportsNothing(db, Served(worlds[4]).value.x);
  }

  const DAY: nat := 24 * 60 * 60

  /** One channel, all of it seen at the same time. */
  function QuietTables(k: U64, seen: U32): Tables {
    Tables(map[k := ExampleAnnouncement(k, seen)], {ExampleRow(k, false, seen, 0), ExampleRow(k, true, seen, 0)})
  }

  lemma QuietTablesMeaning(k: U64, seen: U32, sync: U32)
    requires seen < sync
    ensures var db := QuietTables(k, seen);
      && Valid(db) && (forall r :: r in db.updates ==> r.seen == seen)
      && Row(db, ExampleRow(k, false, seen, 0), k, false)
      && (forall j: U64 :: !ChannelHasSince(db, sync, j) && !CompletedSince(db, sync, j))
      && (forall j :: j in db.announcements ==> db.announcements[j].seen < sync) && k in db.announcements
  {
    var db := QuietTables(k, seen);
    assert Row(db, ExampleRow(k, false, seen, 0), k, false);
  }

  lemma QuietIsReminded(db: Tables, x: Computation, k: U64, seen: U32, r: UpdateRow)
    requires Valid(db) && Computed(db, x) && (forall y :: y in db.updates ==> y.seen == seen) && Row(db, r, k, false)
    requires k in ChannelIds(x.graph) && ShouldIncludeReminders(x.sync, x.now)
    requires x.now - PRUNE_INTERVAL <= seen < x.now - CHANNEL_REMINDER_AGE
    ensures IsReminded(x.graph, x.sync, x.now, x.reminders, k)
  {
    hide DescribesDelta, DescribesSerialization, Valid, ShouldIncludeReminders, IsPicked;
    PickedRowsAreValid(db, ChannelIds(x.graph), x.now - PRUNE_INTERVAL, x.reminders);
    assert InWindow(db, x.now - PRUNE_INTERVAL, k, false, r);
    var y :| y in x.reminders && Of(y, k, false);
    var i :| 0 <= i < |x.reminders| && x.reminders[i] == y;
  }

  /** Without rows since the sync and without completed channels, only reminders are chosen. */
  lemma QuietChoice(db: Tables, x: Computation, k: U64, d: bool)
    requires Valid(db) && Computed(db, x) && k in x.delta && !ChannelHasSince(db, x.sync, k)
    ensures x.delta[k].announcement.Some?
    ensures var e := ChoiceOf(x, k, d); e.Some? ==> e.value.Reminder?
    ensures IsReminded(x.graph, x.sync, x.now, x.reminders, k) ==> ChoiceOf(x, k, d).Some?
  {
    var c := ChannelOf(db, x, k);
    DescribedEntry(db, x, k, c);
    FlagsOfChannel(db, x.graph, x.sync, x.now, x.reminders, k, c, d);
    hide Computed, IsReminded, DescribesMutations, IsFirstBidirectional;
    if NewlyIncluded(c, x.sync) {
      NewlyIncludedHasSince(db, x.graph, x.sync, x.now, x.reminders, k, c);
    }
  }

  /** Only reminders, no announcement, and the time zero. */
  ghost predicate RemindsOnly(db: Tables, x: Computation) {
    && Valid(db) && Computed(db, x)
    && x.payload.updates != [] && (forall u :: u in x.payload.updates ==> u.Reminder?)
    && x.payload.announcements == [] && x.payload.latestSeen == 0
  }

  /** A week after all its gossip, a channel has a reminder due, and a snapshot of three days reports no time. */
  lemma RemindersReportNoTime(k: U64, now: U32) returns (db: Tables, x: Computation)
    requires now >= PRUNE_INTERVAL
    ensures RemindsOnly(db, x)
  {
    var seen: U32, sync: U32 := now - 7 * DAY, now - 3 * DAY;
    assert ShouldIncludeReminders(sync, now);
    db := QuietTables(k, seen);
    QuietTablesMeaning(k, seen, sync);
    var graph: Graph := map[k := GraphChannel(true, Some(true), Some(true))];
    assert k in ChannelIds(graph);
    hide QuietTables, Valid, Computed, ShouldIncludeReminders, ChannelHasSince, CompletedSince, IsReminded, ExampleRow;
    x := ComputationExists(db, graph, sync, now, now, ZEROS);
    QuietIsReminded(db, x, k, seen, ExampleRow(k, false, seen, 0));
    RetainedExactly(db, x, k);
    QuietPayload(db, x, k);
  }

  lemma QuietPayload(db: Tables, x: Computation, k: U64)
    requires Valid(db) && Computed(db, x) && k in x.delta && 0 < x.sync
    requires IsReminded(x.graph, x.sync, x.now, x.reminders, k)
    requires forall j: U64 :: !ChannelHasSince(db, x.sync, j) && !CompletedSince(db, x.sync, j)
    requires forall j :: j in db.announcements ==> db.announcements[j].seen < x.sync
    ensures RemindsOnly(db, x)
  {
    hide Valid, Computed, ChannelHasSince, CompletedSince, IsReminded, ChoiceOf, Announces;
    forall u | u in x.payload.updates
      ensures u.Reminder?
    {
      PayloadUpdates(db, x, u);
      QuietChoice(db, x, u.Scid(), DirectionOf(u.Flags()));
    }
    QuietChoice(db, x, k, false);
    SomethingIsSent(db, x, k);
    if x.payload.announcements != [] {
      var a := x.payload.announcements[0].scid;
      IsAnnounced(x.payload.announcements);
      AnnouncedExactly(db, x, a);
    }
    assert forall j :: j in x.delta ==> !NewsSince(db, x.sync, x.sync, j) by {
      NoNews(db, x.sync);
    }
    hide NewsSince;
    ReportedTimeExactly(db, x, x.sync);
  }

  lemma IsAnnounced(anns: seq<ChannelAnnouncement>)
    requires anns != []
    ensures Announces(anns, anns[0].scid)
  {
  }

  lemma NoNews(db: Tables, sync: U32)
    requires forall j: U64 :: !ChannelHasSince(db, sync, j)
    requires forall j :: j in db.announcements ==> db.announcements[j].seen < sync
    ensures forall j: U64 :: !NewsSince(db, sync, sync, j)
  {
    forall j: U64, d: bool, r | IsLatest(db, sync, j, d, r)
      ensures ChannelHasSince(db, sync, j)
    {
      assert HasSince(db, sync, j, d);
    }
  }

  lemma SomethingIsSent(db: Tables, x: Computation, k: U64)
    requires Valid(db) && Computed(db, x) && k in x.delta && x.delta[k].announcement.Some?
    requires ChoiceOf(x, k, false).Some?
    ensures x.payload.updates != []
  {
    hide Computed, Valid, Categorize, Serializable;
    var u := ChoiceOf(x, k, false).value;
    SerializableIn(db, x, k);
    ChoiceIsOwn(k, x.delta[k], false, x.sync, x.serializedAt - CHANNEL_REMINDER_AGE);
    PayloadUpdates(db, x, u);
  }
}
