/** Whole runs: gossip arrives, generations are published, and a client keeps following its link. */
module Runs {
  import opened Collections
  import opened Wrappers
  import opened GossipTypes
  import opened Database
  import opened Lookup
  import opened AnnouncementLookup
  import opened Serialization
  import opened Rounding
  import opened Blob
  import opened Client
  import opened Pipeline
  import opened Convergence
  import opened ChannelGuarantees
  import opened Snapshots

  /** The announcement is not stored after the first update of the direction that completes the channel. */
  ghost predicate AnnouncedInTime(db: Tables, k: U64) {
    k in db.announcements
    && exists d: bool :: HasRow(db, k, d) && forall r :: Row(db, r, k, d) ==> db.announcements[k].seen <= r.seen
  }

  ghost predicate SeenAt(db: Tables, t: U32) {
    (exists r :: r in db.updates && r.seen == t) || (exists k :: k in db.announcements && db.announcements[k].seen == t)
  }

  /** Valid tables, with nothing seen before the server's first interval or after the present. */
  ghost predicate Sound(db: Tables, interval: U32, clock: U32) {
    Valid(db) && forall t: U32 :: SeenAt(db, t) ==> EARLIEST + interval <= t <= clock
  }

  /** Rows are only added, and what is added is seen no earlier than the time it is added. */
  ghost predicate Grows(before: Tables, after: Tables, clock: U32) {
    && before.updates <= after.updates
    && (forall r :: r in after.updates && r !in before.updates ==> r.seen >= clock)
    && (forall k :: k in before.announcements ==>
          k in after.announcements && after.announcements[k] == before.announcements[k])
    && (forall k :: k in after.announcements && k !in before.announcements ==> after.announcements[k].seen >= clock)
  }

  // ---------------------------------------------------------------------------------------------
  // The world and its steps
  // ---------------------------------------------------------------------------------------------

  /** One snapshot of a generation: the tables its queries saw, and when, what was computed, and the hash orders. */
  datatype Capture = Capture(db: Tables, at: U32, x: Computation, order: HashOrder)

  /** What is being served: the reference time, the links, and a snapshot per scope. */
  datatype Generation = Generation(reference: U32, links: map<nat, Link>, captures: map<U64, Capture>)

  /** The tables, the time, what is published, the client's graph and the timestamp it will ask for next. */
  datatype World = World(
    db: Tables, clock: U32, published: Option<Generation>, client: ClientGraph, timestamp: U32)

  /** A snapshot computed at or after the reference time; gossip may have arrived between it and the present. */
  ghost predicate IsCapture(c: Capture, db: Tables, clock: U32, reference: U32, interval: U32, scope: U64) {
    && reference <= c.at <= clock && Sound(c.db, interval, c.at) && Grows(c.db, db, c.at)
    && c.x.now == reference && c.x.serializedAt >= reference && c.x.sync == LastSync(reference, scope)
    && Computed(c.db, c.x) && Fits(c.x.payload, c.order)
  }

  /** The snapshots of a generation need not have seen the same tables. */
  ghost predicate IsGeneration(gen: Generation, db: Tables, clock: U32, interval: U32)
    requires interval > 0
  {
    && gen.reference > EARLIEST && IsMultiple(gen.reference, interval)
    && IsLinkMap(gen.reference, interval, gen.links)
    && forall scope :: scope in Ladder(interval) ==>
         scope in gen.captures && IsCapture(gen.captures[scope], db, clock, gen.reference, interval, scope)
  }

  /** The snapshot that the client's timestamp is linked to. */
  function Served(w: World): Option<Capture> {
    if w.published.None? then None
    else
      var gen := w.published.value;
      if w.timestamp in gen.links && gen.links[w.timestamp].Snapshot? && gen.links[w.timestamp].scope in gen.captures
      then Some(gen.captures[gen.links[w.timestamp].scope]) else None
  }

  datatype Event = Arrival | Published(gen: Generation) | Fetched(version: U8) | UpToDate(blob: SnapshotBlob)

  ghost predicate Arrive(w: World, w': World, interval: U32) {
    && Grows(w.db, w'.db, w.clock) && w.clock <= w'.clock && Sound(w'.db, interval, w'.clock)
    && w'.published == w.published && w'.client == w.client && w'.timestamp == w.timestamp
  }

  /** The client fetches the bytes its link points to, reads them and applies what it read. */
  ghost predicate Fetch(w: World, version: U8, w': World, interval: U32)
    requires interval > 0
  {
    && Served(w).Some? && Writable(Served(w).value.x.payload, version, Served(w).value.order)
    && (var c := Served(w).value;
        var read := ReadBlob(WriteBlob(c.x.payload, version, interval, c.order));
        read.Some? && w' == w.(client := ApplyBlob(w.client, read.value), timestamp := read.value.timestamp))
  }

  /** The client asks for the reference itself and gets the no-op blob. */
  ghost predicate FetchNoOp(w: World, b: SnapshotBlob, w': World) {
    && w.published.Some? && w.timestamp == w.published.value.reference
    && b == SnapshotBlob(b.version, b.chainHash, RoundDown(w.timestamp, SYMLINK_GRANULARITY_INTERVAL), [], [], [])
    && w' == w.(client := ApplyBlob(w.client, b), timestamp := b.timestamp)
  }

  /** Gossip arrives, a generation replaces the published one, or the client fetches what is published. */
  ghost predicate Next(w: World, e: Event, w': World, interval: U32)
    requires interval > 0
  {
    match e
    case Arrival => Arrive(w, w', interval)
    case Published(gen) => IsGeneration(gen, w.db, w.clock, interval) && w' == w.(published := Some(gen))
    case Fetched(version) => Fetch(w, version, w', interval)
    case UpToDate(b) => FetchNoOp(w, b, w')
  }

  // ---------------------------------------------------------------------------------------------
  // The invariants
  // ---------------------------------------------------------------------------------------------

  /** A timestamp that a blob can carry: none yet, or a multiple of the interval inside the linked range. */
  ghost predicate Servable(t: U32, interval: U32) {
    t == 0 || (IsMultiple(t, interval) && t > EARLIEST)
  }

  ghost predicate Steady(w: World, interval: U32)
    requires interval > 0
  {
    && Sound(w.db, interval, w.clock) && w.timestamp <= w.clock && Servable(w.timestamp, interval)
    && (w.published.Some? ==> IsGeneration(w.published.value, w.db, w.clock, interval))
  }

  /** As `HeldAsOf`, and the row was seen before the interval of `t` ended, so later captures have it. */
  ghost predicate HeldWithin(db: Tables, k: U64, d: bool, t: U32, interval: U32, held: Option<Policy>) {
    exists x :: Row(db, x, k, d) && held == Some(PolicyOf(x.update)) && x.seen < t + interval
                && forall y :: Row(db, y, k, d) && y.seen < t ==> y.timestamp <= x.timestamp
  }

  /** The client covers its timestamp as far as channel `k` is concerned. */
  ghost predicate Tracks(w: World, interval: U32, k: U64) {
    Complete(w.db, k) ==>
      || CompletedSince(w.db, w.timestamp, k)
      || (k in w.client && forall d: bool :: HeldWithin(w.db, k, d, w.timestamp, interval, w.client[k].Direction(d)))
  }

  lemma EverythingIsNew(db: Tables, k: U64)
    requires Complete(db, k)
    ensures CompletedSince(db, 0, k)
  {
    assert HasRow(db, k, false) && !HasBefore(db, 0, k, false);
  }

  // ---------------------------------------------------------------------------------------------
  // Arrival
  // ---------------------------------------------------------------------------------------------

  lemma GrowsTransitive(a: Tables, b: Tables, c: Tables, s: U32, t: U32)
    requires Grows(a, b, s) && Grows(b, c, t) && s <= t
    ensures Grows(a, c, s)
  {
  }

  lemma ArriveKeepsSteady(w: World, w': World, interval: U32)
    requires interval > 0 && Steady(w, interval) && Arrive(w, w', interval)
    ensures Steady(w', interval)
  {
    hide Sound, Servable, IsLinkMap, Grows;
    if w.published.Some? {
      var gen := w.published.value;
      forall scope | scope in Ladder(interval)
        ensures IsCapture(gen.captures[scope], w'.db, w'.clock, gen.reference, interval, scope)
      {
        hide Computed, Fits;
        var c := gen.captures[scope];
        assert IsCapture(c, w.db, w.clock, gen.reference, interval, scope);
        GrowsTransitive(c.db, w.db, w'.db, c.at, w.clock);
      }
    }
  }

  lemma OldRowsAreSame(before: Tables, after: Tables, clock: U32, t: U32, k: U64, d: bool)
    requires Grows(before, after, clock) && t <= clock
    ensures HasBefore(after, t, k, d) ==> HasBefore(before, t, k, d)
    ensures HasBefore(before, t, k, d) ==> HasBefore(after, t, k, d)
    ensures HasRow(before, k, d) ==> HasRow(after, k, d)
  {
    if r :| Row(before, r, k, d) {
      assert Row(after, r, k, d);
    }
    if r :| Row(before, r, k, d) && r.seen < t {
      assert Row(after, r, k, d);
    }
    if r :| Row(after, r, k, d) && r.seen < t {
      assert Row(before, r, k, d);
    }
  }

  lemma CompleteSurvives(before: Tables, after: Tables, clock: U32, k: U64)
    requires Grows(before, after, clock) && Complete(before, k)
    ensures Complete(after, k)
  {
    OldRowsAreSame(before, after, clock, clock, k, false);
    OldRowsAreSame(before, after, clock, clock, k, true);
  }

  lemma HeldSurvives(
    before: Tables, after: Tables, clock: U32, t: U32, interval: U32, k: U64, d: bool, held: Option<Policy>)
    requires Grows(before, after, clock) && t <= clock && HeldWithin(before, k, d, t, interval, held)
    ensures HeldWithin(after, k, d, t, interval, held)
  {
    var x :| Row(before, x, k, d) && held == Some(PolicyOf(x.update)) && x.seen < t + interval
             && forall y :: Row(before, y, k, d) && y.seen < t ==> y.timestamp <= x.timestamp;
    assert Row(after, x, k, d);
    forall y | Row(after, y, k, d) && y.seen < t
      ensures y.timestamp <= x.timestamp
    {
      assert Row(before, y, k, d);
    }
  }

  /** A channel that was not complete before, or was new since `t`, is new since `t`. */
  lemma MissingIsNew(before: Tables, after: Tables, clock: U32, t: U32, k: U64)
    requires Grows(before, after, clock) && t <= clock && Complete(after, k) && AnnouncedInTime(after, k)
    requires Complete(before, k) ==> CompletedSince(before, t, k)
    ensures CompletedSince(after, t, k)
  {
    OldRowsAreSame(before, after, clock, t, k, false);
    OldRowsAreSame(before, after, clock, t, k, true);
    if Complete(before, k) {
      var d :| HasRow(before, k, d) && !HasBefore(before, t, k, d);
      OldRowsAreSame(before, after, clock, t, k, d);
      assert HasRow(after, k, d) && !HasBefore(after, t, k, d);
    } else if k !in before.announcements {
      var d :| HasRow(after, k, d) && forall r :: Row(after, r, k, d) ==> after.announcements[k].seen <= r.seen;
      assert after.announcements[k].seen >= clock;
      assert !HasBefore(after, t, k, d);
    } else {
      var d := HasRow(before, k, false);
      assert !HasRow(before, k, d);
      assert !HasBefore(before, t, k, d);
      OldRowsAreSame(before, after, clock, t, k, d);
      assert HasRow(after, k, d) && !HasBefore(after, t, k, d);
    }
  }

  /** Arriving gossip keeps the client's coverage of its timestamp. */
  lemma ArriveKeepsTracks(w: World, w': World, interval: U32, k: U64)
    requires interval > 0 && Steady(w, interval) && Arrive(w, w', interval) && Tracks(w, interval, k)
    requires Complete(w'.db, k) ==> AnnouncedInTime(w'.db, k)
    ensures Tracks(w', interval, k)
  {
    hide Sound, Servable, IsGeneration, Grows, AnnouncedInTime;
    if Complete(w'.db, k) {
      if Complete(w.db, k) && !CompletedSince(w.db, w.timestamp, k) {
        forall d: bool
          ensures HeldWithin(w'.db, k, d, w.timestamp, interval, w.client[k].Direction(d))
        {
          HeldSurvives(w.db, w'.db, w.clock, w.timestamp, interval, k, d, w.client[k].Direction(d));
        }
      } else {
        MissingIsNew(w.db, w'.db, w.clock, w.timestamp, k);
      }
    }
  }

  // ---------------------------------------------------------------------------------------------
  // The time a payload reports
  // ---------------------------------------------------------------------------------------------

  /** The channel's announcement, or the latest update of a direction since the sync, was seen at `t` or later. */
  ghost predicate NewsSince(db: Tables, sync: U32, t: U32, k: U64) {
    || (exists d: bool, r :: IsLatest(db, sync, k, d, r) && r.seen >= t)
    || (k in db.announcements && db.announcements[k].seen >= t)
  }

  lemma ChannelSeenSource(db: Tables, x: Computation, k: U64, c: ChannelDelta, floor: U32)
    requires DescribesChannel(db, x.graph, x.sync, x.now, x.reminders, k, c) && c.announcement.Some?
    ensures var seen := ChannelSeen(c, x.sync, floor);
      seen == floor || (seen >= x.sync && SeenAt(db, seen) && NewsSince(db, x.sync, seen, k))
  {
    hide DescribesMutations, DescribesReference, IsFirstBidirectional;
    assert k in db.announcements && SeenAt(db, c.announcement.value.seen);
    forall d: bool | c.Directed(d).latestUpdateAfterSeen.Some?
      ensures var seen := c.Directed(d).latestUpdateAfterSeen.value.seen;
        seen >= x.sync && SeenAt(db, seen) && NewsSince(db, x.sync, seen, k)
    {
      FlagsOfChannel(db, x.graph, x.sync, x.now, x.reminders, k, c, d);
      var u := c.Directed(d).latestUpdateAfterSeen.value;
      var r :| IsLatest(db, x.sync, k, d, r) && u == UpdateDelta(r.seen, r.update);
    }
    if NewlyIncluded(c, x.sync) {
      NewlyIncludedHasSince(db, x.graph, x.sync, x.now, x.reminders, k, c);
      FlagsOfChannel(db, x.graph, x.sync, x.now, x.reminders, k, c, false);
      FlagsOfChannel(db, x.graph, x.sync, x.now, x.reminders, k, c, true);
    }
    hide SeenAt, ChannelHasSince, DescribesChannel, DescribesHeader, DescribesDirection;
  }

  /** The time reported is not before the sync, and that of something the delta's channels have; or there is none. */
  lemma {:induction false} SeenOfSource(db: Tables, x: Computation, keys: seq<U64>, floor: U32)
    requires Computed(db, x) && KeysAnnounced(x.delta, keys)
    ensures var seen := SeenOf(x.delta, keys, x.sync, floor);
      seen == floor || (seen >= x.sync && SeenAt(db, seen) &&
        exists k :: k in x.delta && NewsSince(db, x.sync, seen, k))
    decreases keys
  {
    hide Computed, SeenAt, ChannelSeen, FilteredTo, NewsSince;
    if keys != [] {
      var c := ChannelOf(db, x, keys[0]);
      DescribedEntry(db, x, keys[0], c);
      ChannelSeenSource(db, x, keys[0], c, floor);
      SeenOfSource(db, x, keys[1..], ChannelSeen(c, x.sync, floor));
    }
  }

  lemma LatestSeenSource(db: Tables, x: Computation)
    requires Valid(db) && Computed(db, x)
    ensures var seen := x.payload.latestSeen;
      seen == 0 || (seen >= x.sync && SeenAt(db, seen) && exists k :: k in x.delta && NewsSince(db, x.sync, seen, k))
  {
    hide Computed, SeenOf, SortedKeys, Valid, SeenAt, NewsSince;
    var keys := SortedKeys(x.delta.Keys);
    PayloadOf(db, x, keys);
    SeenOfSource(db, x, keys, 0);
  }

  /** It is not before any row since the sync of an announced channel of the graph. */
  lemma LatestSeenBounds(db: Tables, x: Computation, k: U64, d: bool, r: UpdateRow)
    requires Valid(db) && Computed(db, x) && k in ChannelIds(x.graph) && k in db.announcements
    requires IsLatest(db, x.sync, k, d, r)
    ensures k in x.delta && r.seen <= x.payload.latestSeen
  {
    RetainedExactly(db, x, k);
    assert HasSince(db, x.sync, k, d);
    var c := ChannelOf(db, x, k);
    DescribedEntry(db, x, k, c);
    FlagsOfChannel(db, x.graph, x.sync, x.now, x.reminders, k, c, d);
    LatestIsUnique(db, x.sync, k, d, c.Directed(d).latestUpdateAfterSeen, r);
    hide Computed, SeenOf, SortedKeys, Valid, SendAnnouncement, DescribesChannel, FilteredTo, IsLatest, KeysAnnounced;
    var keys := DeltaKeys(db, x);
    PayloadOf(db, x, keys);
    SeenIsUpperBound(x.delta, keys, x.sync, 0);
    var i :| 0 <= i < |keys| && keys[i] == k;
  }

  /** Nor before an announcement that is sent. */
  lemma LatestSeenBoundsAnnouncement(db: Tables, x: Computation, k: U64)
    requires Valid(db) && Computed(db, x) && k in x.delta && k in db.announcements && db.announcements[k].seen >= x.sync
    ensures db.announcements[k].seen <= x.payload.latestSeen
  {
    var c := ChannelOf(db, x, k);
    DescribedEntry(db, x, k, c);
    assert c.announcement == Some(db.announcements[k]) && SendAnnouncement(c, x.sync);
    hide Computed, SeenOf, SortedKeys, Valid, SendAnnouncement, DescribesChannel, FilteredTo, KeysAnnounced;
    var keys := DeltaKeys(db, x);
    PayloadOf(db, x, keys);
    SeenIsUpperBound(x.delta, keys, x.sync, 0);
    var i :| 0 <= i < |keys| && keys[i] == k;
  }

  /**
   * The payload reports a time not before `t` exactly when some channel in it has news since `t`. So with nothing
   * new since the sync, as when there are only reminders, it reports zero.
   */
  lemma ReportedTimeExactly(db: Tables, x: Computation, t: U32)
    requires Valid(db) && Computed(db, x) && x.sync <= t && 0 < t
    ensures x.payload.latestSeen >= t <==> exists k :: k in x.delta && NewsSince(db, x.sync, t, k)
    ensures x.payload.latestSeen == 0 || x.payload.latestSeen >= x.sync
  {
    hide Computed, Valid, IsLatest;
    LatestSeenSource(db, x);
    if k :| k in x.delta && NewsSince(db, x.sync, t, k) {
      RetainedExactly(db, x, k);
      if d: bool, r :| IsLatest(db, x.sync, k, d, r) && r.seen >= t {
        LatestSeenBounds(db, x, k, d, r);
      } else {
        LatestSeenBoundsAnnouncement(db, x, k);
      }
    }
    if x.payload.latestSeen >= t {
      var k :| k in x.delta && NewsSince(db, x.sync, x.payload.latestSeen, k);
      assert NewsSince(db, x.sync, t, k);
    }
  }

  // ---------------------------------------------------------------------------------------------
  // Fetching
  // ---------------------------------------------------------------------------------------------

  /** A linked timestamp is served from a snapshot of the generation that goes back at least to it. */
  lemma ServedIsCapture(w: World, interval: U32)
    requires ValidInterval(interval) && Steady(w, interval) && Served(w).Some?
    ensures var c, gen := Served(w).value, w.published.value;
      && IsCapture(c, w.db, w.clock, gen.reference, interval, gen.links[w.timestamp].scope)
      && c.x.sync <= w.timestamp && (w.timestamp == 0 || w.timestamp + interval <= gen.reference)
  {
    hide Sound, IsLinkMap, LastSync, IsCapture, Ladder;
    var gen := w.published.value;
    LinkIsSound(gen.reference, interval, gen.links, w.timestamp);
    assert IsCapture(Served(w).value, w.db, w.clock, gen.reference, interval, gen.links[w.timestamp].scope);
    CaptureSync(Served(w).value, w.db, w.clock, gen.reference, interval, gen.links[w.timestamp].scope);
    if w.timestamp != 0 {
      LinkedIsEarlier(gen.reference, interval, gen.links, w.timestamp);
    }
  }

  /**
   * What a client is served: from zero everything; otherwise what was seen since the reference less the least scope
   * that reaches back to its timestamp, which in the limited range is less than twice as far as it needs.
   */
  lemma ServedExactly(w: World, interval: U32) returns (scope: U64)
    requires ValidInterval(interval) && Steady(w, interval) && Served(w).Some?
    ensures var reference, sync := w.published.value.reference, Served(w).value.x.sync;
      && w.timestamp <= reference
      && (if w.timestamp == 0 then sync == 0 else LeastFit(interval, reference - w.timestamp, scope))
      && (w.timestamp != 0 ==> sync == if scope <= reference then reference - scope else 0)
      && (interval < reference - w.timestamp <= LargestFinite(interval) && w.timestamp != 0 ==>
            reference - sync < 2 * (reference - w.timestamp))
  {
    hide Sound, IsCapture, Ladder, IsLinkMap, LeastFit, LargestFinite, Steady;
    var gen := w.published.value;
    scope := gen.links[w.timestamp].scope;
    SteadyLinks(w, interval);
    ServedIsCapture(w, interval);
    CaptureSync(Served(w).value, w.db, w.clock, gen.reference, interval, scope);
    LinkExactly(gen.reference, interval, gen.links, w.timestamp);
    if interval < gen.reference - w.timestamp <= LargestFinite(interval) && w.timestamp != 0 {
      LinkIsTight(gen.reference, interval, gen.links, w.timestamp);
    }
  }

  lemma SteadyLinks(w: World, interval: U32)
    requires interval > 0 && Steady(w, interval) && w.published.Some?
    ensures var gen := w.published.value; gen.reference > EARLIEST && IsLinkMap(gen.reference, interval, gen.links)
  {
    hide Sound, IsCapture, Ladder, IsLinkMap;
  }

  /** In a generation the snapshot of each scope was computed from the reference less the scope, or from zero. */
  lemma GenerationSyncs(gen: Generation, db: Tables, clock: U32, interval: U32, scope: U64)
    requires interval > 0 && IsGeneration(gen, db, clock, interval) && scope in Ladder(interval)
    ensures scope in gen.captures
    ensures gen.captures[scope].x.sync == if scope <= gen.reference then gen.reference - scope else 0
  {
    CaptureSync(gen.captures[scope], db, clock, gen.reference, interval, scope);
  }

  lemma CaptureSync(c: Capture, db: Tables, clock: U32, reference: U32, interval: U32, scope: U64)
    requires IsCapture(c, db, clock, reference, interval, scope)
    ensures c.x.sync == LastSync(reference, scope)
  {
  }

  lemma LinkedIsEarlier(reference: U32, interval: U32, links: map<nat, Link>, t: U32)
    requires ValidInterval(interval) && reference > EARLIEST && IsMultiple(reference, interval)
    requires IsMultiple(t, interval)
    requires IsLinkMap(reference, interval, links) && t in links && t != 0
    ensures t + interval <= reference
  {
    MultipleOfGranularity(reference, interval);
    LinkedTimestamps(reference, interval, links, t);
    hide IsLinkMap;
    var a :| t == a * interval;
    var b :| reference == b * interval;
    assert a < b by {
      if a > b {
        MultiplesApart(b, a, interval);
      }
    }
    MultiplesApart(a, b, interval);
  }

  lemma MultipleOfGranularity(t: nat, interval: U32)
    requires ValidInterval(interval) && IsMultiple(t, interval)
    ensures t % SYMLINK_GRANULARITY_INTERVAL == 0
  {
    var q :| t == q * interval;
    var p := interval / SYMLINK_GRANULARITY_INTERVAL;
    assert interval == p * SYMLINK_GRANULARITY_INTERVAL;
    assert t == (q * p) * SYMLINK_GRANULARITY_INTERVAL;
  }

  /** What the client holds, every capture of the served generation has. */
  lemma HeldInCapture(
    captured: Tables, db: Tables, at: U32, t: U32, interval: U32, k: U64, d: bool, held: Option<Policy>)
    requires Grows(captured, db, at) && t + interval <= at && HeldWithin(db, k, d, t, interval, held)
    ensures HeldAsOf(captured, k, d, t, held)
  {
    var x :| Row(db, x, k, d) && held == Some(PolicyOf(x.update)) && x.seen < t + interval
             && forall y :: Row(db, y, k, d) && y.seen < t ==> y.timestamp <= x.timestamp;
    assert Row(captured, x, k, d);
    forall y | Row(captured, y, k, d) && y.seen < t
      ensures y.timestamp <= x.timestamp
    {
      assert Row(db, y, k, d);
    }
  }

  lemma CoversCapture(w: World, c: Capture, interval: U32, k: U64)
    requires Grows(c.db, w.db, c.at) && (w.timestamp == 0 || w.timestamp + interval <= c.at)
    requires Tracks(w, interval, k) && Complete(c.db, k)
    ensures CoversChannel(c.db, w.client, w.timestamp, k)
  {
    CompleteSurvives(c.db, w.db, c.at, k);
    hide Grows, Complete;
    if w.timestamp == 0 {
      EverythingIsNew(c.db, k);
    } else if CompletedSince(w.db, w.timestamp, k) {
      var d :| HasRow(w.db, k, d) && !HasBefore(w.db, w.timestamp, k, d);
      OldRowsAreSame(c.db, w.db, c.at, w.timestamp, k, d);
      BothDirections(c.db, k, d);
    } else {
      forall d: bool
        ensures HeldAsOf(c.db, k, d, w.timestamp, w.client[k].Direction(d))
      {
        HeldInCapture(c.db, w.db, c.at, w.timestamp, interval, k, d, w.client[k].Direction(d));
      }
    }
  }

  lemma BothDirections(db: Tables, k: U64, d: bool)
    requires Complete(db, k)
    ensures HasRow(db, k, d)
  {
  }

  lemma NewestRowExists(db: Tables, k: U64, d: bool) returns (r: UpdateRow)
    requires HasRow(db, k, d)
    ensures IsNewestRow(db, k, d, r)
  {
    var rows := set x | x in db.updates && Of(x, k, d);
    var w :| Row(db, w, k, d);
    assert w in rows;
    r := LeastBy(rows, (x: UpdateRow) => 0 - x.timestamp as int);
    assert forall x :: Row(db, x, k, d) ==> x in rows;
  }

  /** Applying what was read from the bytes is applying the payload. */
  lemma FetchAppliesPayload(w: World, version: U8, w': World, interval: U32)
    requires interval > 0 && Fetch(w, version, w', interval)
    ensures var x := Served(w).value.x;
      w' == w.(client := ApplySet(w.client, x.payload), timestamp := RoundDown(x.payload.latestSeen, interval))
  {
    hide Writable, WriteBlob, ReadBlob;
    BlobRoundTrip(Served(w).value.x.payload, version, interval, Served(w).value.order);
  }

  lemma CaptureIsWritable(c: Capture, version: U8)
    requires Valid(c.db) && Computed(c.db, c.x) && Fits(c.x.payload, c.order)
    ensures Writable(c.x.payload, version, c.order)
  {
    hide Valid, Fits, Writable, DescribesDelta, DescribesSerialization, ReminderQuery;
    var x := c.x;
    PipelineIsOrdered(
      c.db, x.graph, x.sync, x.now, x.reminders, x.delta, x.nodes, x.serializedAt, x.chainHash, x.payload);
    assert WellFormed(x.payload, c.order);
    WellFormedIsWritable(x.payload, version, c.order);
  }

  /** The writer never panics on what a generation computes, so a linked client can always fetch. */
  lemma FetchIsPossible(w: World, version: U8, interval: U32) returns (w': World)
    requires ValidInterval(interval) && Steady(w, interval) && Served(w).Some?
    ensures Fetch(w, version, w', interval)
  {
    ServedIsCapture(w, interval);
    hide Valid, IsGeneration, Fits, Writable, Computed, Steady, Grows, LastSync, WriteBlob, ReadBlob;
    var c := Served(w).value;
    CaptureIsWritable(c, version);
    BlobRoundTrip(c.x.payload, version, interval, c.order);
    var read := Content(c.x.payload, version, interval, c.order);
    w' := w.(client := ApplyBlob(w.client, read), timestamp := read.timestamp);
  }

  lemma FetchKeepsSteady(w: World, version: U8, w': World, interval: U32)
    requires ValidInterval(interval) && Steady(w, interval) && Fetch(w, version, w', interval)
    ensures Steady(w', interval)
  {
    FetchAppliesPayload(w, version, w', interval);
    ServedIsCapture(w, interval);
    var c := Served(w).value;
    hide Fetch, IsGeneration, LastSync, Grows, Computed, Fits, Valid;
    assert Valid(c.db);
    LatestSeenSource(c.db, c.x);
  }

  /** A channel in sync with the capture stays covered in the present tables. */
  lemma InSyncIsHeld(w: World, c: Capture, g: ClientGraph, t: U32, interval: U32, k: U64, d: bool)
    requires Valid(c.db) && Computed(c.db, c.x) && OrdersAgree(c.db, k) && Carried(c.db, c.x.graph, k)
    requires Complete(c.db, k)
    requires Grows(c.db, w.db, c.at) && t <= c.at && c.x.sync <= c.x.payload.latestSeen < t + interval
    requires ChannelInSync(c.db, g, k)
    ensures HeldWithin(w.db, k, d, t, interval, g[k].Direction(d))
  {
    BothDirections(c.db, k, d);
    var r := NewestRowExists(c.db, k, d);
    assert r.seen < t + interval by {
      NewestOldRow(c.db, c.x.sync, k, d, r);
      if r.seen >= c.x.sync {
        LatestSeenBounds(c.db, c.x, k, d, r);
      }
    }
    assert Row(w.db, r, k, d);
    forall y | Row(w.db, y, k, d) && y.seen < t
      ensures y.timestamp <= r.timestamp
    {
      assert Row(c.db, y, k, d);
    }
  }

  lemma OrdersAgreeEarlier(before: Tables, after: Tables, clock: U32, k: U64)
    requires Grows(before, after, clock) && OrdersAgree(after, k)
    ensures OrdersAgree(before, k)
  {
    forall a, b, d: bool | Row(before, a, k, d) && Row(before, b, k, d)
      ensures a.seen < b.seen <==> a.timestamp < b.timestamp
    {
      assert Row(after, a, k, d) && Row(after, b, k, d);
    }
  }

  /**
   * What a fetch needs of a channel: the served snapshot's graph carries it once the captured tables have all of it.
   */
  ghost predicate CarriedWhenServed(w: World, k: U64) {
    Served(w).Some? && Complete(Served(w).value.db, k) ==> Carried(Served(w).value.db, Served(w).value.x.graph, k)
  }

  /** After any fetch the client is in sync with the tables that the served snapshot saw. */
  lemma FetchConverges(w: World, version: U8, w': World, interval: U32, k: U64)
    requires ValidInterval(interval) && Steady(w, interval) && Fetch(w, version, w', interval)
    requires Tracks(w, interval, k) && CarriedWhenServed(w, k) && OrdersAgree(w.db, k)
    ensures Complete(Served(w).value.db, k) ==> ChannelInSync(Served(w).value.db, w'.client, k)
  {
    FetchAppliesPayload(w, version, w', interval);
    ServedIsCapture(w, interval);
    var c := Served(w).value;
    if Complete(c.db, k) {
      assert Grows(c.db, w.db, c.at) && Valid(c.db) && Computed(c.db, c.x) && c.x.now <= c.at;
      hide Fetch, IsGeneration, LastSync, Computed, Fits, Valid, Steady, Sound, IsCapture, OrdersAgree, Carried, Tracks;
      hide Grows;
      hide ApplySet, ChannelInSync, CoversChannel;
      OrdersAgreeEarlier(c.db, w.db, c.at, k);
      CoversCapture(w, c, interval, k);
      SnapshotConverges(c.db, c.x, w.client, w.timestamp, k);
    }
  }

  /** And it goes on covering its new timestamp. */
  lemma FetchKeepsTracks(w: World, version: U8, w': World, interval: U32, k: U64)
    requires ValidInterval(interval) && Steady(w, interval) && Fetch(w, version, w', interval)
    requires Tracks(w, interval, k) && CarriedWhenServed(w, k) && OrdersAgree(w.db, k)
    requires Complete(w.db, k) ==> AnnouncedInTime(w.db, k)
    ensures Tracks(w', interval, k)
  {
    FetchConverges(w, version, w', interval, k);
    FetchAppliesPayload(w, version, w', interval);
    ServedIsCapture(w, interval);
    var c := Served(w).value;
    assert Grows(c.db, w.db, c.at) && Valid(c.db) && Computed(c.db, c.x);
    LatestSeenSource(c.db, c.x);
    assert w'.timestamp <= c.at by {
      assert Sound(c.db, interval, c.at);
    }
    hide Fetch, IsGeneration, LastSync, Computed, Fits, Valid, Steady, Sound, IsCapture, OrdersAgree, Carried, Grows;
    hide ApplySet, ChannelInSync, HeldWithin, AnnouncedInTime, NewsSince;
    if Complete(w.db, k) {
      if w'.timestamp == 0 {
        EverythingIsNew(w.db, k);
      } else if Complete(c.db, k) {
        OrdersAgreeEarlier(c.db, w.db, c.at, k);
        forall d: bool
          ensures k in w'.client && HeldWithin(w.db, k, d, w'.timestamp, interval, w'.client[k].Direction(d))
        {
          KnownWhenInSync(c.db, w'.client, k);
          InSyncIsHeld(w, c, w'.client, w'.timestamp, interval, k, d);
        }
      } else {
        MissingIsNew(c.db, w.db, c.at, w'.timestamp, k);
      }
    }
  }

  lemma KnownWhenInSync(db: Tables, g: ClientGraph, k: U64)
    requires ChannelInSync(db, g, k)
    ensures k in g
  {
  }

  /** The no-op blob leaves graph and timestamp alone. */
  lemma NoOpKeepsClient(w: World, b: SnapshotBlob, w': World, interval: U32)
    requires ValidInterval(interval) && Steady(w, interval) && FetchNoOp(w, b, w')
    ensures w' == w
  {
    hide Sound, IsLinkMap, IsCapture;
    MultipleOfGranularity(w.timestamp, interval);
  }

  /** The timestamp does not go back exactly when the snapshot has news since then. */
  lemma TimestampAdvancesExactly(w: World, version: U8, w': World, interval: U32)
    requires ValidInterval(interval) && Steady(w, interval) && Fetch(w, version, w', interval)
    ensures var c := Served(w).value;
      w'.timestamp >= w.timestamp
      <==> w.timestamp == 0 || exists k :: k in c.x.delta && NewsSince(c.db, c.x.sync, w.timestamp, k)
  {
    FetchAppliesPayload(w, version, w', interval);
    ServedIsCapture(w, interval);
    var c := Served(w).value;
    assert Valid(c.db) && Computed(c.db, c.x) && Servable(w.timestamp, interval);
    hide Fetch, IsGeneration, LastSync, Computed, Fits, Valid, Steady, Sound, IsCapture, NewsSince;
    if w.timestamp != 0 {
      ReportedTimeExactly(c.db, c.x, w.timestamp);
      RoundDownUnique(w.timestamp, interval, w.timestamp);
      if c.x.payload.latestSeen >= w.timestamp {
        RoundDownMonotone(w.timestamp, c.x.payload.latestSeen, interval);
      }
    }
  }

  // ---------------------------------------------------------------------------------------------
  // Runs
  // ---------------------------------------------------------------------------------------------

  ghost predicate IsRun(worlds: seq<World>, events: seq<Event>, interval: U32)
    requires interval > 0
  {
    && |worlds| == |events| + 1
    && worlds[0].client == map[] && worlds[0].timestamp == 0 && worlds[0].published.None?
    && Sound(worlds[0].db, interval, worlds[0].clock)
    && forall i :: 0 <= i < |events| ==> Next(worlds[i], events[i], worlds[i + 1], interval)
  }

  lemma {:induction false} RunIsSteady(worlds: seq<World>, events: seq<Event>, interval: U32, n: nat)
    requires ValidInterval(interval) && IsRun(worlds, events, interval) && n < |worlds|
    ensures Steady(worlds[n], interval)
  {
    if n > 0 {
      RunIsSteady(worlds, events, interval, n - 1);
      var w, e, w' := worlds[n - 1], events[n - 1], worlds[n];
      assert Next(w, e, w', interval);
      match e
      case Arrival => ArriveKeepsSteady(w, w', interval);
      case Published(_) =>
      case Fetched(version) => FetchKeepsSteady(w, version, w', interval);
      case UpToDate(b) => NoOpKeepsClient(w, b, w', interval);
    }
  }

  /** Whatever happens to other channels: each fetch of the first `n` events serves a graph that carries `k`. */
  ghost predicate CarriedThroughout(worlds: seq<World>, events: seq<Event>, n: nat, k: U64)
    requires n <= |events| < |worlds|
  {
    forall i :: 0 <= i < n && events[i].Fetched? ==> CarriedWhenServed(worlds[i], k)
  }

  lemma TablesGrow(w: World, e: Event, w': World, interval: U32)
    requires ValidInterval(interval) && Next(w, e, w', interval)
    ensures w'.db == w.db || Grows(w.db, w'.db, w.clock)
  {
    hide ReadBlob, WriteBlob, Writable, ApplyBlob, IsGeneration, Sound, Grows;
  }

  lemma InTimeEarlier(before: Tables, after: Tables, clock: U32, k: U64)
    requires Grows(before, after, clock) && Complete(before, k) && AnnouncedInTime(after, k)
    ensures AnnouncedInTime(before, k)
  {
    var d :| HasRow(after, k, d) && forall r :: Row(after, r, k, d) ==> after.announcements[k].seen <= r.seen;
    BothDirections(before, k, d);
    forall r | Row(before, r, k, d)
      ensures before.announcements[k].seen <= r.seen
    {
      assert Row(after, r, k, d);
    }
  }

  lemma PublishKeepsTracks(w: World, gen: Generation, interval: U32, k: U64)
    requires Tracks(w, interval, k)
    ensures Tracks(w.(published := Some(gen)), interval, k)
  {
  }

  /** One step backwards: what is asked of the tables holds of the earlier ones. */
  lemma AskedEarlier(w: World, e: Event, w': World, interval: U32, k: U64)
    requires ValidInterval(interval) && Next(w, e, w', interval) && OrdersAgree(w'.db, k)
    requires Complete(w'.db, k) ==> AnnouncedInTime(w'.db, k)
    ensures OrdersAgree(w.db, k) && (Complete(w.db, k) ==> AnnouncedInTime(w.db, k))
  {
    TablesGrow(w, e, w', interval);
    hide Next, AnnouncedInTime, Grows, OrdersAgree, Complete;
    if w'.db != w.db {
      OrdersAgreeEarlier(w.db, w'.db, w.clock, k);
      if Complete(w.db, k) {
        CompleteSurvives(w.db, w'.db, w.clock, k);
        InTimeEarlier(w.db, w'.db, w.clock, k);
      }
    }
  }

  lemma StepKeepsTracks(w: World, e: Event, w': World, interval: U32, k: U64)
    requires ValidInterval(interval) && Steady(w, interval) && Next(w, e, w', interval) && Tracks(w, interval, k)
    requires OrdersAgree(w.db, k) && (Complete(w'.db, k) ==> AnnouncedInTime(w'.db, k))
    requires e.Fetched? ==> CarriedWhenServed(w, k) && (Complete(w.db, k) ==> AnnouncedInTime(w.db, k))
    ensures Tracks(w', interval, k)
  {
    hide CarriedWhenServed, Steady, AnnouncedInTime, OrdersAgree, Complete, Tracks, Fetch, Arrive, IsGeneration;
    hide FetchNoOp;
    match e
    case Arrival => ArriveKeepsTracks(w, w', interval, k);
    case Published(gen) => PublishKeepsTracks(w, gen, interval, k);
    case Fetched(version) => FetchKeepsTracks(w, version, w', interval, k);
    case UpToDate(b) => NoOpKeepsClient(w, b, w', interval);
  }

  lemma {:induction false} RunTracks(worlds: seq<World>, events: seq<Event>, interval: U32, n: nat, k: U64)
    requires ValidInterval(interval) && IsRun(worlds, events, interval) && n < |worlds|
    requires CarriedThroughout(worlds, events, n, k) && OrdersAgree(worlds[n].db, k)
    requires Complete(worlds[n].db, k) ==> AnnouncedInTime(worlds[n].db, k)
    ensures Tracks(worlds[n], interval, k)
  {
    hide Steady, AnnouncedInTime, OrdersAgree, Complete, Sound, Next, CarriedWhenServed;
    if n == 0 {
      hide Tracks;
      NewClientTracks(worlds[0], interval, k);
    } else {
      hide Tracks;
      assert Next(worlds[n - 1], events[n - 1], worlds[n], interval);
      RunIsSteady(worlds, events, interval, n - 1);
      AskedEarlier(worlds[n - 1], events[n - 1], worlds[n], interval, k);
      RunTracks(worlds, events, interval, n - 1, k);
      StepKeepsTracks(worlds[n - 1], events[n - 1], worlds[n], interval, k);
    }
  }

  lemma NewClientTracks(w: World, interval: U32, k: U64)
    requires w.timestamp == 0
    ensures Tracks(w, interval, k)
  {
    if Complete(w.db, k) {
      EverythingIsNew(w.db, k);
    }
  }

  /**
   * In every run, from an empty client and through any interleaving of arriving gossip, publications and fetches,
   * each fetch leaves the client with a channel exactly as the newest rows that the served snapshot saw describe it,
   * and so no older than anything seen before the reference time of the generation; as long as the channel stays in
   * the graphs of the snapshots that are fetched, whatever happens to other channels.
   */
  lemma EveryRunConverges(worlds: seq<World>, events: seq<Event>, interval: U32, n: nat, k: U64)
    requires ValidInterval(interval) && IsRun(worlds, events, interval) && n < |events| && events[n].Fetched?
    requires CarriedThroughout(worlds, events, n + 1, k)
    requires OrdersAgree(worlds[n].db, k) && AnnouncedInTime(worlds[n].db, k)
    ensures Served(worlds[n]).Some?
    ensures var db, g := Served(worlds[n]).value.db, worlds[n + 1].client;
      Complete(db, k) ==>
        && ChannelInSync(db, g, k)
        && forall d: bool :: HeldAsOf(worlds[n].db, k, d, worlds[n].published.value.reference, g[k].Direction(d))
  {
    RunIsSteady(worlds, events, interval, n);
    RunTracks(worlds, events, interval, n, k);
    var w, w' := worlds[n], worlds[n + 1];
    assert Next(w, events[n], w', interval) && CarriedWhenServed(w, k);
    FetchConverges(w, events[n].version, w', interval, k);
    ServedIsCapture(w, interval);
    var c := Served(w).value;
    if Complete(c.db, k) {
      forall d: bool
        ensures HeldAsOf(w.db, k, d, w.published.value.reference, w'.client[k].Direction(d))
      {
        hide IsRun, CarriedThroughout, Steady, Computed, Fits, Sound, LastSync, Fetch;
        InSyncIsCurrent(c.db, w.db, c.at, w.published.value.reference, w'.client, k, d);
      }
    }
  }

  lemma InSyncIsCurrent(captured: Tables, db: Tables, at: U32, t: U32, g: ClientGraph, k: U64, d: bool)
    requires Grows(captured, db, at) && t <= at && Complete(captured, k) && ChannelInSync(captured, g, k)
    ensures HeldAsOf(db, k, d, t, g[k].Direction(d))
  {
    BothDirections(captured, k, d);
    var r := NewestRowExists(captured, k, d);
    assert Row(db, r, k, d);
    forall y | Row(db, y, k, d) && y.seen < t
      ensures y.timestamp <= r.timestamp
    {
      assert Row(captured, y, k, d);
    }
  }

  /**
   * In every run, whenever a generation is published: the client's link exists exactly while its timestamp is
   * earlier than the reference, and its timestamp is never later than the current interval.
   */
  lemma EveryRunResolves(worlds: seq<World>, events: seq<Event>, interval: U32, n: nat)
    requires ValidInterval(interval) && IsRun(worlds, events, interval) && n < |worlds| && worlds[n].published.Some?
    ensures Served(worlds[n]).Some? <==> worlds[n].timestamp < worlds[n].published.value.reference
    ensures worlds[n].timestamp <= RoundDown(worlds[n].clock, interval)
  {
    RunIsSteady(worlds, events, interval, n);
    var w, gen := worlds[n], worlds[n].published.value;
    hide IsRun, Sound, IsCapture, IsLinkMap, Ladder;
    MultipleOfGranularity(gen.reference, interval);
    LinkedTimestamps(gen.reference, interval, gen.links, w.timestamp);
    if w.timestamp in gen.links {
      LinkIsSound(gen.reference, interval, gen.links, w.timestamp);
    }
    if w.timestamp != 0 {
      MultipleOfGranularity(w.timestamp, interval);
      RoundDownUnique(w.timestamp, interval, w.timestamp);
      RoundDownMonotone(w.timestamp, w.clock, interval);
    }
  }
}
