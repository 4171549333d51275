/** A client that covers some time, applying a snapshot taken since an earlier sync, ends in sync. */
module Convergence {
  import opened Wrappers
  import opened GossipTypes
  import opened Database
  import opened Lookup
  import opened AnnouncementLookup
  import opened NodeLookup
  import Histograms
  import opened Serialization
  import opened Blob
  import opened Client
  import opened Pipeline

  /** One run of `calculate_delta`: its arguments, the two clock readings, and the results of its stages. */
  datatype Computation = Computation(
    sync: U32, now: U32, serializedAt: U32, graph: Graph, reminders: seq<UpdateRow>,
    delta: DeltaSet, nodes: NodeDeltaSet, chainHash: Bytes, payload: SerializationSet)

  ghost predicate Computed(db: Tables, x: Computation) {
    && x.now >= PRUNE_INTERVAL
    && (ShouldIncludeReminders(x.sync, x.now) ==>
          ReminderQuery(db, ChannelIds(x.graph), x.now - PRUNE_INTERVAL, x.reminders))
    && DescribesDelta(db, x.graph, x.sync, x.now, x.reminders, x.delta)
    && DescribesSerialization(x.delta, x.nodes, x.sync, x.serializedAt, x.chainHash, x.payload)
  }

  function ApplySet(g: ClientGraph, s: SerializationSet): ClientGraph {
    ApplyUpdates(ApplyAnnouncements(g, s.announcements), Meanings(s.updates))
  }

  /** A channel with an announcement and an update in each direction. */
  ghost predicate Complete(db: Tables, k: U64) {
    k in db.announcements && HasRow(db, k, false) && HasRow(db, k, true)
  }

  ghost predicate IsNewestRow(db: Tables, k: U64, d: bool, r: UpdateRow) {
    Row(db, r, k, d) && forall x :: Row(db, x, k, d) ==> x.timestamp <= r.timestamp
  }

  /** The graph holds the channel, each direction enabled as its newest row says. */
  ghost predicate Carried(db: Tables, graph: Graph, k: U64) {
    k in ChannelIds(graph) && forall d: bool, r :: IsNewestRow(db, k, d, r) ==> GraphAgrees(graph, k, d, r)
  }

  /** The policy is that of a row at least as new as everything seen before `t`. */
  ghost predicate HeldAsOf(db: Tables, k: U64, d: bool, t: U32, held: Option<Policy>) {
    exists x :: Row(db, x, k, d) && held == Some(PolicyOf(x.update))
                && forall y :: Row(db, y, k, d) && y.seen < t ==> y.timestamp <= x.timestamp
  }

  /** One of the channel's directions is new since `t`, or the client knows both, no older than they were then. */
  ghost predicate CoversChannel(db: Tables, g: ClientGraph, t: U32, k: U64) {
    CompletedSince(db, t, k) || (k in g && forall d: bool :: HeldAsOf(db, k, d, t, g[k].Direction(d)))
  }

  /** The client knows the channel, with the policies of the newest rows. */
  ghost predicate ChannelInSync(db: Tables, g: ClientGraph, k: U64) {
    k in g && forall d: bool, r :: IsNewestRow(db, k, d, r) ==> g[k].Direction(d) == Some(PolicyOf(r.update))
  }

  // ---------------------------------------------------------------------------------------------
  // One direction
  // ---------------------------------------------------------------------------------------------

  /** What a client held at `t` is the reference of any earlier sync, or a row since that sync. */
  lemma HeldAsOfIsHeldSince(
    db: Tables, sync: U32, t: U32, k: U64, d: bool, u: DirectedUpdateDelta, held: Option<Policy>)
    requires Valid(db) && OrdersAgree(db, k) && sync <= t
    requires DescribesReference(db, sync, k, d, u.lastUpdateBeforeSeen) && HeldAsOf(db, k, d, t, held)
    ensures HeldSince(db, sync, k, d, u, held)
  {
    if u.lastUpdateBeforeSeen.Some? {
      var r :| IsReference(db, sync, k, d, r) && u.lastUpdateBeforeSeen.value == UpdateDelta(r.seen, r.update);
      var x :| Row(db, x, k, d) && held == Some(PolicyOf(x.update))
               && forall y :: Row(db, y, k, d) && y.seen < t ==> y.timestamp <= x.timestamp;
      if x.seen < sync {
        assert x.timestamp == r.timestamp;
        assert x == r;
      }
    }
  }

  lemma NewestOldRow(db: Tables, sync: U32, k: U64, d: bool, newest: UpdateRow)
    requires Valid(db) && OrdersAgree(db, k) && IsNewestRow(db, k, d, newest)
    ensures newest.seen >= sync ==> IsLatest(db, sync, k, d, newest)
    ensures newest.seen < sync ==> !HasSince(db, sync, k, d)
    ensures forall x :: Row(db, x, k, d) && x != newest ==> x.seen < newest.seen
  {
    forall x | Row(db, x, k, d) && x != newest
      ensures x.seen < newest.seen
    {
      assert Of(x, newest.scid, newest.direction);
      assert x.timestamp != newest.timestamp;
    }
  }

  /** With no row since the sync, what was held at `t` is the newest row. */
  lemma HeldAsOfIsNewest(db: Tables, sync: U32, t: U32, k: U64, d: bool, held: Option<Policy>, newest: UpdateRow)
    requires Valid(db) && sync <= t && HeldAsOf(db, k, d, t, held) && IsNewestRow(db, k, d, newest)
    requires newest.seen < sync
    ensures held == Some(PolicyOf(newest.update))
  {
    var x :| Row(db, x, k, d) && held == Some(PolicyOf(x.update))
             && forall y :: Row(db, y, k, d) && y.seen < t ==> y.timestamp <= x.timestamp;
    assert x.timestamp == newest.timestamp;
    assert x == newest;
  }

  /** A direction of a known channel. */
  lemma KnownDirectionConverges(
    db: Tables, x: Computation, k: U64, c: ChannelDelta, d: bool, t: U32, held: Option<Policy>, newest: UpdateRow)
    requires Valid(db) && OrdersAgree(db, k) && GraphAgrees(x.graph, k, d, newest) && x.sync <= t
    requires DescribesChannel(db, x.graph, x.sync, x.now, x.reminders, k, c) && c.announcement.Some?
    requires HeldAsOf(db, k, d, t, held) && IsNewestRow(db, k, d, newest)
    ensures EffectOfChoice(Categorize(k, c, d, x.sync, x.serializedAt - CHANNEL_REMINDER_AGE), held)
         == Some(PolicyOf(newest.update))
    ensures newest.seen < x.sync ==> held == Some(PolicyOf(newest.update))
  {
    NewestOldRow(db, x.sync, k, d, newest);
    FlagsOfChannel(db, x.graph, x.sync, x.now, x.reminders, k, c, d);
    assert DescribesReference(db, x.sync, k, d, c.Directed(d).lastUpdateBeforeSeen);
    hide Valid, OrdersAgree, DescribesChannel, DescribesDirection, DescribesReference, HeldAsOf, HeldSince;
    hide EffectOfChoice, Categorize, GraphAgrees, IsLatest, PolicyOf;
    if newest.seen >= x.sync {
      HeldAsOfIsHeldSince(db, x.sync, t, k, d, c.Directed(d), held);
      DirectionConverges(
        db, x.graph, x.sync, x.now, x.reminders, k, c, d, x.serializedAt - CHANNEL_REMINDER_AGE, held, newest);
    } else {
      HeldAsOfIsNewest(db, x.sync, t, k, d, held, newest);
      QuietDirectionKeeps(
        db, x.graph, x.sync, x.now, x.reminders, k, c, d, x.serializedAt - CHANNEL_REMINDER_AGE, held, newest);
    }
  }

  /** A direction of a channel that comes with its announcement, whatever the client held. */
  lemma NewDirectionConverges(
    db: Tables, x: Computation, k: U64, c: ChannelDelta, d: bool, held: Option<Policy>, newest: UpdateRow)
    requires Valid(db) && OrdersAgree(db, k) && GraphAgrees(x.graph, k, d, newest)
    requires DescribesChannel(db, x.graph, x.sync, x.now, x.reminders, k, c) && c.announcement.Some?
    requires NewlyIncluded(c, x.sync) && IsNewestRow(db, k, d, newest)
    ensures EffectOfChoice(Categorize(k, c, d, x.sync, x.serializedAt - CHANNEL_REMINDER_AGE), held)
         == Some(PolicyOf(newest.update))
  {
    NewestOldRow(db, x.sync, k, d, newest);
    FlagsOfChannel(db, x.graph, x.sync, x.now, x.reminders, k, c, d);
    if newest.seen >= x.sync {
      LatestIsUnique(db, x.sync, k, d, c.Directed(d).latestUpdateAfterSeen, newest);
    } else {
      hide Valid, OrdersAgree, DescribesChannel, DescribesDirection, EffectOfChoice, Categorize;
      QuietDirectionKeeps(
        db, x.graph, x.sync, x.now, x.reminders, k, c, d, x.serializedAt - CHANNEL_REMINDER_AGE, held, newest);
    }
  }

  // ---------------------------------------------------------------------------------------------
  // One channel, and all of them
  // ---------------------------------------------------------------------------------------------

  /** The facts about a channel's delta that the rest needs. */
  lemma ChannelOf(db: Tables, x: Computation, k: U64) returns (c: ChannelDelta)
    requires Computed(db, x)
    ensures FilteredTo(db, x.graph, x.sync, x.now, x.reminders, x.delta, k, c)
  {
    hide DescribesSerialization, ReminderQuery;
    assert DescribesEntry(db, x.graph, x.sync, x.now, x.reminders, x.delta, k);
    c :| FilteredTo(db, x.graph, x.sync, x.now, x.reminders, x.delta, k, c);
  }

  lemma DeltaKeys(db: Tables, x: Computation) returns (keys: seq<U64>)
    requires Valid(db) && Computed(db, x)
    ensures keys == SortedKeys(x.delta.Keys) && Ascending(keys)
    ensures KeysSerializable(x.delta, keys) && KeysAnnounced(x.delta, keys)
    ensures forall k: U64 :: k in keys <==> k in x.delta
  {
    hide DescribesDelta, DescribesSerialization, SortedKeys, Serializable, KeysAnnounced, ReminderQuery;
    DeltaIsSerializable(db, x.graph, x.sync, x.now, x.reminders, x.delta);
    keys := SortedKeys(x.delta.Keys);
    KeysOf(x.delta);
  }

  /** The vectors of the payload, by key order. */
  lemma PayloadOf(db: Tables, x: Computation, keys: seq<U64>)
    requires Computed(db, x) && keys == SortedKeys(x.delta.Keys)
    ensures KeysAnnounced(x.delta, keys)
    ensures x.payload.announcements == AnnouncementsOf(x.delta, keys, x.sync)
    ensures x.payload.updates == UpdatesOf(x.delta, keys, x.sync, x.serializedAt - CHANNEL_REMINDER_AGE)
    ensures x.payload.latestSeen == SeenOf(x.delta, keys, x.sync, 0)
  {
    hide DescribesDelta, SortedKeys, KeysAnnounced, AnnouncementsOf, UpdatesOf, CountedOf, SeenOf, NodeMutations;
    hide ReminderQuery, Histograms.AreModes;
  }

  /** What a snapshot does to one direction of a channel that the client knows after the announcements. */
  lemma SnapshotEffect(db: Tables, x: Computation, g: ClientGraph, k: U64, d: bool)
    requires Valid(db) && Computed(db, x)
    requires k in g || (k in x.delta && x.delta[k].announcement.Some? && SendAnnouncement(x.delta[k], x.sync))
    ensures k in ApplySet(g, x.payload)
    ensures k in x.delta ==> x.delta[k].announcement.Some?
    ensures var held := if k in g then g[k].Direction(d) else None;
      ApplySet(g, x.payload)[k].Direction(d)
      == if k in x.delta
         then EffectOfChoice(Categorize(k, x.delta[k], d, x.sync, x.serializedAt - CHANNEL_REMINDER_AGE), held)
         else held
  {
    hide Computed, SortedKeys, Serializable, AnnouncementsOf, UpdatesOf, SeenOf, Categorize, Announces, Ascending;
    hide SendAnnouncement, Effects, ApplyUpdates, ApplyAnnouncements, Meanings, EffectOfChoice;
    var keys := DeltaKeys(db, x);
    PayloadOf(db, x, keys);
    var g1 := ApplyAnnouncements(g, x.payload.announcements);
    AnnouncementsSent(x.delta, keys, x.sync, k);
    ApplyAnnouncementsMeaning(g, x.payload.announcements, k);
    ApplyUpdatesByDirection(g1, Meanings(x.payload.updates), k, d);
    EffectOfUpdates(x.delta, keys, x.sync, x.serializedAt - CHANNEL_REMINDER_AGE, k, d, g1[k].Direction(d));
  }

  /** A newly completed channel is retained, and its announcement sent. */
  lemma CompletedIsSent(db: Tables, x: Computation, k: U64, c: ChannelDelta)
    requires FilteredTo(db, x.graph, x.sync, x.now, x.reminders, x.delta, k, c)
    requires k in ChannelIds(x.graph) && k in db.announcements && CompletedSince(db, x.sync, k)
    ensures k in x.delta && x.delta[k] == c && c.announcement.Some? && NewlyIncluded(c, x.sync)
    ensures SendAnnouncement(c, x.sync)
  {
    assert NewlyIncluded(c, x.sync);
    NewlyIncludedHasSince(db, x.graph, x.sync, x.now, x.reminders, k, c);
    FlagsOfChannel(db, x.graph, x.sync, x.now, x.reminders, k, c, false);
    FlagsOfChannel(db, x.graph, x.sync, x.now, x.reminders, k, c, true);
  }

  lemma DroppedIsQuiet(db: Tables, x: Computation, k: U64, c: ChannelDelta, d: bool)
    requires FilteredTo(db, x.graph, x.sync, x.now, x.reminders, x.delta, k, c) && c.announcement.Some? && k !in x.delta
    ensures !HasSince(db, x.sync, k, d)
  {
    FlagsOfChannel(db, x.graph, x.sync, x.now, x.reminders, k, c, d);
  }

  /** The channel, whatever the client held, when one of its directions is new since the sync. */
  lemma NewChannelConverges(db: Tables, x: Computation, g: ClientGraph, k: U64)
    requires Valid(db) && OrdersAgree(db, k) && Computed(db, x)
    requires Carried(db, x.graph, k) && k in db.announcements && CompletedSince(db, x.sync, k)
    ensures ChannelInSync(db, ApplySet(g, x.payload), k)
  {
    var c := ChannelOf(db, x, k);
    CompletedIsSent(db, x, k, c);
    DescribedEntry(db, x, k, c);
    assert k in ApplySet(g, x.payload) by {
      SnapshotEffect(db, x, g, k, false);
    }
    forall d: bool, r | IsNewestRow(db, k, d, r)
      ensures ApplySet(g, x.payload)[k].Direction(d) == Some(PolicyOf(r.update))
    {
      hide Valid, OrdersAgree, Computed, FilteredTo, DescribesChannel, IsNewestRow, Categorize, EffectOfChoice;
      hide ApplySet;
      hide SendAnnouncement, PolicyOf, NewlyIncluded, GraphAgrees;
      SnapshotEffect(db, x, g, k, d);
      NewDirectionConverges(db, x, k, c, d, if k in g then g[k].Direction(d) else None, r);
    }
  }

  /** The channel, when the client knows both directions no older than they were at `t`. */
  lemma KnownChannelConverges(db: Tables, x: Computation, g: ClientGraph, t: U32, k: U64)
    requires Valid(db) && OrdersAgree(db, k) && Computed(db, x) && x.sync <= t
    requires Carried(db, x.graph, k) && k in db.announcements
    requires k in g && forall d: bool :: HeldAsOf(db, k, d, t, g[k].Direction(d))
    ensures ChannelInSync(db, ApplySet(g, x.payload), k)
  {
    var c := ChannelOf(db, x, k);
    assert c.announcement.Some? && DescribesChannel(db, x.graph, x.sync, x.now, x.reminders, k, c);
    assert k in x.delta ==> x.delta[k] == c;
    assert k in ApplySet(g, x.payload) by {
      SnapshotEffect(db, x, g, k, false);
    }
    forall d: bool, r | IsNewestRow(db, k, d, r)
      ensures ApplySet(g, x.payload)[k].Direction(d) == Some(PolicyOf(r.update))
    {
      hide Valid, OrdersAgree, Computed, FilteredTo, DescribesChannel, IsNewestRow, HeldAsOf, Categorize, GraphAgrees;
      hide EffectOfChoice, ApplySet, SendAnnouncement, PolicyOf, NewlyIncluded;
      SnapshotEffect(db, x, g, k, d);
      KnownDirectionConverges(db, x, k, c, d, t, g[k].Direction(d), r);
      if k !in x.delta {
        DroppedIsQuiet(db, x, k, c, d);
        NewestIsOld(db, x.sync, k, d, r);
      }
    }
  }

  lemma DescribedEntry(db: Tables, x: Computation, k: U64, c: ChannelDelta)
    requires FilteredTo(db, x.graph, x.sync, x.now, x.reminders, x.delta, k, c) && k in x.delta
    ensures x.delta[k] == c && DescribesChannel(db, x.graph, x.sync, x.now, x.reminders, k, c)
  {
  }

  lemma NewestIsOld(db: Tables, sync: U32, k: U64, d: bool, r: UpdateRow)
    requires !HasSince(db, sync, k, d) && IsNewestRow(db, k, d, r)
    ensures r.seen < sync
  {
  }

  lemma CompletedEarlier(db: Tables, sync: U32, t: U32, k: U64)
    requires sync <= t && CompletedSince(db, t, k)
    ensures CompletedSince(db, sync, k)
  {
    var d :| HasRow(db, k, d) && !HasBefore(db, t, k, d);
    assert !HasBefore(db, sync, k, d);
  }

  /**
   * Convergence, channel by channel: when the graph holds an announced channel and its flags agree with the newest
   * rows, a client that covers everything about it seen before `t` and applies a snapshot whose last sync is not
   * after `t` ends with both directions exactly as the newest rows say. Other channels may be in any state.
   */
  lemma SnapshotConverges(db: Tables, x: Computation, g: ClientGraph, t: U32, k: U64)
    requires Valid(db) && OrdersAgree(db, k) && Computed(db, x) && x.sync <= t
    requires Carried(db, x.graph, k) && k in db.announcements && CoversChannel(db, g, t, k)
    ensures ChannelInSync(db, ApplySet(g, x.payload), k)
  {
    hide Valid, OrdersAgree, Computed, Carried, HeldAsOf, ChannelInSync, ApplySet;
    if CompletedSince(db, t, k) {
      CompletedEarlier(db, x.sync, t, k);
      NewChannelConverges(db, x, g, k);
    } else {
      KnownChannelConverges(db, x, g, t, k);
    }
  }
}
