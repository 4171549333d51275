/** The announcement, first-update and reminder loops, and the filter that closes the lookup stage. */
module AnnouncementLookup {
  import opened Collections
  import opened Wrappers
  import opened GossipTypes
  import opened Database
  import opened Lookup

  /** Every fifth day in the hour after midnight, and for any snapshot spanning more than fifty hours. */
  predicate ShouldIncludeReminders(sync: U32, now: U32) {
    var hour := now / 3600;
    var day := now / (24 * 3600);
    var scope := if now >= sync then now - sync else 0;
    (hour % 24 == 0 && day % 5 == 0) || scope > 50 * 3600
  }

  lemma FiveDayPeriod(period: nat, rest: nat, now: nat)
    requires now == 432000 * period + rest && rest < 432000
    ensures (now / 3600 % 24 == 0 && now / 86400 % 5 == 0) <==> rest < 3600
  {
    var hour := rest / 3600;
    assert now / 3600 == 120 * period + hour;
    var day := hour / 24;
    assert now / 86400 == 5 * period + day;
    assert now / 86400 % 5 == day;
  }

  /** The schedule in seconds: the first hour of every five-day period, and any span above fifty hours. */
  lemma ReminderSchedule(sync: U32, now: U32)
    ensures ShouldIncludeReminders(sync, now) <==> now % 432000 < 3600 || now - sync > 50 * 3600
  {
    FiveDayPeriod(now / 432000, now % 432000, now);
  }

  /** Whether the graph has a direction enabled. */
  predicate EnabledIn(graph: Graph, k: U64, d: bool)
    requires k in ChannelIds(graph)
  {
    if d then graph[k].twoToOne.value else graph[k].oneToTwo.value
  }

  /** The flags a reminder carries: the direction, and whether the graph has it disabled. */
  function GraphFlags(graph: Graph, k: U64, d: bool): (flags: U8)
    requires k in ChannelIds(graph)
    ensures flags < 4 && DirectionOf(flags) == d && DisabledBy(flags) == !EnabledIn(graph, k, d)
  {
    FlagsFor(d, !EnabledIn(graph, k, d))
  }

  /** Some direction has a row, and the first one came at or after the sync. */
  ghost predicate CompletedSince(db: Tables, sync: U32, k: U64) {
    exists d: bool :: HasRow(db, k, d) && !HasBefore(db, sync, k, d)
  }

  /** Some answer of the reminder query for the channel is older than the threshold. */
  predicate Reminded(reminders: seq<UpdateRow>, threshold: int, k: U64) {
    exists i :: 0 <= i < |reminders| && reminders[i].scid == k && reminders[i].seen < threshold
  }

  // ---------------------------------------------------------------------------------------------
  // The first update in the later direction
  // ---------------------------------------------------------------------------------------------

  lemma OldestSeenExists(db: Tables, k: U64, d: bool) returns (t: U32)
    requires HasRow(db, k, d)
    ensures IsOldestSeen(db, k, d, t)
  {
    var rows := set r | r in db.updates && Of(r, k, d);
    var w :| Row(db, w, k, d);
    assert w in rows;
    var r := LeastBy(rows, (x: UpdateRow) => x.seen as int);
    t := r.seen;
    forall x | Row(db, x, k, d)
      ensures t <= x.seen
    {
      assert x in rows;
    }
  }

  /** The nested query selects exactly the channels one of whose directions is new since the sync. */
  lemma FirstBidirectionalMeaning(db: Tables, sync: U32, k: U64)
    ensures CompletedSince(db, sync, k) <==> exists t: U32 :: IsFirstBidirectional(db, k, t) && t >= sync
  {
    if d :| HasRow(db, k, d) && !HasBefore(db, sync, k, d) {
      var t := OldestSeenExists(db, k, d);
      assert t >= sync by {
        var r :| Row(db, r, k, d) && r.seen == t;
      }
      if HasRow(db, k, !d) {
        var u := OldestSeenExists(db, k, !d);
        OldestSeenUnique(db, k);
        assert IsFirstBidirectional(db, k, if t >= u then t else u);
      } else {
        OldestSeenUnique(db, k);
        assert IsFirstBidirectional(db, k, t);
      }
    }
    if t: U32 :| IsFirstBidirectional(db, k, t) && t >= sync {
      var d :| IsOldestSeen(db, k, d, t);
      var r :| Row(db, r, k, d) && r.seen == t;
      assert HasRow(db, k, d) && !HasBefore(db, sync, k, d);
    }
  }

  lemma OldestSeenUnique(db: Tables, k: U64)
    ensures forall d: bool, t: U32, u: U32 :: IsOldestSeen(db, k, d, t) && IsOldestSeen(db, k, d, u) ==> t == u
  {
    forall d: bool, t: U32, u: U32 | IsOldestSeen(db, k, d, t) && IsOldestSeen(db, k, d, u)
      ensures t == u
    {
      var r :| Row(db, r, k, d) && r.seen == t;
      var q :| Row(db, q, k, d) && q.seen == u;
    }
  }

  // ---------------------------------------------------------------------------------------------
  // The loops
  // ---------------------------------------------------------------------------------------------

  function AnnouncementFor(db: Tables, graph: Graph, k: U64): Option<SeenAnnouncement> {
    if k in ChannelIds(graph) && k in db.announcements then Some(db.announcements[k]) else None
  }

  method CollectAnnouncements(ghost db: Tables, ghost graph: Graph, rows: seq<SeenAnnouncement>)
    returns (delta: DeltaSet)
    requires Valid(db) && AnnouncementQuery(db, ChannelIds(graph), rows)
    ensures forall k: U64 :: Entry(delta, k) == NO_CHANNEL.(announcement := AnnouncementFor(db, graph, k))
  {
    delta := map[];
    var n := 0;
    while n < |rows|
      invariant n <= |rows|
      invariant forall k: U64 :: Entry(delta, k).(announcement := None) == NO_CHANNEL
      invariant forall k: U64 :: Entry(delta, k).announcement.Some? ==>
        Entry(delta, k).announcement.value in rows && Entry(delta, k).announcement.value.announcement.scid == k
      invariant forall i :: 0 <= i < n ==> Entry(delta, rows[i].announcement.scid).announcement.Some?
    {
      var scid := rows[n].announcement.scid;
      ghost var previous := delta;
      delta := delta[scid := Entry(delta, scid).(announcement := Some(rows[n]))];
      assert forall k: U64 :: k != scid ==> Entry(delta, k) == Entry(previous, k);
      n := n + 1;
    }
    forall k: U64
      ensures Entry(delta, k) == NO_CHANNEL.(announcement := AnnouncementFor(db, graph, k))
    {
      if k in ChannelIds(graph) && k in db.announcements {
        var i :| 0 <= i < |rows| && rows[i] == db.announcements[k];
        assert rows[i].announcement.scid == k;
      }
    }
  }

  method CollectFirstUpdates(
    delta0: DeltaSet, ghost ids: set<U64>, ghost db: Tables, ghost sync: U32, rows: seq<(U64, U32)>)
    returns (delta: DeltaSet)
    requires FirstBidirectionalQuery(db, ids, sync, rows)
    requires forall k: U64 :: Entry(delta0, k).firstBidirectionalUpdatesSeen.None?
    ensures forall k: U64 :: Entry(delta, k).(firstBidirectionalUpdatesSeen := None) == Entry(delta0, k)
    ensures forall k: U64 ::
      var first := Entry(delta, k).firstBidirectionalUpdatesSeen;
      && (first.Some? <==> k in ids && CompletedSince(db, sync, k))
      && (first.Some? ==> IsFirstBidirectional(db, k, first.value) && first.value >= sync)
  {
    hide IsFirstBidirectional, CompletedSince;
    delta := delta0;
    var n := 0;
    while n < |rows|
      invariant n <= |rows|
      invariant forall k: U64 :: Entry(delta, k).(firstBidirectionalUpdatesSeen := None) == Entry(delta0, k)
      invariant forall k: U64 :: Entry(delta, k).firstBidirectionalUpdatesSeen.Some? ==>
        (k, Entry(delta, k).firstBidirectionalUpdatesSeen.value) in rows
      invariant forall i :: 0 <= i < n ==> Entry(delta, rows[i].0).firstBidirectionalUpdatesSeen.Some?
    {
      var (scid, seen) := rows[n];
      delta := delta[scid := Entry(delta, scid).(firstBidirectionalUpdatesSeen := Some(seen))];
      n := n + 1;
    }
    forall k: U64
      ensures Entry(delta, k).firstBidirectionalUpdatesSeen.Some? <==> k in ids && CompletedSince(db, sync, k)
    {
      FirstBidirectionalMeaning(db, sync, k);
    }
  }

  /** What the reminder loop leaves in a channel. */
  ghost predicate DescribesReminder(graph: Graph, reminders: seq<UpdateRow>, threshold: int, k: U64, c: ChannelDelta) {
    && (c.requiresReminder <==> k in ChannelIds(graph) && Reminded(reminders, threshold, k))
    && forall d :: c.Directed(d)
         == NO_UPDATES.(serializationUpdateFlags := if c.requiresReminder then Some(GraphFlags(graph, k, d)) else None)
  }

  method CollectReminders(delta0: DeltaSet, graph: Graph, rows: seq<UpdateRow>, threshold: int)
    returns (delta: DeltaSet)
    requires forall i :: 0 <= i < |rows| ==> ValidRow(rows[i]) && rows[i].scid in ChannelIds(graph)
    requires forall k: U64 ::
      Entry(delta0, k).(announcement := None, firstBidirectionalUpdatesSeen := None) == NO_CHANNEL
    ensures forall k: U64 ::
      && Entry(delta, k).announcement == Entry(delta0, k).announcement
      && Entry(delta, k).firstBidirectionalUpdatesSeen == Entry(delta0, k).firstBidirectionalUpdatesSeen
    ensures forall k: U64 :: DescribesReminder(graph, rows, threshold, k, Entry(delta, k))
  {
    delta := delta0;
    var n := 0;
    while n < |rows|
      invariant n <= |rows|
      invariant forall k: U64 ::
        && Entry(delta, k).announcement == Entry(delta0, k).announcement
        && Entry(delta, k).firstBidirectionalUpdatesSeen == Entry(delta0, k).firstBidirectionalUpdatesSeen
      invariant forall k: U64 :: DescribesReminder(graph, rows[..n], threshold, k, Entry(delta, k))
    {
      RemindedStep(rows, n, threshold);
      if rows[n].seen < threshold {
        var scid := rows[n].update.scid;
        var channel := Entry(delta, scid).(requiresReminder := true);
        if scid in graph && graph[scid].oneToTwo.Some? && graph[scid].twoToOne.Some? {
          var forward: U8 := if graph[scid].oneToTwo.value then 0 else 2;
          channel := channel.WithDirected(false, channel.Directed(false).(serializationUpdateFlags := Some(forward)));
          var backward: U8 := if graph[scid].twoToOne.value then 1 else 3;
          channel := channel.WithDirected(true, channel.Directed(true).(serializationUpdateFlags := Some(backward)));
        }
        delta := delta[scid := channel];
      }
      n := n + 1;
    }
    assert rows[..n] == rows;
  }

  lemma RemindedStep(rows: seq<UpdateRow>, n: nat, threshold: int)
    requires n < |rows|
    ensures forall k: U64 ::
      Reminded(rows[..n + 1], threshold, k) ==
      (Reminded(rows[..n], threshold, k) || (rows[n].scid == k && rows[n].seen < threshold))
  {
    forall k: U64
      ensures Reminded(rows[..n + 1], threshold, k) ==
        (Reminded(rows[..n], threshold, k) || (rows[n].scid == k && rows[n].seen < threshold))
    {
      if rows[n].scid == k && rows[n].seen < threshold {
        assert rows[..n + 1][n] == rows[n];
      }
      if i :| 0 <= i < n && rows[..n][i].scid == k && rows[..n][i].seen < threshold {
        assert rows[..n + 1][i] == rows[..n][i];
      }
      if Reminded(rows[..n + 1], threshold, k) {
        var more := rows[..n + 1];
        var i :| 0 <= i < |more| && more[i].scid == k && more[i].seen < threshold;
        assert i < n ==> rows[..n][i] == more[i];
      }
    }
  }

  /** Announcements first, then completion times, then, when this snapshot includes them, reminders. */
  method FetchChannelAnnouncements(
    graph: Graph, ghost db: Tables, sync: U32, now: U32,
    announcements: seq<SeenAnnouncement>, firstUpdates: seq<(U64, U32)>, reminders: seq<UpdateRow>)
    returns (delta: DeltaSet)
    requires Valid(db) && now >= PRUNE_INTERVAL
    requires AnnouncementQuery(db, ChannelIds(graph), announcements)
    requires FirstBidirectionalQuery(db, ChannelIds(graph), sync, firstUpdates)
    requires ShouldIncludeReminders(sync, now) ==> ReminderQuery(db, ChannelIds(graph), now - PRUNE_INTERVAL, reminders)
    ensures forall k: U64 :: DescribesHeader(db, graph, sync, now, reminders, k, Entry(delta, k))
    ensures forall k: U64, d: bool :: Directed(delta, k, d).(serializationUpdateFlags := None) == NO_UPDATES
    ensures forall k: U64, d: bool :: Directed(delta, k, d).serializationUpdateFlags
                                   == ReminderFlags(graph, sync, now, reminders, k, d)
  {
    hide IsFirstBidirectional, CompletedSince, AnnouncementQuery, FirstBidirectionalQuery, ReminderQuery, Valid;
    hide Reminded;
    var announced := CollectAnnouncements(db, graph, announcements);
    delta := CollectFirstUpdates(announced, ChannelIds(graph), db, sync, firstUpdates);
    if ShouldIncludeReminders(sync, now) {
      PickedRowsAreValid(db, ChannelIds(graph), now - PRUNE_INTERVAL, reminders);
      delta := CollectReminders(delta, graph, reminders, now - CHANNEL_REMINDER_AGE);
    }
  }

  lemma PickedRowsAreValid(db: Tables, ids: set<U64>, from: int, rows: seq<UpdateRow>)
    requires Valid(db) && ReminderQuery(db, ids, from, rows)
    ensures forall i :: 0 <= i < |rows| ==> rows[i] in db.updates && ValidRow(rows[i]) && rows[i].scid in ids
  {
    forall i | 0 <= i < |rows|
      ensures rows[i] in db.updates
    {
      assert IsPicked(db, from, rows[i].scid, rows[i].direction, rows[i]);
      var w :| IsPartition(db, from, rows[i].scid, rows[i].direction, w) && PickedFrom(w, rows[i]);
      var j :| 0 <= j < |w| && w[j] == rows[i];
      assert InWindow(db, from, rows[i].scid, rows[i].direction, w[j]);
    }
  }

  predicate IsReminded(graph: Graph, sync: U32, now: U32, reminders: seq<UpdateRow>, k: U64) {
    && ShouldIncludeReminders(sync, now)
    && k in ChannelIds(graph)
    && Reminded(reminders, now - CHANNEL_REMINDER_AGE, k)
  }

  function ReminderFlags(graph: Graph, sync: U32, now: U32, reminders: seq<UpdateRow>, k: U64, d: bool): Option<U8> {
    if IsReminded(graph, sync, now, reminders, k) then Some(GraphFlags(graph, k, d)) else None
  }

  ghost predicate DescribesHeader(
    db: Tables, graph: Graph, sync: U32, now: U32, reminders: seq<UpdateRow>, k: U64, c: ChannelDelta)
  {
    && c.announcement == AnnouncementFor(db, graph, k)
    && (c.firstBidirectionalUpdatesSeen.Some? <==> k in ChannelIds(graph) && CompletedSince(db, sync, k))
    && (c.firstBidirectionalUpdatesSeen.Some? ==>
          IsFirstBidirectional(db, k, c.firstBidirectionalUpdatesSeen.value)
          && c.firstBidirectionalUpdatesSeen.value >= sync)
    && c.requiresReminder == IsReminded(graph, sync, now, reminders, k)
  }

  /** The declarative meaning of a channel's delta before filtering. */
  ghost predicate DescribesChannel(
    db: Tables, graph: Graph, sync: U32, now: U32, reminders: seq<UpdateRow>, k: U64, c: ChannelDelta)
  {
    && DescribesHeader(db, graph, sync, now, reminders, k, c)
    && forall d: bool ::
         && DescribesDirection(db, sync, k, d, c.Directed(d))
         && c.Directed(d).serializationUpdateFlags == ReminderFlags(graph, sync, now, reminders, k, d)
  }

  /** A channel stays when it is announced and has a reminder due or a row since the sync. */
  predicate Retained(c: ChannelDelta) {
    && c.announcement.Some?
    && (c.requiresReminder || c.Directed(false).latestUpdateAfterSeen.Some?
        || c.Directed(true).latestUpdateAfterSeen.Some?)
  }

  predicate UpdateMeetsCriteria(update: Option<DirectedUpdateDelta>, requiresReminder: bool) {
    update.Some? && (requiresReminder || update.value.latestUpdateAfterSeen.Some?)
  }

  /** The filter removes keys one at a time and leaves every other entry as it was. */
  method FilterDeltaSet(delta0: DeltaSet) returns (delta: DeltaSet)
    ensures delta == map k | k in delta0 && Retained(delta0[k]) :: delta0[k]
  {
    delta := delta0;
    var keys := delta0.Keys;
    while keys != {}
      invariant keys <= delta0.Keys
      invariant delta == map k | k in delta0 && (k in keys || Retained(delta0[k])) :: delta0[k]
      decreases |keys|
    {
      var k :| k in keys;
      keys := keys - {k};
      var v := delta[k];
      if v.announcement.None? {
        delta := delta - {k};
      } else {
        var a := UpdateMeetsCriteria(v.oneToTwo, v.requiresReminder);
        var b := UpdateMeetsCriteria(v.twoToOne, v.requiresReminder);
        if !v.requiresReminder && !a && !b {
          delta := delta - {k};
        }
      }
    }
  }

  /** `c` is the channel's declarative delta, and the set holds it exactly when it is retained. */
  ghost predicate FilteredTo(
    db: Tables, graph: Graph, sync: U32, now: U32, reminders: seq<UpdateRow>, delta: DeltaSet, k: U64, c: ChannelDelta)
  {
    && DescribesChannel(db, graph, sync, now, reminders, k, c)
    && (k in delta <==> Retained(c))
    && (k in delta ==> delta[k] == c)
  }

  ghost predicate DescribesEntry(
    db: Tables, graph: Graph, sync: U32, now: U32, reminders: seq<UpdateRow>, delta: DeltaSet, k: U64)
  {
    exists c :: FilteredTo(db, graph, sync, now, reminders, delta, k, c)
  }

  /** The filtered delta set holds exactly the retained channels, each with its declarative delta. */
  ghost predicate DescribesDelta(
    db: Tables, graph: Graph, sync: U32, now: U32, reminders: seq<UpdateRow>, delta: DeltaSet)
  {
    forall k: U64 :: DescribesEntry(db, graph, sync, now, reminders, delta, k)
  }

  /** All channel stages in the order `calculate_delta` runs them. */
  method CalculateChannelDelta(
    graph: Graph, ghost db: Tables, sync: U32, now: U32,
    announcements: seq<SeenAnnouncement>, firstUpdates: seq<(U64, U32)>, reminders: seq<UpdateRow>,
    references: seq<UpdateRow>, intermediates: seq<UpdateRow>)
    returns (delta: DeltaSet)
    requires Valid(db) && now >= PRUNE_INTERVAL
    requires AnnouncementQuery(db, ChannelIds(graph), announcements)
    requires FirstBidirectionalQuery(db, ChannelIds(graph), sync, firstUpdates)
    requires ShouldIncludeReminders(sync, now) ==> ReminderQuery(db, ChannelIds(graph), now - PRUNE_INTERVAL, reminders)
    requires ReferenceQuery(db, sync, references) && IntermediateQuery(db, sync, intermediates)
    ensures DescribesDelta(db, graph, sync, now, reminders, delta)
  {
    hide DescribesHeader, DescribesDirection, ReminderFlags;
    var announced := FetchChannelAnnouncements(graph, db, sync, now, announcements, firstUpdates, reminders);
    var updated := FetchChannelUpdates(announced, db, sync, references, intermediates);
    delta := FilterDeltaSet(updated);
    forall k: U64
      ensures DescribesEntry(db, graph, sync, now, reminders, delta, k)
    {
      var c := Entry(updated, k);
      assert DescribesHeader(db, graph, sync, now, reminders, k, c) by {
        assert Header(updated, k) == Header(announced, k);
        SameHeader(db, graph, sync, now, reminders, k, Entry(announced, k), c);
      }
      assert forall d: bool :: c.Directed(d) == Directed(updated, k, d);
      assert FilteredTo(db, graph, sync, now, reminders, delta, k, c);
    }
  }

  lemma SameHeader(
    db: Tables, graph: Graph, sync: U32, now: U32, reminders: seq<UpdateRow>, k: U64, a: ChannelDelta, b: ChannelDelta)
    requires DescribesHeader(db, graph, sync, now, reminders, k, a) && a.Header() == b.Header()
    ensures DescribesHeader(db, graph, sync, now, reminders, k, b)
  {
  }
}
