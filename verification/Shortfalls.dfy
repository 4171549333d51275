/** What the pipeline does not deliver: real inputs for which an expected property fails, and exactly when it holds. */
module Shortfalls {
  import opened Wrappers
  import opened GossipTypes
  import opened UpdateCodec
  import opened Database
  import opened Lookup
  import opened AnnouncementLookup
  import opened Histograms
  import opened Serialization
  import opened Blob
  import opened Client
  import opened Convergence
  import opened ChannelGuarantees
  import opened Runs
  import opened Generations
  import opened Snapshots

  /** A key coordinate and a chain hash for the examples. */
  const EIGHT_ZEROS: Bytes := [0, 0, 0, 0, 0, 0, 0, 0]
  const ZEROS: Bytes := EIGHT_ZEROS + EIGHT_ZEROS + EIGHT_ZEROS + EIGHT_ZEROS

  // ---------------------------------------------------------------------------------------------
  // Entries of a delta set without reminders
  // ---------------------------------------------------------------------------------------------

  /** A channel without rows since the sync is left out. */
  lemma QuietEntry(db: Tables, graph: Graph, sync: U32, now: U32, delta: DeltaSet, k: U64)
    requires !ShouldIncludeReminders(sync, now) && !ChannelHasSince(db, sync, k) && k !in delta
    ensures DescribesEntry(db, graph, sync, now, [], delta, k)
  {
    hide ShouldIncludeReminders;
    var c := NO_CHANNEL.(announcement := AnnouncementFor(db, graph, k));
    assert !CompletedSince(db, sync, k);
    assert FilteredTo(db, graph, sync, now, [], delta, k, c);
  }

  /** The rows of a channel are one before the sync in one direction and one since the sync in the other. */
  ghost predicate HalfNew(db: Tables, sync: U32, k: U64, past: UpdateRow, recent: UpdateRow) {
    && Row(db, past, k, false) && Row(db, recent, k, true) && past.seen < sync <= recent.seen
    && forall r, d: bool :: Row(db, r, k, d) ==> r == if d then recent else past
  }

  function HalfNewDelta(announcement: SeenAnnouncement, past: UpdateRow, recent: UpdateRow): ChannelDelta {
    ChannelDelta(
      Some(announcement),
      Some(NO_UPDATES.(lastUpdateBeforeSeen := Some(UpdateDelta(past.seen, past.update)))),
      Some(NO_UPDATES.(latestUpdateAfterSeen := Some(UpdateDelta(recent.seen, recent.update)))),
      Some(recent.seen), false)
  }

  lemma HalfNewDirections(
    db: Tables, sync: U32, k: U64, past: UpdateRow, recent: UpdateRow, a: SeenAnnouncement, d: bool)
    requires HalfNew(db, sync, k, past, recent)
    ensures DescribesDirection(db, sync, k, d, HalfNewDelta(a, past, recent).Directed(d))
  {
    var c := HalfNewDelta(a, past, recent);
    assert HasSince(db, sync, k, true) && HasBefore(db, sync, k, false);
    assert ChannelHasSince(db, sync, k);
    if d {
      assert IsLatest(db, sync, k, true, recent);
      assert c.Directed(true).lastUpdateBeforeSeen.None?;
    } else {
      assert IsReference(db, sync, k, false, past);
      assert c.Directed(false).latestUpdateAfterSeen.None?;
    }
  }

  lemma HalfNewCompletes(db: Tables, sync: U32, k: U64, past: UpdateRow, recent: UpdateRow)
    requires HalfNew(db, sync, k, past, recent)
    ensures CompletedSince(db, sync, k) && IsFirstBidirectional(db, k, recent.seen)
  {
    assert HasRow(db, k, true) && !HasBefore(db, sync, k, true);
    assert IsOldestSeen(db, k, true, recent.seen);
    assert forall u: U32 :: IsOldestSeen(db, k, false, u) ==> u <= past.seen;
    assert forall u: U32 :: IsOldestSeen(db, k, true, u) ==> u <= recent.seen;
  }

  /** Such a channel is kept, and newly included. */
  lemma HalfNewEntry(
    db: Tables, graph: Graph, sync: U32, now: U32, delta: DeltaSet, k: U64, past: UpdateRow, recent: UpdateRow)
    requires !ShouldIncludeReminders(sync, now) && HalfNew(db, sync, k, past, recent)
    requires k in ChannelIds(graph) && k in db.announcements
    requires k in delta && delta[k] == HalfNewDelta(db.announcements[k], past, recent)
    ensures DescribesEntry(db, graph, sync, now, [], delta, k)
  {
    HalfNewCompletes(db, sync, k, past, recent);
    HalfNewDirections(db, sync, k, past, recent, db.announcements[k], false);
    HalfNewDirections(db, sync, k, past, recent, db.announcements[k], true);
    assert sync <= recent.seen;
    hide ShouldIncludeReminders, HalfNew, CompletedSince, IsFirstBidirectional, DescribesDirection;
    assert FilteredTo(db, graph, sync, now, [], delta, k, delta[k]);
  }

  // ---------------------------------------------------------------------------------------------
  // Announcements stored late
  // ---------------------------------------------------------------------------------------------

  /**
   * A client that lacks a channel is in sync on it after a blob exactly when one of the channel's directions is new
   * since the blob's last sync, or its announcement is and every direction has a row since then.
   */
  lemma LackingClientExactly(db: Tables, x: Computation, g: ClientGraph, k: U64)
    requires Valid(db) && OrdersAgree(db, k) && Computed(db, x) && Carried(db, x.graph, k)
    requires k in db.announcements && (HasRow(db, k, false) || HasRow(db, k, true)) && k !in g
    ensures ChannelInSync(db, ApplySet(g, x.payload), k)
       <==> CompletedSince(db, x.sync, k) || (db.announcements[k].seen >= x.sync && EveryDirectionNew(db, x.sync, k))
  {
    if CompletedSince(db, x.sync, k) {
      NewChannelConverges(db, x, g, k);
    } else {
      AnnouncedExactly(db, x, k);
      RetainedExactly(db, x, k);
      if Announces(x.payload.announcements, k) {
        AnnouncedLate(db, x, g, k);
      } else {
        NotAnnouncedStaysUnknown(x, g, k);
        assert !(db.announcements[k].seen >= x.sync && EveryDirectionNew(db, x.sync, k));
      }
    }
  }

  lemma NotAnnouncedStaysUnknown(x: Computation, g: ClientGraph, k: U64)
    requires k !in g && !Announces(x.payload.announcements, k)
    ensures k !in ApplySet(g, x.payload)
  {
    hide ApplyUpdates, ApplyAnnouncements, Meanings, Announces;
    ApplyAnnouncementsMeaning(g, x.payload.announcements, k);
    ApplyUpdatesKeepsKeys(ApplyAnnouncements(g, x.payload.announcements), Meanings(x.payload.updates));
  }

  /** Announced, with no direction new: a direction arrives exactly when it has a row since the sync. */
  lemma AnnouncedLate(db: Tables, x: Computation, g: ClientGraph, k: U64)
    requires Valid(db) && OrdersAgree(db, k) && Computed(db, x) && Carried(db, x.graph, k) && k !in g
    requires k in db.announcements && !CompletedSince(db, x.sync, k) && Announces(x.payload.announcements, k)
    ensures ChannelInSync(db, ApplySet(g, x.payload), k) <==> EveryDirectionNew(db, x.sync, k)
  {
    PayloadAnnouncements(db, x, k);
    var c := ChannelOf(db, x, k);
    DescribedEntry(db, x, k, c);
    assert !NewlyIncluded(c, x.sync);
    hide Computed, Announces, FilteredTo, Carried, SendAnnouncement, CompletedSince;
    assert k in ApplySet(g, x.payload) by {
      SnapshotEffect(db, x, g, k, false);
    }
    forall d: bool, r | IsNewestRow(db, k, d, r)
      ensures ApplySet(g, x.payload)[k].Direction(d) == Some(PolicyOf(r.update)) <==> HasSince(db, x.sync, k, d)
    {
      hide ApplySet, PolicyOf, EveryDirectionNew, EffectOfChoice, Categorize, DescribesChannel;
      SnapshotEffect(db, x, g, k, d);
      LateDirection(db, x, k, c, d, r);
    }
    hide ApplySet, IsNewestRow, HasSince;
    forall d: bool | HasRow(db, k, d)
      ensures exists r :: IsNewestRow(db, k, d, r)
    {
      var r := NewestRowExists(db, k, d);
    }
    NewestHasRow(db, k);
  }

  lemma NewestHasRow(db: Tables, k: U64)
    ensures forall d: bool, r :: IsNewestRow(db, k, d, r) ==> HasRow(db, k, d)
  {
  }

  lemma LateDirection(db: Tables, x: Computation, k: U64, c: ChannelDelta, d: bool, newest: UpdateRow)
    requires Valid(db) && OrdersAgree(db, k) && IsNewestRow(db, k, d, newest)
    requires DescribesChannel(db, x.graph, x.sync, x.now, x.reminders, k, c) && c.announcement.Some?
    requires SendAnnouncement(c, x.sync) && !NewlyIncluded(c, x.sync)
    ensures EffectOfChoice(Categorize(k, c, d, x.sync, x.serializedAt - CHANNEL_REMINDER_AGE), None)
         == Some(PolicyOf(newest.update))
       <==> HasSince(db, x.sync, k, d)
  {
    NewestOldRow(db, x.sync, k, d, newest);
    FlagsOfChannel(db, x.graph, x.sync, x.now, x.reminders, k, c, d);
    hide DescribesReference, DescribesMutations, IsFirstBidirectional, ReminderFlags;
    if HasSince(db, x.sync, k, d) {
      assert newest.seen >= x.sync;
      LatestIsUnique(db, x.sync, k, d, c.Directed(d).latestUpdateAfterSeen, newest);
    }
  }

  // ---------------------------------------------------------------------------------------------
  // Full updates that only repeat
  // ---------------------------------------------------------------------------------------------

  /** What is sent and counted for a half new channel. */
  lemma HalfNewSends(k: U64, a: SeenAnnouncement, past: UpdateRow, recent: UpdateRow, sync: U32, threshold: int)
    requires sync <= recent.seen
    ensures var c := HalfNewDelta(a, past, recent);
      && ChannelUpdates(k, c, sync, threshold) == [Full(past.update), Full(recent.update)]
      && ChannelCounted(k, c, sync, threshold) == [recent.update]
  {
  }

  /** The delta set of two half new channels. */
  function TwoChannels(a: seq<SeenAnnouncement>, past: seq<UpdateRow>, recent: seq<UpdateRow>): DeltaSet
    requires |a| == 2 && |past| == 2 && |recent| == 2
  {
    map[1 := HalfNewDelta(a[0], past[0], recent[0]), 2 := HalfNewDelta(a[1], past[1], recent[1])]
  }

  lemma TwoKeys()
    ensures SortedKeys({1, 2}) == [1, 2]
  {
    assert Least({1, 2}) == 1 && {1, 2} - {1} == {2};
    assert Least({2}) == 2 && {2} - {2} == {};
    assert SortedKeys({2}) == [2] + SortedKeys({});
  }

  lemma OfTwoKeys(delta: DeltaSet, sync: U32, threshold: int)
    requires KeysAnnounced(delta, [1, 2]) && 1 in delta && 2 in delta
    requires delta[1].announcement.Some? && delta[2].announcement.Some?
    ensures UpdatesOf(delta, [1, 2], sync, threshold)
         == ChannelUpdates(1, delta[1], sync, threshold) + ChannelUpdates(2, delta[2], sync, threshold)
    ensures CountedOf(delta, [1, 2], sync, threshold)
         == ChannelCounted(1, delta[1], sync, threshold) + ChannelCounted(2, delta[2], sync, threshold)
  {
    hide ChannelUpdates, ChannelCounted, UpdatesOf, CountedOf, AnnouncementsOf, ChannelAnnouncements, ChannelSeen;
    hide SeenOf;
    var keys: seq<U64> := [1, 2];
    NextKey(delta, keys, 0, sync, threshold, 0);
    NextKey(delta, keys, 1, sync, threshold, 0);
    NoKeys(delta, sync, threshold, 0);
    assert keys[0..] == keys && keys[2..] == [];
  }

  lemma TwoChannelsKeys(a: seq<SeenAnnouncement>, past: seq<UpdateRow>, recent: seq<UpdateRow>)
    requires |a| == 2 && |past| == 2 && |recent| == 2
    ensures var delta := TwoChannels(a, past, recent);
      SortedKeys(delta.Keys) == [1, 2] && KeysAnnounced(delta, [1, 2])
  {
    hide SortedKeys;
    var delta := TwoChannels(a, past, recent);
    assert delta.Keys == {1, 2};
    TwoKeys();
  }

  /** Both past updates are sent and not counted. */
  lemma TwoChannelsSend(
    a: seq<SeenAnnouncement>, past: seq<UpdateRow>, recent: seq<UpdateRow>, sync: U32, threshold: int)
    requires |a| == 2 && |past| == 2 && |recent| == 2 && sync <= recent[0].seen && sync <= recent[1].seen
    ensures var delta := TwoChannels(a, past, recent);
      && SortedKeys(delta.Keys) == [1, 2] && KeysAnnounced(delta, [1, 2])
      && FullsOf(UpdatesOf(delta, [1, 2], sync, threshold))
         == [past[0].update, recent[0].update, past[1].update, recent[1].update]
      && CountedOf(delta, [1, 2], sync, threshold) == [recent[0].update, recent[1].update]
  {
    hide SortedKeys, ChannelUpdates, ChannelCounted, UpdatesOf, CountedOf, KeysAnnounced, FullsOf;
    var delta := TwoChannels(a, past, recent);
    TwoChannelsKeys(a, past, recent);
    OfTwoKeys(delta, sync, threshold);
    HalfNewSends(1, a[0], past[0], recent[0], sync, threshold);
    HalfNewSends(2, a[1], past[1], recent[1], sync, threshold);
    assert delta[1] == HalfNewDelta(a[0], past[0], recent[0]) && delta[2] == HalfNewDelta(a[1], past[1], recent[1]);
    hide TwoChannels, HalfNewDelta;
    assert UpdatesOf(delta, [1, 2], sync, threshold)
        == [Full(past[0].update), Full(recent[0].update), Full(past[1].update), Full(recent[1].update)];
    FullsOfFour(past[0].update, recent[0].update, past[1].update, recent[1].update);
  }

  lemma FullsOfFour(a: ChannelUpdate, b: ChannelUpdate, c: ChannelUpdate, d: ChannelUpdate)
    ensures FullsOf([Full(a), Full(b), Full(c), Full(d)]) == [a, b, c, d]
  {
    assert [Full(a), Full(b), Full(c), Full(d)] == [Full(a)] + ([Full(b)] + ([Full(c)] + [Full(d)]));
    FullsJoin([Full(a)], [Full(b)] + ([Full(c)] + [Full(d)]));
    FullsJoin([Full(b)], [Full(c)] + [Full(d)]);
    FullsJoin([Full(c)], [Full(d)]);
  }

  /** The second of two values costs as much as the first while a repeated third would save both its occurrences. */
  lemma FourCosts(a: ChannelUpdate, b: ChannelUpdate, c: ChannelUpdate, d: ChannelUpdate, chosen: RoutingValues)
    requires a.values == c.values == ZERO_VALUES.(htlcMinimumMsat := 5)
    requires b.values == ZERO_VALUES.(htlcMinimumMsat := 1) && d.values == ZERO_VALUES.(htlcMinimumMsat := 2)
    ensures PayloadBytes([a, b, c, d], a.values) == 16
    ensures chosen.htlcMinimumMsat != 5 ==> PayloadBytes([a, b, c, d], chosen) >= 24
  {
    hide WriteMasked, FieldBytes, PayloadBytes;
    var us := [a, b, c, d];
    PayloadByField(us, a.values);
    PayloadByField(us, chosen);
    var column: seq<U64> := [5, 1, 5, 2];
    assert HtlcMinimumColumn(us) == column;
    FieldBytesByCount(column, 5, 8);
    FieldBytesByCount(column, chosen.htlcMinimumMsat, 8);
    assert multiset(column) == multiset{5, 1, 5, 2};
    ZeroColumns(us);
  }

  lemma ZeroColumns(us: seq<ChannelUpdate>)
    requires |us| == 4 && forall i :: 0 <= i < 4 ==> us[i].values.(htlcMinimumMsat := 0) == ZERO_VALUES
    ensures FieldBytes(CltvColumn(us), 0, 2) == 0 && FieldBytes(FeeBaseColumn(us), 0, 4) == 0
    ensures FieldBytes(FeeProportionalColumn(us), 0, 4) == 0 && FieldBytes(HtlcMaximumColumn(us), 0, 8) == 0
  {
    AllDefault(CltvColumn(us), 0, 2);
    AllDefault(FeeBaseColumn(us), 0, 4);
    AllDefault(FeeProportionalColumn(us), 0, 4);
    AllDefault(HtlcMaximumColumn(us), 0, 8);
  }

  lemma {:induction false} AllDefault<T>(values: seq<T>, default: T, width: nat)
    requires forall i :: 0 <= i < |values| ==> values[i] == default
    ensures FieldBytes(values, default, width) == 0
  {
    if values != [] {
      AllDefault(values[1..], default, width);
    }
  }

  lemma FirstOfTwoIsMode<T(!new)>(p: T, q: T)
    ensures IsMode([p, q], p)
  {
    assert multiset([p, q]) == multiset{p, q};
  }

  lemma FirstOfTwoIsChosen(u: ChannelUpdate, v: ChannelUpdate)
    ensures AreModes([u, v], u.values)
  {
    hide IsMode;
    FirstOfTwoIsMode(u.values.cltvExpiryDelta, v.values.cltvExpiryDelta);
    FirstOfTwoIsMode(u.values.htlcMinimumMsat, v.values.htlcMinimumMsat);
    FirstOfTwoIsMode(u.values.feeBaseMsat, v.values.feeBaseMsat);
    FirstOfTwoIsMode(u.values.feeProportionalMillionths, v.values.feeProportionalMillionths);
    FirstOfTwoIsMode(u.values.htlcMaximumMsat, v.values.htlcMaximumMsat);
    var us := [u, v];
    assert CltvColumn(us) == [u.values.cltvExpiryDelta, v.values.cltvExpiryDelta];
    assert HtlcMinimumColumn(us) == [u.values.htlcMinimumMsat, v.values.htlcMinimumMsat];
    assert FeeBaseColumn(us) == [u.values.feeBaseMsat, v.values.feeBaseMsat];
    assert FeeProportionalColumn(us) == [u.values.feeProportionalMillionths, v.values.feeProportionalMillionths];
    assert HtlcMaximumColumn(us) == [u.values.htlcMaximumMsat, v.values.htlcMaximumMsat];
  }

  /** Row `i` of channel `k`: flags 0 and 1 select the direction. */
  function ExampleRow(k: U64, direction: bool, seen: U32, htlcMinimum: U64): UpdateRow {
    UpdateRow(2 * k + Num(direction), k, direction, seen, seen,
              ChannelUpdate(k, seen, Num(direction), ZERO_VALUES.(htlcMinimumMsat := htlcMinimum)))
  }

  function ExampleAnnouncement(k: U64, seen: U32): SeenAnnouncement {
    SeenAnnouncement(seen, ChannelAnnouncement(k, [], NodeId(false, ZEROS), NodeId(true, ZEROS)))
  }

  /** Two channels, each with an old forward update and a new backward one. */
  function RepeatTables(sync: U32): Tables
    requires 0 < sync
  {
    Tables(map[1 := ExampleAnnouncement(1, sync - 1), 2 := ExampleAnnouncement(2, sync - 1)],
           {ExampleRow(1, false, sync - 1, 5), ExampleRow(1, true, sync, 1),
            ExampleRow(2, false, sync - 1, 5), ExampleRow(2, true, sync, 2)})
  }

  lemma RepeatTablesValid(sync: U32)
    requires 0 < sync
    ensures Valid(RepeatTables(sync))
  {
  }

  lemma RepeatTablesAgree(sync: U32)
    requires 0 < sync
    ensures forall k: U64 :: OrdersAgree(RepeatTables(sync), k)
  {
  }

  lemma RepeatTablesHalfNew(sync: U32)
    requires 0 < sync
    ensures HalfNew(RepeatTables(sync), sync, 1, ExampleRow(1, false, sync - 1, 5), ExampleRow(1, true, sync, 1))
    ensures HalfNew(RepeatTables(sync), sync, 2, ExampleRow(2, false, sync - 1, 5), ExampleRow(2, true, sync, 2))
    ensures forall k: U64 :: k != 1 && k != 2 ==> !ChannelHasSince(RepeatTables(sync), sync, k)
  {
  }

  /** The tables of two channels, and the delta set that is computed from them. */
  function RepeatDelta(sync: U32): DeltaSet
    requires 0 < sync
  {
    TwoChannels([ExampleAnnouncement(1, sync - 1), ExampleAnnouncement(2, sync - 1)],
                [ExampleRow(1, false, sync - 1, 5), ExampleRow(2, false, sync - 1, 5)],
                [ExampleRow(1, true, sync, 1), ExampleRow(2, true, sync, 2)])
  }

  lemma RepeatDeltaIsComputed(sync: U32, now: U32, graph: Graph)
    requires 0 < sync && !ShouldIncludeReminders(sync, now) && 1 in ChannelIds(graph) && 2 in ChannelIds(graph)
    ensures DescribesDelta(RepeatTables(sync), graph, sync, now, [], RepeatDelta(sync))
  {
    hide ShouldIncludeReminders, HalfNew, ChannelHasSince, HalfNewDelta, ExampleRow, DescribesEntry;
    var db, delta := RepeatTables(sync), RepeatDelta(sync);
    RepeatTablesHalfNew(sync);
    forall k: U64
      ensures DescribesEntry(db, graph, sync, now, [], delta, k)
    {
      if k == 1 {
        HalfNewEntry(db, graph, sync, now, delta, 1, ExampleRow(1, false, sync - 1, 5), ExampleRow(1, true, sync, 1));
      } else if k == 2 {
        HalfNewEntry(db, graph, sync, now, delta, 2, ExampleRow(2, false, sync - 1, 5), ExampleRow(2, true, sync, 2));
      } else {
        QuietEntry(db, graph, sync, now, delta, k);
      }
    }
  }

  /** What is sent and counted in full. */
  lemma RepeatDeltaSends(sync: U32, threshold: int)
    requires 0 < sync
    ensures SortedKeys(RepeatDelta(sync).Keys) == [1, 2] && KeysAnnounced(RepeatDelta(sync), [1, 2])
    ensures FullsOf(UpdatesOf(RepeatDelta(sync), [1, 2], sync, threshold))
         == [ExampleRow(1, false, sync - 1, 5).update, ExampleRow(1, true, sync, 1).update,
             ExampleRow(2, false, sync - 1, 5).update, ExampleRow(2, true, sync, 2).update]
    ensures CountedOf(RepeatDelta(sync), [1, 2], sync, threshold)
         == [ExampleRow(1, true, sync, 1).update, ExampleRow(2, true, sync, 2).update]
  {
    hide SortedKeys, KeysAnnounced, FullsOf, UpdatesOf, CountedOf, TwoChannels;
    TwoChannelsSend(
      [ExampleAnnouncement(1, sync - 1), ExampleAnnouncement(2, sync - 1)],
      [ExampleRow(1, false, sync - 1, 5), ExampleRow(2, false, sync - 1, 5)],
      [ExampleRow(1, true, sync, 1), ExampleRow(2, true, sync, 2)], sync, threshold);
  }

  /** Other defaults would make the full updates of the blob shorter. */
  ghost predicate CostsMore(db: Tables, x: Computation, other: RoutingValues) {
    && Valid(db) && (forall k: U64 :: OrdersAgree(db, k)) && Computed(db, x)
    && PayloadBytes(FullsOf(x.payload.updates), x.payload.fullUpdateDefaults)
       > PayloadBytes(FullsOf(x.payload.updates), other)
  }

  /** Two channels that repeat an old update each make the chosen defaults worse than others for what is sent. */
  lemma RepeatedFullsCanCostMore() returns (db: Tables, x: Computation, other: RoutingValues)
    ensures CostsMore(db, x, other)
  {
    var now: U32 := EARLIEST + 10 * SYMLINK_GRANULARITY_INTERVAL;
    var sync: U32 := now - SYMLINK_GRANULARITY_INTERVAL;
    assert !ShouldIncludeReminders(sync, now);
    var channel := GraphChannel(true, Some(true), Some(true));
    var graph: Graph := map[1 := channel, 2 := channel];
    assert 1 in ChannelIds(graph) && 2 in ChannelIds(graph);
    hide ShouldIncludeReminders, Valid, OrdersAgree, DescribesDelta, DescribesSerialization, RepeatTables, RepeatDelta;
    hide SortedKeys, KeysAnnounced, UpdatesOf, CountedOf, AnnouncementsOf, SeenOf, FullsOf, PayloadBytes, AreModes;
    hide ReminderQuery;
    db := RepeatTables(sync);
    var delta := RepeatDelta(sync);
    RepeatTablesValid(sync);
    RepeatTablesAgree(sync);
    RepeatDeltaIsComputed(sync, now, graph);
    RepeatDeltaSends(sync, now - CHANNEL_REMINDER_AGE);
    var past1, recent1 := ExampleRow(1, false, sync - 1, 5).update, ExampleRow(1, true, sync, 1).update;
    var past2, recent2 := ExampleRow(2, false, sync - 1, 5).update, ExampleRow(2, true, sync, 2).update;
    FirstOfTwoIsChosen(recent1, recent2);
    PayloadWithIsSerialized(delta, sync, now, recent1.values, ZEROS);
    x := Computation(sync, now, now, graph, [], delta, map[], ZEROS,
      PayloadWith(delta, sync, now, recent1.values, ZEROS));
    other := past1.values;
    FourCosts(past1, recent1, past2, recent2, recent1.values);
  }
}
