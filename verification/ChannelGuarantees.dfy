/** What a blob promises about the channels in it: usable updates, full delivery, full sync. */
module ChannelGuarantees {
  import opened Wrappers
  import opened GossipTypes
  import opened UpdateCodec
  import opened Database
  import opened Lookup
  import opened AnnouncementLookup
  import opened Serialization
  import opened Client
  import opened Pipeline
  import opened Convergence

  /** The choice for one direction of a retained channel. */
  function ChoiceOf(x: Computation, k: U64, d: bool): Option<UpdateSerialization>
    requires k in x.delta && x.delta[k].announcement.Some?
  {
    Categorize(k, x.delta[k], d, x.sync, x.serializedAt - CHANNEL_REMINDER_AGE)
  }

  lemma EmittedByChannel(k: U64, c: ChannelDelta, sync: U32, threshold: int, u: UpdateSerialization)
    requires Serializable(k, c)
    ensures u in ChannelUpdates(k, c, sync, threshold)
       <==> u.Scid() == k && Categorize(k, c, DirectionOf(u.Flags()), sync, threshold) == Some(u)
  {
    hide Categorize, Serializable;
    ChoiceIsOwn(k, c, false, sync, threshold);
    ChoiceIsOwn(k, c, true, sync, threshold);
  }

  /** An update is in the vector exactly when it is the choice for its own channel and direction. */
  lemma {:induction false} EmittedExactly(
    delta: DeltaSet, keys: seq<U64>, sync: U32, threshold: int, u: UpdateSerialization)
    requires KeysSerializable(delta, keys) && KeysAnnounced(delta, keys) && Ascending(keys)
    ensures u in UpdatesOf(delta, keys, sync, threshold)
       <==> u.Scid() in keys
            && Categorize(u.Scid(), delta[u.Scid()], DirectionOf(u.Flags()), sync, threshold) == Some(u)
    decreases keys
  {
    if keys != [] {
      AscendingTail(keys);
      hide Ascending, ChannelUpdates, Categorize, Serializable;
      EmittedByChannel(keys[0], delta[keys[0]], sync, threshold, u);
      EmittedExactly(delta, keys[1..], sync, threshold, u);
    }
  }

  lemma PayloadUpdates(db: Tables, x: Computation, u: UpdateSerialization)
    requires Valid(db) && Computed(db, x)
    ensures forall k :: k in x.delta ==> x.delta[k].announcement.Some?
    ensures u in x.payload.updates <==> u.Scid() in x.delta && ChoiceOf(x, u.Scid(), DirectionOf(u.Flags())) == Some(u)
  {
    hide Computed, SortedKeys, Categorize, UpdatesOf, AnnouncementsOf, SeenOf, Ascending, Serializable;
    var keys := DeltaKeys(db, x);
    PayloadOf(db, x, keys);
    EmittedExactly(x.delta, keys, x.sync, x.serializedAt - CHANNEL_REMINDER_AGE, u);
    assert forall k :: k in x.delta ==> k in keys;
  }

  lemma PayloadAnnouncements(db: Tables, x: Computation, k: U64)
    requires Valid(db) && Computed(db, x)
    ensures Announces(x.payload.announcements, k)
       <==> k in x.delta && x.delta[k].announcement.Some? && SendAnnouncement(x.delta[k], x.sync)
  {
    hide Computed, SortedKeys, UpdatesOf, AnnouncementsOf, SeenOf, Ascending, Serializable, Announces, SendAnnouncement;
    var keys := DeltaKeys(db, x);
    PayloadOf(db, x, keys);
    AnnouncementsSent(x.delta, keys, x.sync, k);
  }

  /** A channel is in the delta exactly when the graph and the tables have it and something is new or due. */
  lemma RetainedExactly(db: Tables, x: Computation, k: U64)
    requires Computed(db, x)
    ensures k in x.delta <==>
      && k in ChannelIds(x.graph) && k in db.announcements
      && (IsReminded(x.graph, x.sync, x.now, x.reminders, k) || ChannelHasSince(db, x.sync, k))
    ensures k in ChannelIds(x.graph) <==>
      && k in x.graph && x.graph[k].announced && x.graph[k].oneToTwo.Some? && x.graph[k].twoToOne.Some?
  {
    var c := ChannelOf(db, x, k);
    FlagsOfChannel(db, x.graph, x.sync, x.now, x.reminders, k, c, false);
    FlagsOfChannel(db, x.graph, x.sync, x.now, x.reminders, k, c, true);
  }

  /** About a channel that the graph has lost nothing is sent, so a client keeps whatever it has of it. */
  lemma PrunedIsSilent(db: Tables, x: Computation, k: U64)
    requires Valid(db) && Computed(db, x) && k !in ChannelIds(x.graph)
    ensures !Announces(x.payload.announcements, k) && forall u :: u in x.payload.updates ==> u.Scid() != k
  {
    RetainedExactly(db, x, k);
    hide Computed, Announces;
    PayloadAnnouncements(db, x, k);
    forall u | u in x.payload.updates
      ensures u.Scid() != k
    {
      PayloadUpdates(db, x, u);
    }
  }

  /**
   * An announcement is sent exactly for retained channels that were announced or completed since the sync. So a
   * channel that was missing from the graph when it was announced is not announced to old clients later.
   */
  lemma AnnouncedExactly(db: Tables, x: Computation, k: U64)
    requires Valid(db) && Computed(db, x)
    ensures Announces(x.payload.announcements, k) <==>
      k in x.delta && k in db.announcements && (db.announcements[k].seen >= x.sync || CompletedSince(db, x.sync, k))
  {
    PayloadAnnouncements(db, x, k);
    var c := ChannelOf(db, x, k);
  }

  /** An incremental update is sent only against a reference younger than six days, and never for all five values. */
  lemma IncrementalNeedsFreshReference(db: Tables, x: Computation, u: UpdateSerialization)
    requires Valid(db) && Computed(db, x) && u in x.payload.updates && u.Incremental?
    ensures u.mutated.fields != FULL_MASK && u.mutated != UNMUTATED
    ensures exists r :: IsReference(db, x.sync, u.Scid(), DirectionOf(u.Flags()), r)
                        && r.seen > x.serializedAt - CHANNEL_REMINDER_AGE
  {
    hide Computed, DescribesChannel;
    PayloadUpdates(db, x, u);
    var k, d := u.Scid(), DirectionOf(u.Flags());
    var c := ChannelOf(db, x, k);
    assert x.delta[k] == c;
    FlagsOfChannel(db, x.graph, x.sync, x.now, x.reminders, k, c, d);
    hide FilteredTo, DescribesMutations, DescribesLatest;
    var last := c.Directed(d).lastUpdateBeforeSeen.value;
    var r :| IsReference(db, x.sync, k, d, r) && last == UpdateDelta(r.seen, r.update);
  }

  /** A reference from which no row since the sync differs. */
  ghost predicate Unchanged(db: Tables, sync: U32, k: U64, d: bool, reference: UpdateRow) {
    && IsReference(db, sync, k, d, reference)
    && forall r :: Row(db, r, k, d) && r.seen >= sync ==>
         r.update.values == reference.update.values && r.update.channelFlags == reference.update.channelFlags
  }

  /**
   * A reminder is sent only when one is due, with the graph's flags, for a channel that was complete before the sync,
   * and for a direction in which nothing changed since the reference, so that there is no value it could withhold.
   */
  lemma ReminderWithholdsNothing(db: Tables, x: Computation, u: UpdateSerialization)
    requires Valid(db) && Computed(db, x) && u in x.payload.updates && u.Reminder?
    ensures var k, d := u.Scid(), DirectionOf(u.Flags());
      && IsReminded(x.graph, x.sync, x.now, x.reminders, k) && u.Flags() == GraphFlags(x.graph, k, d)
      && !CompletedSince(db, x.sync, k)
      && (HasSince(db, x.sync, k, d) ==> exists r :: Unchanged(db, x.sync, k, d, r))
  {
    hide Computed, Categorize, FilteredTo, DescribesChannel, IsReminded, GraphFlags, HasSince, CompletedSince;
    hide Unchanged;
    PayloadUpdates(db, x, u);
    var k, d := u.Scid(), DirectionOf(u.Flags());
    var c := ChannelOf(db, x, k);
    InDelta(db, x, k, c);
    DescribedEntry(db, x, k, c);
    ReminderChoice(db, x, k, c, d, u);
  }

  lemma ReminderChoice(db: Tables, x: Computation, k: U64, c: ChannelDelta, d: bool, u: UpdateSerialization)
    requires DescribesChannel(db, x.graph, x.sync, x.now, x.reminders, k, c) && c.announcement.Some? && u.Reminder?
    requires Categorize(k, c, d, x.sync, x.serializedAt - CHANNEL_REMINDER_AGE) == Some(u)
    ensures IsReminded(x.graph, x.sync, x.now, x.reminders, k) && u.Flags() == GraphFlags(x.graph, k, d)
    ensures !CompletedSince(db, x.sync, k)
    ensures HasSince(db, x.sync, k, d) ==> exists r :: Unchanged(db, x.sync, k, d, r)
  {
    FlagsOfChannel(db, x.graph, x.sync, x.now, x.reminders, k, c, d);
    hide DescribesMutations, IsReminded, GraphFlags, IsReference, IsFirstBidirectional;
    assert !NewlyIncluded(c, x.sync);
    if HasSince(db, x.sync, k, d) {
      var last := c.Directed(d).lastUpdateBeforeSeen.value;
      assert c.Directed(d).mutatedProperties == UNMUTATED;
      var reference :| IsReference(db, x.sync, k, d, reference)
        && last == UpdateDelta(reference.seen, reference.update);
      NothingMarked(db, x.sync, k, d, last, reference);
    }
  }

  lemma NothingMarked(db: Tables, sync: U32, k: U64, d: bool, last: UpdateDelta, reference: UpdateRow)
    requires DescribesMutations(db, sync, k, d, Some(last), UNMUTATED)
    requires IsReference(db, sync, k, d, reference) && last.update == reference.update
    ensures Unchanged(db, sync, k, d, reference)
  {
    hide DescribesMutations, IsReference;
    forall r | Row(db, r, k, d) && r.seen >= sync
      ensures r.update.values == last.update.values && r.update.channelFlags == last.update.channelFlags
    {
      MarksCover(db, sync, k, d, last, UNMUTATED, r);
    }
  }

  /**
   * Every update that is sent can be used: its channel's announcement is in the same blob, or was seen before
   * the sync together with an update in each direction that has any.
   */
  lemma EmittedUpdatesAreUsable(db: Tables, x: Computation, u: UpdateSerialization)
    requires Valid(db) && Computed(db, x) && u in x.payload.updates
    ensures var k := u.Scid();
      || Announces(x.payload.announcements, k)
      || (&& k in db.announcements && db.announcements[k].seen < x.sync
          && forall d: bool :: HasRow(db, k, d) ==> HasBefore(db, x.sync, k, d))
  {
    PayloadUpdates(db, x, u);
    PayloadAnnouncements(db, x, u.Scid());
    var c := ChannelOf(db, x, u.Scid());
  }

  /** No channel whose announcement is sent gets an incremental update. */
  lemma AnnouncedIsNeverIncremental(db: Tables, x: Computation, u: UpdateSerialization)
    requires Valid(db) && Computed(db, x) && u in x.payload.updates && Announces(x.payload.announcements, u.Scid())
    ensures !u.Incremental?
  {
    hide Computed, Announces;
    PayloadUpdates(db, x, u);
    PayloadAnnouncements(db, x, u.Scid());
  }

  /** The update a newly completed channel gets in a direction: its newest row, or its last one before the sync. */
  ghost predicate FullOf(db: Tables, sync: U32, k: U64, d: bool, u: UpdateSerialization) {
    && u.Full?
    && exists r :: (IsLatest(db, sync, k, d, r) || (!HasSince(db, sync, k, d) && IsReference(db, sync, k, d, r)))
                   && u.update == r.update
  }

  lemma NewlyIncludedChoice(db: Tables, x: Computation, k: U64, c: ChannelDelta, d: bool)
    requires FilteredTo(db, x.graph, x.sync, x.now, x.reminders, x.delta, k, c) && c.announcement.Some?
    requires NewlyIncluded(c, x.sync)
    ensures var e := Categorize(k, c, d, x.sync, x.serializedAt - CHANNEL_REMINDER_AGE);
      && (e.Some? <==> HasRow(db, k, d))
      && (e.Some? ==> FullOf(db, x.sync, k, d, e.value))
  {
    NewlyIncludedHasSince(db, x.graph, x.sync, x.now, x.reminders, k, c);
    FlagsOfChannel(db, x.graph, x.sync, x.now, x.reminders, k, c, d);
    var u := c.Directed(d);
    if r :| Row(db, r, k, d) {
      assert r.seen < x.sync || r.seen >= x.sync;
    }
    hide DescribesMutations;
    if u.latestUpdateAfterSeen.Some? {
      var r :| IsLatest(db, x.sync, k, d, r) && u.latestUpdateAfterSeen.value == UpdateDelta(r.seen, r.update);
    } else if u.lastUpdateBeforeSeen.Some? {
      var r :| IsReference(db, x.sync, k, d, r) && u.lastUpdateBeforeSeen.value == UpdateDelta(r.seen, r.update);
    }
  }

  /** A channel completed since the sync gets one full update per direction with rows, and nothing else. */
  lemma NewlyIncludedIsFull(db: Tables, x: Computation, k: U64)
    requires Valid(db) && Computed(db, x)
    requires k in ChannelIds(x.graph) && k in db.announcements && CompletedSince(db, x.sync, k)
    ensures Announces(x.payload.announcements, k)
    ensures forall u :: u in x.payload.updates && u.Scid() == k ==> FullOf(db, x.sync, k, DirectionOf(u.Flags()), u)
    ensures forall d: bool :: HasRow(db, k, d) ==>
      exists u :: u in x.payload.updates && u.Scid() == k && DirectionOf(u.Flags()) == d
  {
    hide Computed, Announces, FullOf, Categorize, SendAnnouncement;
    var c := ChannelOf(db, x, k);
    CompletedIsSent(db, x, k, c);
    PayloadAnnouncements(db, x, k);
    forall u | u in x.payload.updates && u.Scid() == k
      ensures FullOf(db, x.sync, k, DirectionOf(u.Flags()), u)
    {
      PayloadUpdates(db, x, u);
      NewlyIncludedChoice(db, x, k, c, DirectionOf(u.Flags()));
    }
    forall d: bool | HasRow(db, k, d)
      ensures exists u :: u in x.payload.updates && u.Scid() == k && DirectionOf(u.Flags()) == d
    {
      NewlyIncludedChoice(db, x, k, c, d);
      var u := ChoiceOf(x, k, d).value;
      assert u.Scid() == k && DirectionOf(u.Flags()) == d by {
        SerializableIn(db, x, k);
        ChoiceIsOwn(k, c, d, x.sync, x.serializedAt - CHANNEL_REMINDER_AGE);
      }
      PayloadUpdates(db, x, u);
    }
  }

  // ---------------------------------------------------------------------------------------------
  // When a client that lacks a channel receives all of it
  // ---------------------------------------------------------------------------------------------

  /** The blob carries the channel's announcement and a full update for each direction with rows. */
  ghost predicate DeliveredWhole(db: Tables, x: Computation, k: U64) {
    && Announces(x.payload.announcements, k)
    && forall d: bool :: HasRow(db, k, d) ==>
         exists u :: u in x.payload.updates && u.Scid() == k && DirectionOf(u.Flags()) == d && u.Full?
  }

  /** Each direction with rows has one since the sync. */
  ghost predicate EveryDirectionNew(db: Tables, sync: U32, k: U64) {
    forall d: bool :: HasRow(db, k, d) ==> HasSince(db, sync, k, d)
  }

  lemma ChoiceIsFullWhenNew(db: Tables, x: Computation, k: U64, c: ChannelDelta, d: bool)
    requires FilteredTo(db, x.graph, x.sync, x.now, x.reminders, x.delta, k, c) && c.announcement.Some?
    requires SendAnnouncement(c, x.sync) && !NewlyIncluded(c, x.sync)
    ensures var e := Categorize(k, c, d, x.sync, x.serializedAt - CHANNEL_REMINDER_AGE);
      (e.Some? && e.value.Full?) <==> HasSince(db, x.sync, k, d)
  {
    FlagsOfChannel(db, x.graph, x.sync, x.now, x.reminders, k, c, d);
  }

  lemma SerializableIn(db: Tables, x: Computation, k: U64)
    requires Valid(db) && Computed(db, x) && k in x.delta
    ensures Serializable(k, x.delta[k])
  {
    hide Computed, Serializable;
    var keys := DeltaKeys(db, x);
    assert k in keys;
  }

  lemma FullInPayload(db: Tables, x: Computation, k: U64, d: bool)
    requires Valid(db) && Computed(db, x) && k in x.delta
    ensures x.delta[k].announcement.Some?
    ensures (exists u :: u in x.payload.updates && u.Scid() == k && DirectionOf(u.Flags()) == d && u.Full?)
       <==> ChoiceOf(x, k, d).Some? && ChoiceOf(x, k, d).value.Full?
  {
    hide Computed, Categorize, Serializable;
    SerializableIn(db, x, k);
    PayloadUpdates(db, x, Reminder(0, 0));
    ChoiceIsOwn(k, x.delta[k], d, x.sync, x.serializedAt - CHANNEL_REMINDER_AGE);
    if ChoiceOf(x, k, d).Some? {
      PayloadUpdates(db, x, ChoiceOf(x, k, d).value);
    }
    if u :| u in x.payload.updates && u.Scid() == k && DirectionOf(u.Flags()) == d && u.Full? {
      PayloadUpdates(db, x, u);
    }
  }

  /**
   * A channel of the graph is delivered whole exactly when one of its directions is new since the sync, or its
   * announcement is and every direction has a row since the sync. An announcement stored after both first
   * updates therefore reaches new clients late or never.
   */
  lemma DeliveredWholeExactly(db: Tables, x: Computation, k: U64)
    requires Valid(db) && Computed(db, x)
    requires k in ChannelIds(x.graph) && k in db.announcements && (HasRow(db, k, false) || HasRow(db, k, true))
    ensures DeliveredWhole(db, x, k)
       <==> CompletedSince(db, x.sync, k) || (db.announcements[k].seen >= x.sync && EveryDirectionNew(db, x.sync, k))
  {
    var c := ChannelOf(db, x, k);
    PayloadAnnouncements(db, x, k);
    assert c.announcement == Some(db.announcements[k]);
    assert NewlyIncluded(c, x.sync) <==> CompletedSince(db, x.sync, k);
    if CompletedSince(db, x.sync, k) {
      hide Computed, FilteredTo, Announces, FullOf;
      NewlyIncludedIsFull(db, x, k);
      FullsAreFull(db, x, k);
    } else if k in x.delta && SendAnnouncement(c, x.sync) {
      forall d: bool
        ensures (exists u :: u in x.payload.updates && u.Scid() == k && DirectionOf(u.Flags()) == d && u.Full?)
           <==> HasSince(db, x.sync, k, d)
      {
        hide Computed, Categorize;
        FullInPayload(db, x, k, d);
        ChoiceIsFullWhenNew(db, x, k, c, d);
      }
    } else if EveryDirectionNew(db, x.sync, k) {
      FlagsOfChannel(db, x.graph, x.sync, x.now, x.reminders, k, c, false);
      FlagsOfChannel(db, x.graph, x.sync, x.now, x.reminders, k, c, true);
      assert Retained(c);
    }
  }

  lemma FullsAreFull(db: Tables, x: Computation, k: U64)
    requires forall u :: u in x.payload.updates && u.Scid() == k ==> FullOf(db, x.sync, k, DirectionOf(u.Flags()), u)
    ensures forall u :: u in x.payload.updates && u.Scid() == k ==> u.Full?
  {
  }

  // ---------------------------------------------------------------------------------------------
  // Full sync
  // ---------------------------------------------------------------------------------------------

  lemma RemindedHasRow(db: Tables, x: Computation, k: U64)
    requires Valid(db) && Computed(db, x) && IsReminded(x.graph, x.sync, x.now, x.reminders, k)
    ensures HasRow(db, k, false) || HasRow(db, k, true)
  {
    hide DescribesDelta, DescribesSerialization, ReminderQuery, Valid;
    var i :| 0 <= i < |x.reminders| && x.reminders[i].scid == k && x.reminders[i].seen < x.now - CHANNEL_REMINDER_AGE;
    PickedRowsAreValid(db, ChannelIds(x.graph), x.now - PRUNE_INTERVAL, x.reminders);
    assert Row(db, x.reminders[i], k, x.reminders[i].direction);
  }

  lemma FullSyncIncludes(db: Tables, x: Computation, k: U64, c: ChannelDelta)
    requires Valid(db) && Computed(db, x) && x.sync == 0
    requires FilteredTo(db, x.graph, x.sync, x.now, x.reminders, x.delta, k, c) && k in x.delta
    ensures c.announcement.Some? && NewlyIncluded(c, 0) && SendAnnouncement(c, 0)
  {
    FlagsOfChannel(db, x.graph, x.sync, x.now, x.reminders, k, c, false);
    FlagsOfChannel(db, x.graph, x.sync, x.now, x.reminders, k, c, true);
    if c.requiresReminder {
      RemindedHasRow(db, x, k);
    }
    hide Computed;
    assert HasRow(db, k, false) || HasRow(db, k, true);
    assert CompletedSince(db, 0, k);
  }

  /** From scratch: each retained channel is announced, with exactly the newest row of each direction in full. */
  lemma FullSync(db: Tables, x: Computation)
    requires Valid(db) && Computed(db, x) && x.sync == 0
    ensures forall k: U64 :: k in x.delta <==> Announces(x.payload.announcements, k)
    ensures forall u :: u in x.payload.updates ==>
      u.Full? && exists r :: IsNewestRow(db, u.Scid(), DirectionOf(u.Flags()), r) && u.update == r.update
    ensures forall k: U64, d: bool :: k in x.delta && HasRow(db, k, d) ==>
      exists u :: u in x.payload.updates && u.Scid() == k && DirectionOf(u.Flags()) == d
  {
    hide Valid, Announces, FullOf, SendAnnouncement, NewlyIncluded, FilteredTo, Categorize, Computed, IsNewestRow;
    forall k: U64
      ensures k in x.delta <==> Announces(x.payload.announcements, k)
    {
      PayloadAnnouncements(db, x, k);
      if k in x.delta {
        var c := ChannelOf(db, x, k);
        InDelta(db, x, k, c);
        FullSyncIncludes(db, x, k, c);
      }
    }
    forall u | u in x.payload.updates
      ensures u.Full? && exists r :: IsNewestRow(db, u.Scid(), DirectionOf(u.Flags()), r) && u.update == r.update
    {
      PayloadUpdates(db, x, u);
      var k, d := u.Scid(), DirectionOf(u.Flags());
      var c := ChannelOf(db, x, k);
      InDelta(db, x, k, c);
      FullSyncIncludes(db, x, k, c);
      NewlyIncludedChoice(db, x, k, c, d);
      FullOfZero(db, k, d, u);
    }
    forall k: U64, d: bool | k in x.delta && HasRow(db, k, d)
      ensures exists u :: u in x.payload.updates && u.Scid() == k && DirectionOf(u.Flags()) == d
    {
      var c := ChannelOf(db, x, k);
      InDelta(db, x, k, c);
      FullSyncIncludes(db, x, k, c);
      NewlyIncludedChoice(db, x, k, c, d);
      FullOfZero(db, k, d, ChoiceOf(x, k, d).value);
      FullInPayload(db, x, k, d);
    }
  }

  lemma InDelta(db: Tables, x: Computation, k: U64, c: ChannelDelta)
    requires FilteredTo(db, x.graph, x.sync, x.now, x.reminders, x.delta, k, c) && k in x.delta
    ensures x.delta[k] == c
  {
  }

  lemma FullOfZero(db: Tables, k: U64, d: bool, u: UpdateSerialization)
    requires FullOf(db, 0, k, d, u)
    ensures u.Full? && exists r :: IsNewestRow(db, k, d, r) && u.update == r.update
  {
    var r :| (IsLatest(db, 0, k, d, r) || (!HasSince(db, 0, k, d) && IsReference(db, 0, k, d, r)))
             && u.update == r.update;
    assert IsNewestRow(db, k, d, r);
  }
}
