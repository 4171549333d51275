/** When each kind of update is sent, exactly, over the tables. */
module UpdateChoices {
  import opened Wrappers
  import opened GossipTypes
  import opened UpdateCodec
  import opened Database
  import opened Lookup
  import opened AnnouncementLookup
  import opened Serialization
  import opened Client
  import opened Pipeline
  import opened Convergence
  import opened ChannelGuarantees

  /** The row that the reference query returned for the direction. */
  ghost predicate PickedReference(db: Tables, x: Computation, k: U64, d: bool, r: UpdateRow) {
    && k in x.delta && IsReference(db, x.sync, k, d, r)
    && x.delta[k].Directed(d).lastUpdateBeforeSeen == Some(UpdateDelta(r.seen, r.update))
  }

  /** Some row since the sync differs from `r` in the property. */
  ghost predicate Changed(db: Tables, sync: U32, k: U64, d: bool, r: UpdateRow, p: Property) {
    exists y :: Row(db, y, k, d) && y.seen >= sync && Differs(r.update, y.update, p)
  }

  ghost predicate SomethingChanged(db: Tables, sync: U32, k: U64, d: bool, r: UpdateRow) {
    exists p :: Changed(db, sync, k, d, r, p)
  }

  ghost predicate AllValuesChanged(db: Tables, sync: U32, k: U64, d: bool, r: UpdateRow) {
    && Changed(db, sync, k, d, r, CltvExpiryDelta) && Changed(db, sync, k, d, r, HtlcMinimum)
    && Changed(db, sync, k, d, r, FeeBase) && Changed(db, sync, k, d, r, FeeProportional)
    && Changed(db, sync, k, d, r, HtlcMaximum)
  }

  /** The channel was announced or completed since the sync. */
  ghost predicate IsNew(db: Tables, sync: U32, k: U64) {
    (k in db.announcements && db.announcements[k].seen >= sync) || CompletedSince(db, sync, k)
  }

  /** Younger than six days when the blob is serialized. */
  predicate IsFresh(x: Computation, r: UpdateRow) {
    r.seen > x.serializedAt - 518_400
  }

  lemma MarkedIsChanged(
    db: Tables, sync: U32, k: U64, d: bool, last: UpdateDelta, m: MutatedProperties, r: UpdateRow, p: Property)
    requires DescribesMutations(db, sync, k, d, Some(last), m) && last.update == r.update
    ensures Marked(m, p) <==> Changed(db, sync, k, d, r, p)
  {
    if y :| Mutation(db, sync, k, d, last.update, p, y) {
      assert Row(db, y, k, d) && y.seen >= sync && Differs(r.update, y.update, p);
    }
    if y :| Row(db, y, k, d) && y.seen >= sync && Differs(r.update, y.update, p) {
      assert Mutation(db, sync, k, d, last.update, p, y);
    }
  }

  lemma MutationsAreChanges(
    db: Tables, sync: U32, k: U64, d: bool, last: UpdateDelta, m: MutatedProperties, r: UpdateRow)
    requires DescribesMutations(db, sync, k, d, Some(last), m) && last.update == r.update
    ensures m.Len() == 5 <==> AllValuesChanged(db, sync, k, d, r)
    ensures m.Len() > 0 || m.flags <==> SomethingChanged(db, sync, k, d, r)
  {
    hide Changed, DescribesMutations;
    MarkedIsChanged(db, sync, k, d, last, m, r, CltvExpiryDelta);
    MarkedIsChanged(db, sync, k, d, last, m, r, HtlcMinimum);
    MarkedIsChanged(db, sync, k, d, last, m, r, FeeBase);
    MarkedIsChanged(db, sync, k, d, last, m, r, FeeProportional);
    MarkedIsChanged(db, sync, k, d, last, m, r, HtlcMaximum);
    MarkedIsChanged(db, sync, k, d, last, m, r, Flags);
    if p :| Changed(db, sync, k, d, r, p) {
      MarkedIsChanged(db, sync, k, d, last, m, r, p);
    }
  }

  /** The payload has an update of the direction that is the choice for it, and no other. */
  lemma ChoiceInPayload(db: Tables, x: Computation, k: U64, d: bool)
    requires Valid(db) && Computed(db, x) && k in x.delta
    ensures x.delta[k].announcement.Some?
    ensures var e := ChoiceOf(x, k, d);
      && (e.Some? ==> e.value in x.payload.updates && e.value.Scid() == k && DirectionOf(e.value.Flags()) == d)
      && forall u :: u in x.payload.updates && u.Scid() == k && DirectionOf(u.Flags()) == d ==> e == Some(u)
  {
    hide Computed, Categorize, Serializable;
    SerializableIn(db, x, k);
    PayloadUpdates(db, x, Reminder(0, 0));
    ChoiceIsOwn(k, x.delta[k], d, x.sync, x.serializedAt - CHANNEL_REMINDER_AGE);
    if ChoiceOf(x, k, d).Some? {
      PayloadUpdates(db, x, ChoiceOf(x, k, d).value);
    }
    forall u | u in x.payload.updates && u.Scid() == k && DirectionOf(u.Flags()) == d
      ensures ChoiceOf(x, k, d) == Some(u)
    {
      PayloadUpdates(db, x, u);
    }
  }

  /** What the choice for a direction depends on, over the tables. */
  lemma ChoiceTerms(db: Tables, x: Computation, k: U64, d: bool)
    requires Valid(db) && Computed(db, x) && k in x.delta
    ensures var c := x.delta[k];
      && c.announcement.Some?
      && (NewlyIncluded(c, x.sync) <==> CompletedSince(db, x.sync, k))
      && (SendAnnouncement(c, x.sync) <==> IsNew(db, x.sync, k))
      && (c.requiresReminder <==> IsReminded(x.graph, x.sync, x.now, x.reminders, k))
      && c.Directed(d).serializationUpdateFlags == ReminderFlags(x.graph, x.sync, x.now, x.reminders, k, d)
      && DescribesDirection(db, x.sync, k, d, c.Directed(d))
  {
    var c := ChannelOf(db, x, k);
    InDelta(db, x, k, c);
    FlagsOfChannel(db, x.graph, x.sync, x.now, x.reminders, k, c, d);
    hide Computed, DescribesDirection, IsReminded, IsFirstBidirectional, CompletedSince, ReminderFlags;
  }

  /** The delta has a reference for the direction exactly when the query returned one. */
  lemma ReferenceTerms(db: Tables, x: Computation, k: U64, d: bool) returns (o: Option<UpdateRow>)
    requires k in x.delta && DescribesDirection(db, x.sync, k, d, x.delta[k].Directed(d))
    ensures var u := x.delta[k].Directed(d);
      && (o.Some? <==> u.lastUpdateBeforeSeen.Some?)
      && (o.Some? <==> HasBefore(db, x.sync, k, d) && ChannelHasSince(db, x.sync, k))
      && (o.Some? ==>
            && PickedReference(db, x, k, d, o.value)
            && u.lastUpdateBeforeSeen == Some(UpdateDelta(o.value.seen, o.value.update))
            && (u.mutatedProperties.Len() == 5 <==> AllValuesChanged(db, x.sync, k, d, o.value))
            && (u.mutatedProperties.Len() > 0 || u.mutatedProperties.flags
                <==> SomethingChanged(db, x.sync, k, d, o.value)))
      && forall r :: PickedReference(db, x, k, d, r) ==>
           o.Some? && r.update == o.value.update && r.seen == o.value.seen
  {
    var u := x.delta[k].Directed(d);
    o := None;
    hide DescribesLatest, HasBefore, ChannelHasSince, AllValuesChanged, SomethingChanged;
    if u.lastUpdateBeforeSeen.Some? {
      var last := u.lastUpdateBeforeSeen.value;
      var r :| IsReference(db, x.sync, k, d, r) && last == UpdateDelta(r.seen, r.update);
      o := Some(r);
      hide DescribesMutations, DescribesReference, IsReference;
      MutationsAreChanges(db, x.sync, k, d, last, u.mutatedProperties, r);
    }
  }

  /** Rows with the same update see the same changes. */
  lemma SameChanges(db: Tables, sync: U32, k: U64, d: bool, a: UpdateRow, b: UpdateRow)
    requires a.update == b.update
    ensures AllValuesChanged(db, sync, k, d, a) <==> AllValuesChanged(db, sync, k, d, b)
    ensures SomethingChanged(db, sync, k, d, a) <==> SomethingChanged(db, sync, k, d, b)
  {
    forall p
      ensures Changed(db, sync, k, d, a, p) <==> Changed(db, sync, k, d, b, p)
    {
    }
    hide Changed;
  }

  /** An incremental update is called for. */
  ghost predicate CallsForIncremental(db: Tables, x: Computation, k: U64, d: bool, r: UpdateRow) {
    && PickedReference(db, x, k, d, r) && IsFresh(x, r)
    && SomethingChanged(db, x.sync, k, d, r) && !AllValuesChanged(db, x.sync, k, d, r)
  }

  /** There is a fresh reference, and not all five values changed. */
  ghost predicate CanBeCompared(db: Tables, x: Computation, k: U64, d: bool, r: UpdateRow) {
    PickedReference(db, x, k, d, r) && IsFresh(x, r) && !AllValuesChanged(db, x.sync, k, d, r)
  }

  /** Nothing has changed since a fresh reference. */
  ghost predicate OnlyRepeats(db: Tables, x: Computation, k: U64, d: bool, r: UpdateRow) {
    PickedReference(db, x, k, d, r) && IsFresh(x, r) && !SomethingChanged(db, x.sync, k, d, r)
  }

  /**
   * An incremental update is sent for a direction of a retained channel exactly when the channel is not new, the
   * direction has a row since the sync and a reference younger than six days, and something changed but not all values.
   */
  lemma IncrementalExactly(db: Tables, x: Computation, k: U64, d: bool)
    requires Valid(db) && Computed(db, x) && k in x.delta
    ensures (exists u :: u in x.payload.updates && u.Scid() == k && DirectionOf(u.Flags()) == d && u.Incremental?)
       <==> && !IsNew(db, x.sync, k) && HasSince(db, x.sync, k, d)
            && exists r :: CallsForIncremental(db, x, k, d, r)
  {
    hide Computed, CallsForIncremental, IsNew, HasSince, ChoiceOf;
    IncrementalInPayload(db, x, k, d);
    IncrementalChosen(db, x, k, d);
  }

  lemma IncrementalInPayload(db: Tables, x: Computation, k: U64, d: bool)
    requires Valid(db) && Computed(db, x) && k in x.delta
    ensures x.delta[k].announcement.Some?
    ensures (exists u :: u in x.payload.updates && u.Scid() == k && DirectionOf(u.Flags()) == d && u.Incremental?)
       <==> ChoiceOf(x, k, d).Some? && ChoiceOf(x, k, d).value.Incremental?
  {
    hide Computed, ChoiceOf, Valid;
    ChoiceInPayload(db, x, k, d);
  }

  lemma IncrementalChosen(db: Tables, x: Computation, k: U64, d: bool)
    requires Valid(db) && Computed(db, x) && k in x.delta && x.delta[k].announcement.Some?
    ensures ChoiceOf(x, k, d).Some? && ChoiceOf(x, k, d).value.Incremental?
       <==> && !IsNew(db, x.sync, k) && HasSince(db, x.sync, k, d)
            && exists r :: CallsForIncremental(db, x, k, d, r)
  {
    hide Computed, Valid, PickedReference, SomethingChanged, AllValuesChanged, CompletedSince, IsReminded;
    hide ReminderFlags;
    hide HasSince, HasBefore, ChannelHasSince, IsNew, DescribesReference, DescribesMutations, SendAnnouncement;
    hide NewlyIncluded, IsLatest;
    ChoiceTerms(db, x, k, d);
    var o := ReferenceTerms(db, x, k, d);
    if r :| CallsForIncremental(db, x, k, d, r) {
      SameChanges(db, x.sync, k, d, r, o.value);
      assert IsFresh(x, o.value);
    }
    if o.Some? && IsFresh(x, o.value) && SomethingChanged(db, x.sync, k, d, o.value)
       && !AllValuesChanged(db, x.sync, k, d, o.value) {
      assert CallsForIncremental(db, x, k, d, o.value);
    }
  }

  /** It carries the latest row, and marks exactly the properties that changed. */
  lemma IncrementalCarries(db: Tables, x: Computation, u: UpdateSerialization)
    requires Valid(db) && Computed(db, x) && u in x.payload.updates && u.Incremental?
    ensures var k, d := u.Scid(), DirectionOf(u.Flags());
      && (exists r :: IsLatest(db, x.sync, k, d, r) && u.update == r.update)
      && exists r :: PickedReference(db, x, k, d, r)
                     && forall p :: Marked(u.mutated, p) <==> Changed(db, x.sync, k, d, r, p)
  {
    hide Computed, Valid, AllValuesChanged, SomethingChanged, IsNew, IsReminded, ReminderFlags, CompletedSince;
    hide HasSince;
    hide DescribesReference, DescribesMutations, SendAnnouncement, NewlyIncluded, HasBefore, ChannelHasSince, Changed;
    hide IsLatest, IsReference;
    var k, d := u.Scid(), DirectionOf(u.Flags());
    PayloadUpdates(db, x, u);
    ChoiceTerms(db, x, k, d);
    var o := ReferenceTerms(db, x, k, d);
    var v := x.delta[k].Directed(d);
    assert u == Incremental(v.latestUpdateAfterSeen.value.update, v.mutatedProperties) && o.Some?;
    assert v.lastUpdateBeforeSeen == Some(UpdateDelta(o.value.seen, o.value.update));
    hide Categorize, ChoiceOf;
    LatestRow(db, x.sync, k, d, v.latestUpdateAfterSeen);
    forall p
      ensures Marked(u.mutated, p) <==> Changed(db, x.sync, k, d, o.value, p)
    {
      MarkedIsChanged(db, x.sync, k, d, v.lastUpdateBeforeSeen.value, v.mutatedProperties, o.value, p);
    }
  }

  lemma LatestRow(db: Tables, sync: U32, k: U64, d: bool, o: Option<UpdateDelta>)
    requires DescribesLatest(db, sync, k, d, o) && o.Some?
    ensures exists r :: IsLatest(db, sync, k, d, r) && o.value.update == r.update
  {
  }

  /**
   * A reminder is sent for a direction of a retained channel exactly when one is due and either the direction has no
   * row since the sync and the channel was complete before, or the channel is not new and nothing changed since a
   * fresh reference. Its flags are the direction and whether the graph has it disabled.
   */
  lemma ReminderExactly(db: Tables, x: Computation, k: U64, d: bool)
    requires Valid(db) && Computed(db, x) && k in x.delta
    ensures (exists u :: u in x.payload.updates && u.Scid() == k && DirectionOf(u.Flags()) == d && u.Reminder?)
       <==> && IsReminded(x.graph, x.sync, x.now, x.reminders, k)
            && (if HasSince(db, x.sync, k, d)
                then !IsNew(db, x.sync, k) && exists r :: OnlyRepeats(db, x, k, d, r)
                else !CompletedSince(db, x.sync, k))
    ensures k in x.graph && x.graph[k].oneToTwo.Some? && x.graph[k].twoToOne.Some?
    ensures forall u :: u in x.payload.updates && u.Scid() == k && DirectionOf(u.Flags()) == d && u.Reminder? ==>
      u.Flags() == (if d then (if x.graph[k].twoToOne.value then 1 else 3)
                    else (if x.graph[k].oneToTwo.value then 0 else 2))
  {
    hide Computed, OnlyRepeats, IsNew, HasSince, ChoiceOf, IsReminded, CompletedSince, ChannelHasSince, Valid;
    RetainedExactly(db, x, k);
    ChoiceInPayload(db, x, k, d);
    ReminderChosen(db, x, k, d);
  }

  lemma ReminderChosen(db: Tables, x: Computation, k: U64, d: bool)
    requires Valid(db) && Computed(db, x) && k in x.delta && x.delta[k].announcement.Some? && k in ChannelIds(x.graph)
    ensures ChoiceOf(x, k, d).Some? && ChoiceOf(x, k, d).value.Reminder?
       <==> && IsReminded(x.graph, x.sync, x.now, x.reminders, k)
            && (if HasSince(db, x.sync, k, d)
                then !IsNew(db, x.sync, k) && exists r :: OnlyRepeats(db, x, k, d, r)
                else !CompletedSince(db, x.sync, k))
    ensures ChoiceOf(x, k, d).Some? && ChoiceOf(x, k, d).value.Reminder? ==>
      ChoiceOf(x, k, d).value.Flags() == (if d then (if x.graph[k].twoToOne.value then 1 else 3)
                                          else (if x.graph[k].oneToTwo.value then 0 else 2))
  {
    hide Computed, Valid, PickedReference, SomethingChanged, AllValuesChanged, CompletedSince, IsReminded, HasSince;
    hide HasBefore, ChannelHasSince, IsNew, DescribesReference, DescribesMutations, SendAnnouncement, NewlyIncluded;
    hide IsLatest;
    ChoiceTerms(db, x, k, d);
    var o := ReferenceTerms(db, x, k, d);
    if r :| OnlyRepeats(db, x, k, d, r) {
      SameChanges(db, x.sync, k, d, r, o.value);
      assert IsFresh(x, o.value);
    }
    if o.Some? && IsFresh(x, o.value) && !SomethingChanged(db, x.sync, k, d, o.value) {
      assert OnlyRepeats(db, x, k, d, o.value);
      NoValueWithoutChange(db, x.sync, k, d, o.value);
    }
  }

  lemma NoValueWithoutChange(db: Tables, sync: U32, k: U64, d: bool, r: UpdateRow)
    requires !SomethingChanged(db, sync, k, d, r)
    ensures !AllValuesChanged(db, sync, k, d, r)
  {
  }

  /**
   * A full update is sent for a direction of a retained channel exactly when it has a row since the sync and the
   * channel is new, or there is no fresh reference or all five values changed; or when it has only older rows and the
   * channel was completed since the sync.
   */
  lemma FullExactly(db: Tables, x: Computation, k: U64, d: bool)
    requires Valid(db) && Computed(db, x) && k in x.delta
    ensures (exists u :: u in x.payload.updates && u.Scid() == k && DirectionOf(u.Flags()) == d && u.Full?)
       <==> if HasSince(db, x.sync, k, d)
            then IsNew(db, x.sync, k) || !(exists r :: CanBeCompared(db, x, k, d, r))
            else CompletedSince(db, x.sync, k) && HasBefore(db, x.sync, k, d)
  {
    hide Computed, CanBeCompared, IsNew, HasSince, ChoiceOf, CompletedSince, HasBefore, Valid;
    FullInPayload(db, x, k, d);
    FullChosen(db, x, k, d);
  }

  /** It carries the latest row since the sync, or else the reference. */
  lemma FullCarries(db: Tables, x: Computation, u: UpdateSerialization)
    requires Valid(db) && Computed(db, x) && u in x.payload.updates && u.Full?
    ensures var k, d := u.Scid(), DirectionOf(u.Flags());
      exists r: UpdateRow :: u.update == r.update
                  && (if HasSince(db, x.sync, k, d) then IsLatest(db, x.sync, k, d, r)
                      else PickedReference(db, x, k, d, r))
  {
    hide Computed, Valid, AllValuesChanged, SomethingChanged, IsNew, IsReminded, ReminderFlags, CompletedSince;
    hide HasSince;
    hide DescribesReference, DescribesMutations, SendAnnouncement, NewlyIncluded, HasBefore, ChannelHasSince, Changed;
    hide IsLatest, IsReference;
    var k, d := u.Scid(), DirectionOf(u.Flags());
    PayloadUpdates(db, x, u);
    ChoiceTerms(db, x, k, d);
    var o := ReferenceTerms(db, x, k, d);
    var v := x.delta[k].Directed(d);
    if HasSince(db, x.sync, k, d) {
      LatestRow(db, x.sync, k, d, v.latestUpdateAfterSeen);
    } else {
      assert u.update == o.value.update;
    }
  }

  lemma FullChosen(db: Tables, x: Computation, k: U64, d: bool)
    requires Valid(db) && Computed(db, x) && k in x.delta && x.delta[k].announcement.Some?
    ensures ChoiceOf(x, k, d).Some? && ChoiceOf(x, k, d).value.Full?
       <==> if HasSince(db, x.sync, k, d)
            then IsNew(db, x.sync, k) || !(exists r :: CanBeCompared(db, x, k, d, r))
            else CompletedSince(db, x.sync, k) && HasBefore(db, x.sync, k, d)
  {
    hide Computed, Valid, PickedReference, SomethingChanged, AllValuesChanged, CompletedSince, IsReminded;
    hide ReminderFlags;
    hide HasSince, HasBefore, ChannelHasSince, IsNew, DescribesReference, DescribesMutations, SendAnnouncement;
    hide NewlyIncluded, IsLatest;
    ChoiceTerms(db, x, k, d);
    CompletedHasSince(db, x, k);
    var o := ReferenceTerms(db, x, k, d);
    if r :| CanBeCompared(db, x, k, d, r) {
      SameChanges(db, x.sync, k, d, r, o.value);
      assert IsFresh(x, o.value);
    }
    if o.Some? && IsFresh(x, o.value) && !AllValuesChanged(db, x.sync, k, d, o.value) {
      assert CanBeCompared(db, x, k, d, o.value);
    }
  }

  lemma CompletedHasSince(db: Tables, x: Computation, k: U64)
    ensures CompletedSince(db, x.sync, k) ==> ChannelHasSince(db, x.sync, k)
  {
    if d :| HasRow(db, k, d) && !HasBefore(db, x.sync, k, d) {
      var r :| Row(db, r, k, d);
      assert HasSince(db, x.sync, k, d);
    }
  }
}
