/** From tables to the client: order, panic freedom, and convergence of a whole blob. */
module Pipeline {
  import opened Wrappers
  import opened GossipTypes
  import opened UpdateCodec
  import opened Database
  import opened Lookup
  import opened AnnouncementLookup
  import opened NodeLookup
  import opened Serialization
  import opened Blob
  import opened Client

  // ---------------------------------------------------------------------------------------------
  // No panic
  // ---------------------------------------------------------------------------------------------

  /** Every filtered delta set satisfies the unwrap and the SCID assertion of the serializer. */
  lemma DeltaIsSerializable(
    db: Tables, graph: Graph, sync: U32, now: U32, reminders: seq<UpdateRow>, delta: DeltaSet)
    requires Valid(db) && DescribesDelta(db, graph, sync, now, reminders, delta)
    ensures AllSerializable(delta)
  {
    forall k | k in delta
      ensures Serializable(k, delta[k])
    {
      assert DescribesEntry(db, graph, sync, now, reminders, delta, k);
      var c :| FilteredTo(db, graph, sync, now, reminders, delta, k, c);
      forall d: bool
        ensures SerializableDirection(k, d, c.Directed(d))
      {
        FlagsOfChannel(db, graph, sync, now, reminders, k, c, d);
        DirectionIsSerializable(db, graph, sync, now, reminders, k, d, c.Directed(d));
      }
    }
  }

  lemma ReminderFlagsOwn(graph: Graph, sync: U32, now: U32, reminders: seq<UpdateRow>, k: U64, d: bool)
    ensures var flags := ReminderFlags(graph, sync, now, reminders, k, d);
      flags.Some? ==> flags.value < 4 && DirectionOf(flags.value) == d
  {
  }

  lemma DirectionIsSerializable(
    db: Tables, graph: Graph, sync: U32, now: U32, reminders: seq<UpdateRow>, k: U64, d: bool, u: DirectedUpdateDelta)
    requires Valid(db) && DescribesDirection(db, sync, k, d, u)
    requires u.serializationUpdateFlags == ReminderFlags(graph, sync, now, reminders, k, d)
    ensures SerializableDirection(k, d, u)
  {
    hide DescribesMutations, ReminderFlags;
    ReminderFlagsOwn(graph, sync, now, reminders, k, d);
    if u.latestUpdateAfterSeen.Some? {
      var r :| IsLatest(db, sync, k, d, r) && u.latestUpdateAfterSeen.value == UpdateDelta(r.seen, r.update);
    }
    if u.lastUpdateBeforeSeen.Some? {
      var r :| IsReference(db, sync, k, d, r) && u.lastUpdateBeforeSeen.value == UpdateDelta(r.seen, r.update);
    }
  }

  // ---------------------------------------------------------------------------------------------
  // Order
  // ---------------------------------------------------------------------------------------------

  predicate Ascending(keys: seq<U64>) {
    forall i, j :: 0 <= i < j < |keys| ==> keys[i] < keys[j]
  }

  /** Strictly by channel, and forward before backward within one: at most two updates per channel. */
  predicate Before(a: UpdateSerialization, b: UpdateSerialization) {
    a.Scid() < b.Scid() || (a.Scid() == b.Scid() && !DirectionOf(a.Flags()) && DirectionOf(b.Flags()))
  }

  predicate UpdatesOrdered(us: seq<UpdateSerialization>) {
    forall i, j :: 0 <= i < j < |us| ==> Before(us[i], us[j])
  }

  predicate AnnouncementsOrdered(anns: seq<ChannelAnnouncement>) {
    forall i, j :: 0 <= i < j < |anns| ==> anns[i].scid < anns[j].scid
  }

  predicate KeysSerializable(delta: DeltaSet, keys: seq<U64>) {
    forall i :: 0 <= i < |keys| ==> keys[i] in delta && Serializable(keys[i], delta[keys[i]])
  }

  lemma ChoiceIsOwn(k: U64, c: ChannelDelta, d: bool, sync: U32, threshold: int)
    requires Serializable(k, c)
    ensures var e := Categorize(k, c, d, sync, threshold);
      e.Some? ==> e.value.Scid() == k && e.value.Flags() < 4 && DirectionOf(e.value.Flags()) == d
  {
    assert SerializableDirection(k, d, c.Directed(d));
  }

  lemma AnnouncementsJoin(a: seq<ChannelAnnouncement>, b: seq<ChannelAnnouncement>)
    requires AnnouncementsOrdered(a) && AnnouncementsOrdered(b)
    requires forall i, j :: 0 <= i < |a| && 0 <= j < |b| ==> a[i].scid < b[j].scid
    ensures AnnouncementsOrdered(a + b)
  {
  }

  lemma UpdatesJoin(a: seq<UpdateSerialization>, b: seq<UpdateSerialization>)
    requires UpdatesOrdered(a) && UpdatesOrdered(b)
    requires forall i, j :: 0 <= i < |a| && 0 <= j < |b| ==> Before(a[i], b[j])
    ensures UpdatesOrdered(a + b)
  {
    hide Before;
  }

  predicate AnnouncementsWithin(anns: seq<ChannelAnnouncement>, keys: seq<U64>) {
    forall i :: 0 <= i < |anns| ==> anns[i].scid in keys
  }

  predicate UpdatesWithin(us: seq<UpdateSerialization>, keys: seq<U64>) {
    forall i :: 0 <= i < |us| ==> us[i].Scid() in keys && us[i].Flags() < 4
  }

  lemma ChannelUpdatesOrdered(k: U64, c: ChannelDelta, sync: U32, threshold: int)
    requires Serializable(k, c)
    ensures UpdatesOrdered(ChannelUpdates(k, c, sync, threshold))
    ensures UpdatesWithin(ChannelUpdates(k, c, sync, threshold), [k])
  {
    hide Categorize;
    ChoiceIsOwn(k, c, false, sync, threshold);
    ChoiceIsOwn(k, c, true, sync, threshold);
  }

  lemma AscendingTail(keys: seq<U64>)
    requires keys != [] && Ascending(keys)
    ensures Ascending(keys[1..]) && forall x :: x in keys[1..] ==> keys[0] < x
    ensures forall x :: x in keys <==> x == keys[0] || x in keys[1..]
  {
  }

  lemma {:induction false} AnnouncementsAscend(delta: DeltaSet, keys: seq<U64>, sync: U32)
    requires KeysSerializable(delta, keys) && KeysAnnounced(delta, keys) && Ascending(keys)
    ensures AnnouncementsOrdered(AnnouncementsOf(delta, keys, sync))
    ensures AnnouncementsWithin(AnnouncementsOf(delta, keys, sync), keys)
  {
    if keys != [] {
      AscendingTail(keys);
      hide SendAnnouncement, Ascending;
      AnnouncementsAscend(delta, keys[1..], sync);
      AnnouncementsJoin(ChannelAnnouncements(delta[keys[0]], sync), AnnouncementsOf(delta, keys[1..], sync));
    }
  }

  lemma {:induction false} UpdatesAscend(delta: DeltaSet, keys: seq<U64>, sync: U32, threshold: int)
    requires KeysSerializable(delta, keys) && KeysAnnounced(delta, keys) && Ascending(keys)
    ensures UpdatesOrdered(UpdatesOf(delta, keys, sync, threshold))
    ensures UpdatesWithin(UpdatesOf(delta, keys, sync, threshold), keys)
  {
    if keys != [] {
      AscendingTail(keys);
      hide Ascending, ChannelUpdates, Serializable, UpdatesOrdered;
      UpdatesAscend(delta, keys[1..], sync, threshold);
      ChannelUpdatesOrdered(keys[0], delta[keys[0]], sync, threshold);
      UpdatesJoin(
        ChannelUpdates(keys[0], delta[keys[0]], sync, threshold), UpdatesOf(delta, keys[1..], sync, threshold));
    } else {
      NothingToOrder();
    }
  }

  lemma NothingToOrder()
    ensures UpdatesOrdered([])
  {
  }

  lemma {:induction false} OrderedAnnouncementsFollow(previous: U64, anns: seq<ChannelAnnouncement>)
    requires AnnouncementsOrdered(anns) && forall i :: 0 <= i < |anns| ==> previous <= anns[i].scid
    ensures AnnouncementsFollow(previous, anns)
    decreases anns
  {
    if anns != [] {
      OrderedAnnouncementsFollow(anns[0].scid, anns[1..]);
    }
  }

  lemma {:induction false} OrderedUpdatesFollow(previous: U64, us: seq<UpdateSerialization>)
    requires UpdatesOrdered(us) && forall i :: 0 <= i < |us| ==> previous <= us[i].Scid() && us[i].Flags() < 4
    ensures UpdatesFollow(previous, us)
    decreases us
  {
    if us != [] {
      assert forall i :: 1 <= i < |us| ==> Before(us[0], us[i]);
      OrderedUpdatesFollow(us[0].Scid(), us[1..]);
    }
  }

  /** Both "unsorted scids!" panics are unreachable, and the vectors are strictly ordered. */
  lemma PipelineIsOrdered(
    db: Tables, graph: Graph, sync: U32, now: U32, reminders: seq<UpdateRow>, delta: DeltaSet,
    nodes: NodeDeltaSet, serializedAt: U32, chainHash: Bytes, s: SerializationSet)
    requires Valid(db) && DescribesDelta(db, graph, sync, now, reminders, delta)
    requires DescribesSerialization(delta, nodes, sync, serializedAt, chainHash, s)
    ensures AnnouncementsOrdered(s.announcements) && AnnouncementsFollow(0, s.announcements)
    ensures UpdatesOrdered(s.updates) && UpdatesFollow(0, s.updates)
  {
    hide DescribesDelta, Serializable, AnnouncementsOf, UpdatesOf, SeenOf, CountedOf, NodeMutations, KeysAnnounced;
    hide SortedKeys;
    DeltaIsSerializable(db, graph, sync, now, reminders, delta);
    var keys := SortedKeys(delta.Keys);
    KeysOf(delta);
    AnnouncementsAscend(delta, keys, sync);
    UpdatesAscend(delta, keys, sync, serializedAt - CHANNEL_REMINDER_AGE);
    OrderedAnnouncementsFollow(0, s.announcements);
    OrderedUpdatesFollow(0, s.updates);
  }

  // ---------------------------------------------------------------------------------------------
  // What the updates of a blob do to one direction
  // ---------------------------------------------------------------------------------------------

  lemma MeaningOfChoice(
    k: U64, c: ChannelDelta, d: bool, sync: U32, threshold: int, k': U64, d': bool, held: Option<Policy>)
    requires Serializable(k, c)
    ensures Effects(Meanings(ToSeq(Categorize(k, c, d, sync, threshold))), k', d', held)
         == if k == k' && d == d' then EffectOfChoice(Categorize(k, c, d, sync, threshold), held) else held
  {
    hide Effect, Categorize;
    ChoiceIsOwn(k, c, d, sync, threshold);
    var e := Categorize(k, c, d, sync, threshold);
    if e.Some? {
      assert Meaning(e.value).scid == e.value.Scid() && Meaning(e.value).flags == e.value.Flags();
      assert Meanings([e.value]) == [Meaning(e.value)];
      assert [Meaning(e.value)][1..] == [];
    }
  }

  lemma {:induction false} MeaningsAppend(a: seq<UpdateSerialization>, b: seq<UpdateSerialization>)
    ensures Meanings(a + b) == Meanings(a) + Meanings(b)
  {
    var whole := Meanings(a + b);
    forall i | 0 <= i < |whole|
      ensures whole[i] == (Meanings(a) + Meanings(b))[i]
    {
      assert whole[i] == Meaning((a + b)[i]);
    }
  }

  lemma EffectOfChannel(k: U64, c: ChannelDelta, sync: U32, threshold: int, k': U64, d: bool, held: Option<Policy>)
    requires Serializable(k, c)
    ensures Effects(Meanings(ChannelUpdates(k, c, sync, threshold)), k', d, held)
         == if k == k' then EffectOfChoice(Categorize(k, c, d, sync, threshold), held) else held
  {
    hide Categorize, Effects, Meanings, EffectOfChoice, ToSeq;
    var a := ToSeq(Categorize(k, c, false, sync, threshold));
    var b := ToSeq(Categorize(k, c, true, sync, threshold));
    MeaningsAppend(a, b);
    EffectsAppend(Meanings(a), Meanings(b), k', d, held);
    MeaningOfChoice(k, c, false, sync, threshold, k', d, held);
    MeaningOfChoice(k, c, true, sync, threshold, k', d, Effects(Meanings(a), k', d, held));
  }

  /** Each direction is touched by its own choice and nothing else. */
  lemma {:induction false} EffectOfUpdates(
    delta: DeltaSet, keys: seq<U64>, sync: U32, threshold: int, k: U64, d: bool, held: Option<Policy>)
    requires KeysSerializable(delta, keys) && KeysAnnounced(delta, keys) && Ascending(keys)
    ensures Effects(Meanings(UpdatesOf(delta, keys, sync, threshold)), k, d, held)
         == if k in keys then EffectOfChoice(Categorize(k, delta[k], d, sync, threshold), held) else held
    decreases keys
  {
    if keys != [] {
      var rest := keys[1..];
      assert forall i :: 0 <= i < |rest| ==> rest[i] == keys[i + 1];
      assert k in keys <==> k == keys[0] || k in rest;
      assert keys[0] !in rest;
      var head := ChannelUpdates(keys[0], delta[keys[0]], sync, threshold);
      var tail := UpdatesOf(delta, rest, sync, threshold);
      hide Serializable, Categorize, Effects, Meanings, EffectOfChoice, ChannelUpdates;
      MeaningsAppend(head, tail);
      EffectsAppend(Meanings(head), Meanings(tail), k, d, held);
      EffectOfChannel(keys[0], delta[keys[0]], sync, threshold, k, d, held);
      EffectOfUpdates(delta, rest, sync, threshold, k, d, Effects(Meanings(head), k, d, held));
    } else {
      NoEffects(k, d, held);
    }
  }

  lemma NoEffects(k: U64, d: bool, held: Option<Policy>)
    ensures Effects(Meanings([]), k, d, held) == held
  {
  }

  lemma ChannelAnnounces(delta: DeltaSet, k: U64, sync: U32, x: U64)
    requires k in delta && Serializable(k, delta[k])
    ensures Announces(ChannelAnnouncements(delta[k], sync), x) <==> x == k && SendAnnouncement(delta[k], sync)
  {
    hide SendAnnouncement;
    if SendAnnouncement(delta[k], sync) {
      assert ChannelAnnouncements(delta[k], sync)[0].scid == k;
    }
  }

  /** An announcement is sent exactly for the retained channels that call for it. */
  lemma {:induction false} AnnouncementsSent(delta: DeltaSet, keys: seq<U64>, sync: U32, k: U64)
    requires KeysSerializable(delta, keys) && KeysAnnounced(delta, keys)
    ensures Announces(AnnouncementsOf(delta, keys, sync), k) <==> k in keys && SendAnnouncement(delta[k], sync)
  {
    if keys != [] {
      assert keys == [keys[0]] + keys[1..];
      hide SendAnnouncement, Announces, ChannelAnnouncements;
      AnnouncementsSent(delta, keys[1..], sync, k);
      ChannelAnnounces(delta, keys[0], sync, k);
      AnnouncesJoin(ChannelAnnouncements(delta[keys[0]], sync), AnnouncementsOf(delta, keys[1..], sync), k);
    }
  }
}
