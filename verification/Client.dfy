/** A client's channel graph, how a blob changes it, and convergence of one channel direction. */
module Client {
  import opened Wrappers
  import opened GossipTypes
  import opened UpdateCodec
  import opened Database
  import opened Lookup
  import opened AnnouncementLookup
  import opened Serialization
  import opened Blob

  /** What a client knows about one direction of a channel. */
  datatype Policy = Policy(disabled: bool, values: RoutingValues)

  datatype ClientChannel = ClientChannel(oneToTwo: Option<Policy>, twoToOne: Option<Policy>) {
    function Direction(d: bool): Option<Policy> {
      if d then twoToOne else oneToTwo
    }

    function With(d: bool, p: Option<Policy>): ClientChannel {
      if d then this.(twoToOne := p) else this.(oneToTwo := p)
    }
  }

  type ClientGraph = map<U64, ClientChannel>

  function PolicyOf(u: ChannelUpdate): Policy {
    Policy(DisabledBy(u.channelFlags), u.values)
  }

  /** A full update replaces the policy; an incremental one edits it, and is ignored where there is none. */
  function Effect(u: WireUpdate, held: Option<Policy>): Option<Policy> {
    match u
    case WireFull(_, flags, values) => Some(Policy(DisabledBy(flags), values))
    case WireIncremental(_, flags, carried, values) =>
      if held.None? then None else Some(Policy(DisabledBy(flags), Merge(held.value.values, carried, values)))
  }

  function ApplyAnnouncement(g: ClientGraph, a: ChannelAnnouncement): ClientGraph {
    if a.scid in g then g else g[a.scid := ClientChannel(None, None)]
  }

  function ApplyAnnouncements(g: ClientGraph, anns: seq<ChannelAnnouncement>): ClientGraph
    decreases anns
  {
    if anns == [] then g else ApplyAnnouncements(ApplyAnnouncement(g, anns[0]), anns[1..])
  }

  /** Updates of unknown channels are ignored. */
  function ApplyUpdate(g: ClientGraph, u: WireUpdate): ClientGraph {
    if u.scid !in g then g
    else
      var d := DirectionOf(u.flags);
      g[u.scid := g[u.scid].With(d, Effect(u, g[u.scid].Direction(d)))]
  }

  function ApplyUpdates(g: ClientGraph, us: seq<WireUpdate>): ClientGraph
    decreases us
  {
    if us == [] then g else ApplyUpdates(ApplyUpdate(g, us[0]), us[1..])
  }

  /** Announcements first, then updates, as they come in the blob. */
  function ApplyBlob(g: ClientGraph, b: SnapshotBlob): ClientGraph {
    ApplyUpdates(ApplyAnnouncements(g, b.announcements), b.updates)
  }

  // ---------------------------------------------------------------------------------------------
  // One direction at a time
  // ---------------------------------------------------------------------------------------------

  predicate Concerns(u: WireUpdate, k: U64, d: bool) {
    u.scid == k && DirectionOf(u.flags) == d
  }

  /** What a sequence of updates does to one direction. */
  function Effects(us: seq<WireUpdate>, k: U64, d: bool, held: Option<Policy>): Option<Policy>
    decreases us
  {
    if us == [] then held
    else Effects(us[1..], k, d, if Concerns(us[0], k, d) then Effect(us[0], held) else held)
  }

  lemma {:induction false} ApplyUpdatesByDirection(g: ClientGraph, us: seq<WireUpdate>, k: U64, d: bool)
    requires k in g
    ensures k in ApplyUpdates(g, us)
    ensures ApplyUpdates(g, us)[k].Direction(d) == Effects(us, k, d, g[k].Direction(d))
    decreases us
  {
    hide Effect;
    if us != [] {
      ApplyUpdatesByDirection(ApplyUpdate(g, us[0]), us[1..], k, d);
    }
  }

  lemma {:induction false} ApplyUpdatesKeepsKeys(g: ClientGraph, us: seq<WireUpdate>)
    ensures ApplyUpdates(g, us).Keys == g.Keys
    decreases us
  {
    hide Effect;
    if us != [] {
      ApplyUpdatesKeepsKeys(ApplyUpdate(g, us[0]), us[1..]);
      assert ApplyUpdate(g, us[0]).Keys == g.Keys;
    }
  }

  predicate Announces(anns: seq<ChannelAnnouncement>, k: U64) {
    exists i :: 0 <= i < |anns| && anns[i].scid == k
  }

  lemma AnnouncesJoin(a: seq<ChannelAnnouncement>, b: seq<ChannelAnnouncement>, k: U64)
    ensures Announces(a + b, k) <==> Announces(a, k) || Announces(b, k)
  {
    if i :| 0 <= i < |a| && a[i].scid == k {
      assert (a + b)[i].scid == k;
    }
    if i :| 0 <= i < |b| && b[i].scid == k {
      assert (a + b)[|a| + i].scid == k;
    }
  }

  /** Announcements add channels without policies and leave known channels alone. */
  lemma {:induction false} ApplyAnnouncementsMeaning(g: ClientGraph, anns: seq<ChannelAnnouncement>, k: U64)
    ensures k in ApplyAnnouncements(g, anns) <==> k in g || Announces(anns, k)
    ensures k in g ==> ApplyAnnouncements(g, anns)[k] == g[k]
    ensures k !in g && Announces(anns, k) ==> ApplyAnnouncements(g, anns)[k] == ClientChannel(None, None)
    decreases anns
  {
    if anns != [] {
      ApplyAnnouncementsMeaning(ApplyAnnouncement(g, anns[0]), anns[1..], k);
      assert anns == [anns[0]] + anns[1..];
      AnnouncesJoin([anns[0]], anns[1..], k);
      assert Announces([anns[0]], k) <==> anns[0].scid == k by {
        assert [anns[0]][0] == anns[0];
      }
    }
  }

  lemma {:induction false} EffectsAppend(a: seq<WireUpdate>, b: seq<WireUpdate>, k: U64, d: bool, held: Option<Policy>)
    ensures Effects(a + b, k, d, held) == Effects(b, k, d, Effects(a, k, d, held))
    decreases a
  {
    hide Effect;
    if a == [] {
      assert a + b == b;
    } else {
      assert (a + b)[0] == a[0] && (a + b)[1..] == a[1..] + b;
      EffectsAppend(a[1..], b, k, d, if Concerns(a[0], k, d) then Effect(a[0], held) else held);
    }
  }

  // ---------------------------------------------------------------------------------------------
  // Convergence of one direction
  // ---------------------------------------------------------------------------------------------

  /** What the choice for one direction does to a policy. */
  function EffectOfChoice(e: Option<UpdateSerialization>, held: Option<Policy>): Option<Policy> {
    if e.None? then held else Effect(Meaning(e.value), held)
  }

  /** Values outside a mask that covers both changes already agree, so the edit gives the new values. */
  lemma MergeConverges(base: RoutingValues, past: RoutingValues, news: RoutingValues, m: FieldMask)
    requires m.Covers(Difference(past, base)) && m.Covers(Difference(news, base))
    ensures Merge(past, m, Merge(ZERO_VALUES, m, news)) == news
    ensures m == EMPTY_MASK ==> past == news
  {
  }

  /** A row since the sync differs from the reference only in marked properties. */
  lemma MarksCover(db: Tables, sync: U32, k: U64, d: bool, reference: UpdateDelta, m: MutatedProperties, x: UpdateRow)
    requires DescribesMutations(db, sync, k, d, Some(reference), m)
    requires Row(db, x, k, d) && x.seen >= sync
    ensures m.fields.Covers(Difference(x.update.values, reference.update.values))
    ensures x.update.channelFlags != reference.update.channelFlags ==> m.flags
  {
    var b := MutationsBetween(reference.update, x.update);
    forall p | Marked(b, p)
      ensures Marked(m, p)
    {
      MutationsBetweenMeaning(reference.update, x.update, p);
      assert Mutation(db, sync, k, d, reference.update, p, x);
    }
    assert Marked(b, CltvExpiryDelta) ==> Marked(m, CltvExpiryDelta);
    assert Marked(b, HtlcMinimum) ==> Marked(m, HtlcMinimum);
    assert Marked(b, FeeBase) ==> Marked(m, FeeBase);
    assert Marked(b, FeeProportional) ==> Marked(m, FeeProportional);
    assert Marked(b, HtlcMaximum) ==> Marked(m, HtlcMaximum);
    assert Marked(b, Flags) ==> Marked(m, Flags);
  }

  /** The client's policy comes from the reference or from a row since the sync. */
  ghost predicate HeldSince(db: Tables, sync: U32, k: U64, d: bool, u: DirectedUpdateDelta, held: Option<Policy>) {
    u.lastUpdateBeforeSeen.Some? ==>
      || held == Some(PolicyOf(u.lastUpdateBeforeSeen.value.update))
      || exists x :: Row(db, x, k, d) && x.seen >= sync && held == Some(PolicyOf(x.update))
  }

  lemma IncrementalConverges(
    db: Tables, sync: U32, k: U64, d: bool, reference: UpdateDelta, m: MutatedProperties, latest: UpdateRow,
    held: Policy)
    requires DescribesMutations(db, sync, k, d, Some(reference), m)
    requires Row(db, latest, k, d) && latest.seen >= sync
    requires held == PolicyOf(reference.update)
          || exists x :: Row(db, x, k, d) && x.seen >= sync && held == PolicyOf(x.update)
    ensures Merge(held.values, m.fields, Merge(ZERO_VALUES, m.fields, latest.update.values)) == latest.update.values
    ensures m == UNMUTATED ==> held == PolicyOf(latest.update)
  {
    hide DescribesMutations, Merge, Difference;
    var base := reference.update.values;
    MarksCover(db, sync, k, d, reference, m, latest);
    if held == PolicyOf(reference.update) {
      SelfCovered(m.fields, base);
      MergeConverges(base, base, latest.update.values, m.fields);
    } else {
      var x :| Row(db, x, k, d) && x.seen >= sync && held == PolicyOf(x.update);
      MarksCover(db, sync, k, d, reference, m, x);
      MergeConverges(base, x.update.values, latest.update.values, m.fields);
    }
  }

  lemma SelfCovered(m: FieldMask, v: RoutingValues)
    ensures m.Covers(Difference(v, v))
  {
  }

  /** The graph has the direction enabled exactly when the row does. */
  ghost predicate GraphAgrees(graph: Graph, k: U64, d: bool, r: UpdateRow) {
    k in ChannelIds(graph) ==> EnabledIn(graph, k, d) == !DisabledBy(r.update.channelFlags)
  }

  /**
   * A direction with rows since the sync: whatever is chosen, full, incremental, reminder or nothing, a
   * client holding the reference or any row since the sync ends at the row with the highest timestamp.
   */
  lemma DirectionConverges(
    db: Tables, graph: Graph, sync: U32, now: U32, reminders: seq<UpdateRow>, k: U64, c: ChannelDelta, d: bool,
    threshold: int, held: Option<Policy>, latest: UpdateRow)
    requires Valid(db) && DescribesChannel(db, graph, sync, now, reminders, k, c) && c.announcement.Some?
    requires IsLatest(db, sync, k, d, latest) && GraphAgrees(graph, k, d, latest)
    requires HeldSince(db, sync, k, d, c.Directed(d), held)
    ensures EffectOfChoice(Categorize(k, c, d, sync, threshold), held) == Some(PolicyOf(latest.update))
  {
    var u := c.Directed(d);
    assert DescribesDirection(db, sync, k, d, u);
    assert u.latestUpdateAfterSeen == Some(UpdateDelta(latest.seen, latest.update)) by {
      LatestIsUnique(db, sync, k, d, u.latestUpdateAfterSeen, latest);
    }
    if u.lastUpdateBeforeSeen.Some? {
      var reference := u.lastUpdateBeforeSeen.value;
      hide DescribesChannel, DescribesLatest, DescribesReference, DescribesMutations, Merge, IsLatest;
      assert held.Some?;
      IncrementalConverges(db, sync, k, d, reference, u.mutatedProperties, latest, held.value);
      var e := Categorize(k, c, d, sync, threshold);
      if e.Some? && e.value.Reminder? {
        assert u.mutatedProperties == UNMUTATED;
        NothingCarried(held.value.values);
        assert u.serializationUpdateFlags == ReminderFlags(graph, sync, now, reminders, k, d) by {
          FlagsOfChannel(db, graph, sync, now, reminders, k, c, d);
        }
      } else if e.None? {
        assert u.mutatedProperties == UNMUTATED;
      }
    }
  }

  lemma NothingCarried(v: RoutingValues)
    ensures Merge(v, EMPTY_MASK, ZERO_VALUES) == v
  {
  }

  lemma FlagsOfChannel(
    db: Tables, graph: Graph, sync: U32, now: U32, reminders: seq<UpdateRow>, k: U64, c: ChannelDelta, d: bool)
    requires DescribesChannel(db, graph, sync, now, reminders, k, c)
    ensures c.Directed(d).serializationUpdateFlags == ReminderFlags(graph, sync, now, reminders, k, d)
    ensures DescribesDirection(db, sync, k, d, c.Directed(d))
  {
  }

  lemma LatestIsUnique(db: Tables, sync: U32, k: U64, d: bool, o: Option<UpdateDelta>, latest: UpdateRow)
    requires Valid(db) && DescribesLatest(db, sync, k, d, o) && IsLatest(db, sync, k, d, latest)
    ensures o == Some(UpdateDelta(latest.seen, latest.update))
  {
    var r :| IsLatest(db, sync, k, d, r) && o.value == UpdateDelta(r.seen, r.update);
    assert r.timestamp == latest.timestamp;
  }

  /** A direction without rows since the sync keeps the policy of its newest row. */
  lemma QuietDirectionKeeps(
    db: Tables, graph: Graph, sync: U32, now: U32, reminders: seq<UpdateRow>, k: U64, c: ChannelDelta, d: bool,
    threshold: int, held: Option<Policy>, newest: UpdateRow)
    requires Valid(db) && DescribesChannel(db, graph, sync, now, reminders, k, c) && c.announcement.Some?
    requires !HasSince(db, sync, k, d) && Row(db, newest, k, d) && GraphAgrees(graph, k, d, newest)
    requires forall x :: Row(db, x, k, d) && x != newest ==> x.seen < newest.seen
    requires held == Some(PolicyOf(newest.update)) || NewlyIncluded(c, sync)
    ensures EffectOfChoice(Categorize(k, c, d, sync, threshold), held) == Some(PolicyOf(newest.update))
  {
    var u := c.Directed(d);
    FlagsOfChannel(db, graph, sync, now, reminders, k, c, d);
    assert u.latestUpdateAfterSeen.None?;
    assert u.lastUpdateBeforeSeen.Some? ==> u.lastUpdateBeforeSeen.value.update == newest.update;
    if NewlyIncluded(c, sync) {
      NewlyIncludedHasSince(db, graph, sync, now, reminders, k, c);
      assert HasBefore(db, sync, k, d);
    } else {
      NothingCarried(held.value.values);
    }
  }

  lemma NewlyIncludedHasSince(
    db: Tables, graph: Graph, sync: U32, now: U32, reminders: seq<UpdateRow>, k: U64, c: ChannelDelta)
    requires DescribesHeader(db, graph, sync, now, reminders, k, c) && NewlyIncluded(c, sync)
    ensures ChannelHasSince(db, sync, k)
  {
    var d :| HasRow(db, k, d) && !HasBefore(db, sync, k, d);
    var r :| Row(db, r, k, d);
    assert r.seen >= sync;
  }
}
