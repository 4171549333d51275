/** The delta set of channels, and the row loops that fill and filter it. */
module Lookup {
  import opened Wrappers
  import opened GossipTypes
  import opened UpdateCodec
  import opened Database

  const CHANNEL_REMINDER_AGE: nat := 6 * 24 * 60 * 60
  const PRUNE_INTERVAL: nat := 14 * 24 * 60 * 60

  datatype UpdateDelta = UpdateDelta(seen: U32, update: ChannelUpdate)

  datatype DirectedUpdateDelta = DirectedUpdateDelta(
    lastUpdateBeforeSeen: Option<UpdateDelta>,
    latestUpdateAfterSeen: Option<UpdateDelta>,
    mutatedProperties: MutatedProperties,
    serializationUpdateFlags: Option<U8>)

  const NO_UPDATES := DirectedUpdateDelta(None, None, UNMUTATED, None)

  datatype ChannelDelta = ChannelDelta(
    announcement: Option<SeenAnnouncement>,
    oneToTwo: Option<DirectedUpdateDelta>,
    twoToOne: Option<DirectedUpdateDelta>,
    firstBidirectionalUpdatesSeen: Option<U32>,
    requiresReminder: bool)
  {
    /** A direction's delta; a direction never touched reads as the default. */
    function Directed(d: bool): DirectedUpdateDelta {
      (if d then twoToOne else oneToTwo).GetOr(NO_UPDATES)
    }

    function WithDirected(d: bool, u: DirectedUpdateDelta): ChannelDelta {
      if d then this.(twoToOne := Some(u)) else this.(oneToTwo := Some(u))
    }

    /** Everything but the two directions. */
    function Header(): (Option<SeenAnnouncement>, Option<U32>, bool) {
      (announcement, firstBidirectionalUpdatesSeen, requiresReminder)
    }
  }

  const NO_CHANNEL := ChannelDelta(None, None, None, None, false)

  type DeltaSet = map<U64, ChannelDelta>

  /** A channel's delta; a channel never touched reads as the default. */
  function Entry(delta: DeltaSet, k: U64): ChannelDelta {
    if k in delta then delta[k] else NO_CHANNEL
  }

  function Directed(delta: DeltaSet, k: U64, d: bool): DirectedUpdateDelta {
    Entry(delta, k).Directed(d)
  }

  function Header(delta: DeltaSet, k: U64): (Option<SeenAnnouncement>, Option<U32>, bool) {
    Entry(delta, k).Header()
  }

  // ---------------------------------------------------------------------------------------------
  // Update rows
  // ---------------------------------------------------------------------------------------------

  /** The first row of a direction. */
  function FirstOf(rows: seq<UpdateRow>, k: U64, d: bool): Option<UpdateRow> {
    if rows == [] then None
    else
      var last := |rows| - 1;
      var f := FirstOf(rows[..last], k, d);
      if f.Some? then f else if Of(rows[last], k, d) then Some(rows[last]) else None
  }

  lemma {:induction false} FirstOfSpec(rows: seq<UpdateRow>, k: U64, d: bool)
    ensures match FirstOf(rows, k, d)
            case None => forall i :: 0 <= i < |rows| ==> !Of(rows[i], k, d)
            case Some(f) =>
              exists i :: 0 <= i < |rows| && rows[i] == f && Of(f, k, d)
                && forall j :: 0 <= j < i ==> !Of(rows[j], k, d)
  {
    if rows != [] {
      var last := |rows| - 1;
      FirstOfSpec(rows[..last], k, d);
      if FirstOf(rows[..last], k, d).Some? {
        var i :| 0 <= i < last && rows[..last][i] == FirstOf(rows[..last], k, d).value
                 && forall j :: 0 <= j < i ==> !Of(rows[..last][j], k, d);
        assert forall j :: 0 <= j < i ==> rows[..last][j] == rows[j];
      } else {
        assert forall i :: 0 <= i < last ==> rows[..last][i] == rows[i];
      }
    }
  }

  function MutationsBetween(reference: ChannelUpdate, update: ChannelUpdate): MutatedProperties {
    MutatedProperties(
      update.channelFlags != reference.channelFlags,
      Difference(update.values, reference.values))
  }

  function Join(a: MutatedProperties, b: MutatedProperties): MutatedProperties {
    MutatedProperties(a.flags || b.flags, a.fields.Or(b.fields))
  }

  /** Every property in which some row of the direction differs from the reference. */
  function MutationsIn(reference: ChannelUpdate, rows: seq<UpdateRow>, k: U64, d: bool): MutatedProperties {
    if rows == [] then UNMUTATED
    else
      var last := |rows| - 1;
      var m := MutationsIn(reference, rows[..last], k, d);
      if Of(rows[last], k, d) then Join(m, MutationsBetween(reference, rows[last].update)) else m
  }

  /** What the reference rows make of a direction. */
  function Referenced(u: DirectedUpdateDelta, rows: seq<UpdateRow>, k: U64, d: bool): DirectedUpdateDelta {
    match FirstOf(rows, k, d)
    case None => u
    case Some(f) => u.(lastUpdateBeforeSeen := Some(UpdateDelta(f.seen, f.update)))
  }

  /** What the rows since the sync, in query order, make of a direction. */
  function Advanced(u: DirectedUpdateDelta, rows: seq<UpdateRow>, k: U64, d: bool): DirectedUpdateDelta {
    match FirstOf(rows, k, d)
    case None => u
    case Some(f) => u.(
      latestUpdateAfterSeen := Some(UpdateDelta(f.seen, f.update)),
      mutatedProperties :=
        if u.lastUpdateBeforeSeen.Some?
        then Join(u.mutatedProperties, MutationsIn(u.lastUpdateBeforeSeen.value.update, rows, k, d))
        else u.mutatedProperties)
  }

  lemma {:induction false} NoRowNoMutation(reference: ChannelUpdate, rows: seq<UpdateRow>, k: U64, d: bool)
    requires FirstOf(rows, k, d).None?
    ensures MutationsIn(reference, rows, k, d) == UNMUTATED
  {
    if rows != [] {
      NoRowNoMutation(reference, rows[..|rows| - 1], k, d);
    }
  }

  /** One row of a direction; `first` says that none of the direction came before it. */
  function Step(u: DirectedUpdateDelta, row: UpdateRow, first: bool): DirectedUpdateDelta {
    u.(
      latestUpdateAfterSeen := if first then Some(UpdateDelta(row.seen, row.update)) else u.latestUpdateAfterSeen,
      mutatedProperties :=
        if u.lastUpdateBeforeSeen.Some?
        then Join(u.mutatedProperties, MutationsBetween(u.lastUpdateBeforeSeen.value.update, row.update))
        else u.mutatedProperties)
  }

  /** One more row changes its own direction and no other. */
  lemma AdvancedStep(u: DirectedUpdateDelta, rows: seq<UpdateRow>, i: nat, k: U64, d: bool)
    requires i < |rows|
    ensures Advanced(u, rows[..i + 1], k, d)
         == if Of(rows[i], k, d)
            then Step(Advanced(u, rows[..i], k, d), rows[i], FirstOf(rows[..i], k, d).None?)
            else Advanced(u, rows[..i], k, d)
  {
    assert rows[..i + 1][..i] == rows[..i];
    if FirstOf(rows[..i], k, d).None? && u.lastUpdateBeforeSeen.Some? {
      NoRowNoMutation(u.lastUpdateBeforeSeen.value.update, rows[..i], k, d);
    }
  }

  lemma FirstOfStep(rows: seq<UpdateRow>, i: nat, k: U64, d: bool)
    requires i < |rows|
    ensures FirstOf(rows[..i + 1], k, d).Some? <==> FirstOf(rows[..i], k, d).Some? || Of(rows[i], k, d)
  {
    assert rows[..i + 1][..i] == rows[..i];
  }

  /** In sorted rows, a channel other than the previous row's has not been met before. */
  lemma NewChannel(rows: seq<UpdateRow>, i: nat, d: bool)
    requires Sorted(rows) && i < |rows| && (i > 0 ==> rows[i - 1].scid != rows[i].scid)
    ensures FirstOf(rows[..i], rows[i].scid, d).None?
  {
    FirstOfSpec(rows[..i], rows[i].scid, d);
    if i > 0 {
      assert forall j :: 0 <= j < i ==> AsI64(rows[j].scid) <= AsI64(rows[i - 1].scid) < AsI64(rows[i].scid);
    }
  }

  lemma NothingAdvanced(u: DirectedUpdateDelta, k: U64, d: bool)
    ensures FirstOf([], k, d).None? && Advanced(u, [], k, d) == u
  {
  }

  /** The body of the intermediate loop: get or insert the channel and the direction, then update it in place. */
  method AdvanceRow(delta: DeltaSet, row: UpdateRow, first: bool) returns (delta': DeltaSet)
    requires ValidRow(row)
    ensures forall k: U64 :: Header(delta', k) == Header(delta, k)
    ensures forall k: U64, d: bool ::
      Directed(delta', k, d) == if Of(row, k, d) then Step(Directed(delta, k, d), row, first) else Directed(delta, k, d)
  {
    var channel := Entry(delta, row.update.scid);
    var directed := channel.Directed(row.direction);
    if first {
      directed := directed.(latestUpdateAfterSeen := Some(UpdateDelta(row.seen, row.update)));
    }
    if directed.lastUpdateBeforeSeen.Some? {
      var reference := directed.lastUpdateBeforeSeen.value.update;
      directed := directed.(mutatedProperties :=
        Join(directed.mutatedProperties, MutationsBetween(reference, row.update)));
    }
    delta' := delta[row.update.scid := channel.WithDirected(row.direction, directed)];
  }

  /** Loop over the reference rows. */
  method CollectReferences(delta0: DeltaSet, rows: seq<UpdateRow>) returns (delta: DeltaSet, ids: set<int>)
    requires forall i :: 0 <= i < |rows| ==> ValidRow(rows[i])
    requires forall i, j :: 0 <= i < j < |rows| ==> !Of(rows[i], rows[j].scid, rows[j].direction)
    ensures ids == set i | 0 <= i < |rows| :: rows[i].id
    ensures forall k: U64 :: Header(delta, k) == Header(delta0, k)
    ensures forall k: U64, d: bool :: Directed(delta, k, d) == Referenced(Directed(delta0, k, d), rows, k, d)
  {
    delta, ids := delta0, {};
    var n := 0;
    while n < |rows|
      invariant n <= |rows|
      invariant ids == set i | 0 <= i < n :: rows[i].id
      invariant forall k: U64 :: Header(delta, k) == Header(delta0, k)
      invariant forall k: U64, d: bool :: Directed(delta, k, d) == Referenced(Directed(delta0, k, d), rows[..n], k, d)
    {
      var row := rows[n];
      FirstOfSpec(rows[..n], row.scid, row.direction);
      assert rows[..n + 1][..n] == rows[..n];
      ids := ids + {row.id};
      var channel := Entry(delta, row.update.scid);
      var directed := channel.Directed(row.direction);
      directed := directed.(lastUpdateBeforeSeen := Some(UpdateDelta(row.seen, row.update)));
      delta := delta[row.update.scid := channel.WithDirected(row.direction, directed)];
      n := n + 1;
    }
    assert rows[..n] == rows;
  }

  /**
   * Loop over the rows since the sync. `previousScid` and the two direction flags decide which row is
   * the newest of its direction; the reference rows' ids are skipped.
   */
  method CollectIntermediates(delta0: DeltaSet, rows: seq<UpdateRow>, skipped: set<int>) returns (delta: DeltaSet)
    requires forall i :: 0 <= i < |rows| ==> ValidRow(rows[i]) && rows[i].id !in skipped
    requires Sorted(rows)
    ensures forall k: U64 :: Header(delta, k) == Header(delta0, k)
    ensures forall k: U64, d: bool :: Directed(delta, k, d) == Advanced(Directed(delta0, k, d), rows, k, d)
  {
    hide Step, FirstOf, Advanced, Sorted;
    forall k: U64, d: bool {
      NothingAdvanced(Directed(delta0, k, d), k, d);
    }
    delta := delta0;
    var previousScid: U64 := U64_MAX;
    var seenForward, seenBackward := false, false;
    var n := 0;
    while n < |rows|
      invariant n <= |rows|
      invariant n > 0 ==> previousScid == rows[n - 1].scid
      invariant seenForward <==> FirstOf(rows[..n], previousScid, false).Some?
      invariant seenBackward <==> FirstOf(rows[..n], previousScid, true).Some?
      invariant forall k: U64 :: Header(delta, k) == Header(delta0, k)
      invariant forall k: U64, d: bool :: Directed(delta, k, d) == Advanced(Directed(delta0, k, d), rows[..n], k, d)
    {
      var row := rows[n];
      if row.id !in skipped {
        var scid := row.update.scid;
        if scid != previousScid {
          NewChannel(rows, n, false);
          NewChannel(rows, n, true);
          previousScid := scid;
          seenForward, seenBackward := false, false;
        }
        var first := false;
        if !row.direction && !seenForward {
          seenForward, first := true, true;
        } else if row.direction && !seenBackward {
          seenBackward, first := true, true;
        }
        delta := AdvanceRow(delta, row, first);
      }
      forall k: U64, d: bool {
        AdvancedStep(Directed(delta0, k, d), rows, n, k, d);
      }
      FirstOfStep(rows, n, row.scid, false);
      FirstOfStep(rows, n, row.scid, true);
      n := n + 1;
    }
    assert rows[..n] == rows;
  }

  // ---------------------------------------------------------------------------------------------
  // What the row loops compute, stated over the tables
  // ---------------------------------------------------------------------------------------------

  datatype Property = Flags | CltvExpiryDelta | HtlcMinimum | FeeBase | FeeProportional | HtlcMaximum

  predicate Marked(m: MutatedProperties, p: Property) {
    match p
    case Flags => m.flags
    case CltvExpiryDelta => m.fields.cltvExpiryDelta
    case HtlcMinimum => m.fields.htlcMinimumMsat
    case FeeBase => m.fields.feeBaseMsat
    case FeeProportional => m.fields.feeProportionalMillionths
    case HtlcMaximum => m.fields.htlcMaximumMsat
  }

  /** The two updates disagree on the property. */
  predicate Differs(a: ChannelUpdate, b: ChannelUpdate, p: Property) {
    match p
    case Flags => a.channelFlags != b.channelFlags
    case CltvExpiryDelta => a.values.cltvExpiryDelta != b.values.cltvExpiryDelta
    case HtlcMinimum => a.values.htlcMinimumMsat != b.values.htlcMinimumMsat
    case FeeBase => a.values.feeBaseMsat != b.values.feeBaseMsat
    case FeeProportional => a.values.feeProportionalMillionths != b.values.feeProportionalMillionths
    case HtlcMaximum => a.values.htlcMaximumMsat != b.values.htlcMaximumMsat
  }

  lemma MutationsBetweenMeaning(reference: ChannelUpdate, update: ChannelUpdate, p: Property)
    ensures Marked(MutationsBetween(reference, update), p) <==> Differs(reference, update, p)
  {
  }

  /** `r` is a row since the sync that differs from `reference` in `p`. */
  ghost predicate Mutation(
    db: Tables, sync: U32, k: U64, d: bool, reference: ChannelUpdate, p: Property, r: UpdateRow)
  {
    Row(db, r, k, d) && r.seen >= sync && Differs(reference, r.update, p)
  }

  ghost predicate DescribesReference(db: Tables, sync: U32, k: U64, d: bool, o: Option<UpdateDelta>) {
    && (o.Some? <==> HasBefore(db, sync, k, d) && ChannelHasSince(db, sync, k))
    && (o.Some? ==> exists r :: IsReference(db, sync, k, d, r) && o.value == UpdateDelta(r.seen, r.update))
  }

  ghost predicate DescribesLatest(db: Tables, sync: U32, k: U64, d: bool, o: Option<UpdateDelta>) {
    && (o.Some? <==> HasSince(db, sync, k, d))
    && (o.Some? ==> exists r :: IsLatest(db, sync, k, d, r) && o.value == UpdateDelta(r.seen, r.update))
  }

  ghost predicate DescribesMutations(
    db: Tables, sync: U32, k: U64, d: bool, reference: Option<UpdateDelta>, m: MutatedProperties)
  {
    match reference
    case None => m == UNMUTATED
    case Some(u) => forall p :: Marked(m, p) <==> exists r :: Mutation(db, sync, k, d, u.update, p, r)
  }

  /** The declarative meaning of a direction's delta, whatever the order the rows came in. */
  ghost predicate DescribesDirection(db: Tables, sync: U32, k: U64, d: bool, u: DirectedUpdateDelta) {
    && DescribesReference(db, sync, k, d, u.lastUpdateBeforeSeen)
    && DescribesLatest(db, sync, k, d, u.latestUpdateAfterSeen)
    && DescribesMutations(db, sync, k, d, u.lastUpdateBeforeSeen, u.mutatedProperties)
  }

  lemma {:induction false} MutationsInSpec(reference: ChannelUpdate, rows: seq<UpdateRow>, k: U64, d: bool, p: Property)
    ensures Marked(MutationsIn(reference, rows, k, d), p)
       <==> exists i :: 0 <= i < |rows| && Of(rows[i], k, d) && Marked(MutationsBetween(reference, rows[i].update), p)
  {
    if rows != [] {
      var last := |rows| - 1;
      MutationsInSpec(reference, rows[..last], k, d, p);
      assert forall i :: 0 <= i < last ==> rows[..last][i] == rows[i];
      JoinMarks(MutationsIn(reference, rows[..last], k, d), MutationsBetween(reference, rows[last].update), p);
    }
  }

  lemma JoinMarks(a: MutatedProperties, b: MutatedProperties, p: Property)
    ensures Marked(Join(a, b), p) <==> Marked(a, p) || Marked(b, p)
  {
  }

  lemma ReferencedDescribes(db: Tables, sync: U32, rows: seq<UpdateRow>, u: DirectedUpdateDelta, k: U64, d: bool)
    requires ReferenceQuery(db, sync, rows) && u.lastUpdateBeforeSeen.None?
    ensures DescribesReference(db, sync, k, d, Referenced(u, rows, k, d).lastUpdateBeforeSeen)
  {
    FirstOfSpec(rows, k, d);
    match FirstOf(rows, k, d)
    case Some(f) =>
      assert IsReference(db, sync, k, d, f);
    case None =>
      assert forall r :: r in rows ==> !Of(r, k, d);
  }

  /** In sorted rows of one direction, nothing comes after the first with a higher timestamp. */
  lemma NoneHigher(rows: seq<UpdateRow>, i: nat, j: nat)
    requires Sorted(rows) && i <= j < |rows| && Of(rows[j], rows[i].scid, rows[i].direction)
    ensures rows[j].timestamp <= rows[i].timestamp
  {
  }

  /** Of the rows of a direction, sorted by descending timestamp, the first is the latest. */
  lemma FirstIsLatest(db: Tables, sync: U32, rows: seq<UpdateRow>, k: U64, d: bool)
    requires IntermediateQuery(db, sync, rows)
    ensures FirstOf(rows, k, d).None? ==> !HasSince(db, sync, k, d)
    ensures FirstOf(rows, k, d).Some? ==> IsLatest(db, sync, k, d, FirstOf(rows, k, d).value)
  {
    hide FirstOf, Sorted;
    FirstOfSpec(rows, k, d);
    match FirstOf(rows, k, d)
    case None =>
    case Some(f) =>
      var i :| 0 <= i < |rows| && rows[i] == f && forall j :: 0 <= j < i ==> !Of(rows[j], k, d);
      forall x | Row(db, x, k, d) && x.seen >= sync
        ensures x.timestamp <= f.timestamp
      {
        assert x in rows;
        var j :| 0 <= j < |rows| && rows[j] == x;
        NoneHigher(rows, i, j);
      }
  }

  lemma MutationsDescribe(db: Tables, sync: U32, rows: seq<UpdateRow>, reference: UpdateDelta, k: U64, d: bool)
    requires IntermediateQuery(db, sync, rows)
    ensures DescribesMutations(db, sync, k, d, Some(reference), MutationsIn(reference.update, rows, k, d))
  {
    forall p
      ensures Marked(MutationsIn(reference.update, rows, k, d), p)
         <==> exists r :: Mutation(db, sync, k, d, reference.update, p, r)
    {
      MutationsInSpec(reference.update, rows, k, d, p);
      forall r {
        MutationsBetweenMeaning(reference.update, r, p);
      }
      if r :| Mutation(db, sync, k, d, reference.update, p, r) {
        assert r in rows;
      }
      if i :| 0 <= i < |rows| && Of(rows[i], k, d) && Marked(MutationsBetween(reference.update, rows[i].update), p) {
        assert Mutation(db, sync, k, d, reference.update, p, rows[i]);
      }
    }
  }

  lemma UnmutatedJoin(m: MutatedProperties)
    ensures Join(UNMUTATED, m) == m
  {
  }

  lemma AdvancedDescribes(db: Tables, sync: U32, rows: seq<UpdateRow>, u: DirectedUpdateDelta, k: U64, d: bool)
    requires IntermediateQuery(db, sync, rows) && u.latestUpdateAfterSeen.None? && u.mutatedProperties == UNMUTATED
    requires DescribesReference(db, sync, k, d, u.lastUpdateBeforeSeen)
    ensures DescribesDirection(db, sync, k, d, Advanced(u, rows, k, d))
  {
    hide DescribesReference, DescribesMutations;
    FirstIsLatest(db, sync, rows, k, d);
    assert DescribesMutations(db, sync, k, d, u.lastUpdateBeforeSeen, Advanced(u, rows, k, d).mutatedProperties) by {
      match u.lastUpdateBeforeSeen
      case None => NoReferenceNoMutations(db, sync, k, d);
      case Some(r) =>
        MutationsDescribe(db, sync, rows, r, k, d);
        UnmutatedJoin(MutationsIn(r.update, rows, k, d));
        if FirstOf(rows, k, d).None? {
          NoRowNoMutation(r.update, rows, k, d);
        }
    }
  }

  lemma NoReferenceNoMutations(db: Tables, sync: U32, k: U64, d: bool)
    ensures DescribesMutations(db, sync, k, d, None, UNMUTATED)
  {
  }

  /** The reference and intermediate loops together compute exactly what the tables say. */
  method FetchChannelUpdates(
    delta0: DeltaSet, ghost db: Tables, ghost sync: U32, references: seq<UpdateRow>, intermediates: seq<UpdateRow>)
    returns (delta: DeltaSet)
    requires Valid(db) && ReferenceQuery(db, sync, references) && IntermediateQuery(db, sync, intermediates)
    requires forall k: U64, d: bool :: Directed(delta0, k, d).(serializationUpdateFlags := None) == NO_UPDATES
    ensures forall k: U64 :: Header(delta, k) == Header(delta0, k)
    ensures forall k: U64, d: bool :: DescribesDirection(db, sync, k, d, Directed(delta, k, d))
    ensures forall k: U64, d: bool ::
      Directed(delta, k, d).serializationUpdateFlags == Directed(delta0, k, d).serializationUpdateFlags
  {
    hide DescribesDirection, DescribesReference, IsReference;
    assert forall i :: 0 <= i < |references| ==> references[i] in db.updates && references[i].seen < sync by {
      ReferencesAreOld(db, sync, references);
    }
    var referenced, ids := CollectReferences(delta0, references);
    delta := CollectIntermediates(referenced, intermediates, ids);
    forall k: U64, d: bool
      ensures DescribesDirection(db, sync, k, d, Directed(delta, k, d))
    {
      ReferencedDescribes(db, sync, references, Directed(delta0, k, d), k, d);
      AdvancedDescribes(db, sync, intermediates, Directed(referenced, k, d), k, d);
    }
  }

  lemma ReferencesAreOld(db: Tables, sync: U32, rows: seq<UpdateRow>)
    requires ReferenceQuery(db, sync, rows)
    ensures forall i :: 0 <= i < |rows| ==> rows[i] in db.updates && rows[i].seen < sync
  {
  }
}
