/** Value histograms, the most common entry of each, and why it is the cheapest default. */
module Histograms {
  import opened Wrappers
  import opened GossipTypes
  import opened ByteCodec
  import opened UpdateCodec

  /** `h` maps every value that occurs to the number of its occurrences. */
  ghost predicate Counts<T(!new)>(h: map<T, nat>, values: seq<T>) {
    && (forall v :: v in h <==> v in values)
    && (forall v :: v in h ==> h[v] == multiset(values)[v])
  }

  method Record<T(==, !new)>(h: map<T, nat>, v: T, ghost values: seq<T>) returns (h': map<T, nat>)
    requires Counts(h, values)
    ensures Counts(h', values + [v])
  {
    h' := h[v := (if v in h then h[v] else 0) + 1];
    assert v !in h ==> multiset(values)[v] == 0;
    assert multiset(values + [v]) == multiset(values) + multiset{v};
  }

  /** No value occurs more often. */
  ghost predicate IsMode<T(!new)>(values: seq<T>, m: T) {
    forall v :: multiset(values)[v] <= multiset(values)[m]
  }

  /** The maximum of the histogram, in whatever order the map is walked; `default` when it is empty. */
  method FindMostCommonHistogramEntryWithDefault<T(==, !new)>(h: map<T, nat>, default: T, ghost values: seq<T>)
    returns (m: T)
    requires Counts(h, values)
    ensures IsMode(values, m)
    ensures if values == [] then m == default else m in values
  {
    m := default;
    var best: Option<nat> := None;
    var keys := h.Keys;
    while keys != {}
      invariant keys <= h.Keys
      invariant best.None? ==> keys == h.Keys && m == default
      invariant best.Some? ==> m in h && h[m] == best.value && forall v :: v in h && v !in keys ==> h[v] <= best.value
      decreases |keys|
    {
      var v :| v in keys;
      keys := keys - {v};
      if best.None? || h[v] >= best.value {
        m, best := v, Some(h[v]);
      }
    }
    if values != [] {
      assert values[0] in h;
    }
    forall v
      ensures multiset(values)[v] <= multiset(values)[m]
    {
      assert v !in h ==> multiset(values)[v] == 0;
    }
  }

  /** Distinct entries by descending count, none rarer than what is left. */
  ghost predicate Leads<T>(h: map<T, nat>, leading: seq<T>, rest: set<T>) {
    && rest <= h.Keys
    && (forall i :: 0 <= i < |leading| ==> leading[i] in h && leading[i] !in rest)
    && (forall i, j :: 0 <= i < j < |leading| ==> leading[i] != leading[j] && h[leading[i]] >= h[leading[j]])
    && (forall i, v :: 0 <= i < |leading| && v in rest ==> h[leading[i]] >= h[v])
  }

  lemma LeadsStep<T>(h: map<T, nat>, leading: seq<T>, rest: set<T>, m: T)
    requires Leads(h, leading, rest) && m in rest && forall v :: v in rest ==> h[v] <= h[m]
    ensures Leads(h, leading + [m], rest - {m})
  {
    var more := leading + [m];
    assert forall i :: 0 <= i < |leading| ==> more[i] == leading[i] && leading[i] != m && h[leading[i]] >= h[m];
  }

  function Repeated<T(==)>(h: map<T, nat>): set<T> {
    set v | v in h && h[v] > 1
  }

  /** The leading entries, and the repeated ones that are left out. */
  ghost predicate IsLeading<T(!new)>(h: map<T, nat>, leading: seq<T>, rest: set<T>, count: nat) {
    && Leads(h, leading, rest) && (rest != {} ==> |leading| == count)
    && forall v :: v in Repeated(h) <==> v in leading || v in rest
  }

  /** Entries that occur more than once, the most common first, at most `count` of them. */
  method FindLeadingHistogramEntries<T(==, !new)>(h: map<T, nat>, count: nat) returns (leading: seq<T>)
    ensures |leading| <= count
    ensures exists rest :: IsLeading(h, leading, rest, count)
  {
    hide Leads, Repeated;
    leading := [];
    var rest := Repeated(h);
    assert Leads(h, leading, rest) by {
      NothingLeads(h);
    }
    while rest != {} && |leading| < count
      invariant |leading| <= count
      invariant Leads(h, leading, rest)
      invariant forall v :: v in Repeated(h) <==> v in leading || v in rest
      decreases |rest|
    {
      assert rest <= h.Keys by {
        RestHasEntries(h, leading, rest);
      }
      var m := Largest(h, rest);
      LeadsStep(h, leading, rest, m);
      leading := leading + [m];
      rest := rest - {m};
    }
    assert IsLeading(h, leading, rest, count);
  }

  lemma NothingLeads<T>(h: map<T, nat>)
    ensures Leads(h, [], Repeated(h))
  {
  }

  lemma RestHasEntries<T>(h: map<T, nat>, leading: seq<T>, rest: set<T>)
    requires Leads(h, leading, rest)
    ensures rest <= h.Keys
  {
  }

  method Largest<T(==, !new)>(h: map<T, nat>, among: set<T>) returns (m: T)
    requires among != {} && among <= h.Keys
    ensures m in among && forall v :: v in among ==> h[v] <= h[m]
  {
    m :| m in among;
    var left := among - {m};
    while left != {}
      invariant left <= among && m in among
      invariant forall v :: v in among && v !in left ==> h[v] <= h[m]
      decreases |left|
    {
      var v :| v in left;
      left := left - {v};
      if h[v] > h[m] { m := v; }
    }
  }

  // ---------------------------------------------------------------------------------------------
  // Bytes spent on one field
  // ---------------------------------------------------------------------------------------------

  /** The bytes written for one field of `width` bytes, given that occurrences of `default` are left out. */
  function FieldBytes<T(==)>(values: seq<T>, default: T, width: nat): nat {
    if values == [] then 0
    else (if values[0] != default then width else 0) + FieldBytes(values[1..], default, width)
  }

  lemma {:induction false} FieldBytesByCount<T>(values: seq<T>, default: T, width: nat)
    ensures FieldBytes(values, default, width) == width * (|values| - multiset(values)[default])
  {
    if values != [] {
      FieldBytesByCount(values[1..], default, width);
      assert values == [values[0]] + values[1..];
      assert multiset(values) == multiset{values[0]} + multiset(values[1..]);
      var others := |values[1..]| - multiset(values[1..])[default];
      if values[0] != default {
        assert width * (others + 1) == width * others + width;
      }
    }
  }

  lemma ModeIsCheapest<T(!new)>(values: seq<T>, m: T, other: T, width: nat)
    requires IsMode(values, m)
    ensures FieldBytes(values, m, width) <= FieldBytes(values, other, width)
  {
    FieldBytesByCount(values, m, width);
    FieldBytesByCount(values, other, width);
    var x := |values| - multiset(values)[m];
    var y := |values| - multiset(values)[other];
    assert x <= y;
    MulMonotone(width, x, y);
  }

  lemma MulMonotone(w: nat, x: int, y: int)
    requires x <= y
    ensures w * x <= w * y
  {
  }

  // ---------------------------------------------------------------------------------------------
  // Bytes spent on full updates
  // ---------------------------------------------------------------------------------------------

  /** The bytes the values of the given full updates take when compressed against `defaults`. */
  function PayloadBytes(us: seq<ChannelUpdate>, defaults: RoutingValues): nat {
    if us == [] then 0
    else |WriteMasked(Difference(us[0].values, defaults), us[0].values)| + PayloadBytes(us[1..], defaults)
  }

  lemma {:induction false} PayloadJoin(a: seq<ChannelUpdate>, b: seq<ChannelUpdate>, defaults: RoutingValues)
    ensures PayloadBytes(a + b, defaults) == PayloadBytes(a, defaults) + PayloadBytes(b, defaults)
  {
    hide WriteMasked;
    if a == [] {
      assert a + b == b;
    } else {
      assert (a + b)[0] == a[0] && (a + b)[1..] == a[1..] + b;
      PayloadJoin(a[1..], b, defaults);
    }
  }

  function CltvColumn(us: seq<ChannelUpdate>): seq<U16> {
    seq(|us|, i requires 0 <= i < |us| => us[i].values.cltvExpiryDelta)
  }

  function HtlcMinimumColumn(us: seq<ChannelUpdate>): seq<U64> {
    seq(|us|, i requires 0 <= i < |us| => us[i].values.htlcMinimumMsat)
  }

  function FeeBaseColumn(us: seq<ChannelUpdate>): seq<U32> {
    seq(|us|, i requires 0 <= i < |us| => us[i].values.feeBaseMsat)
  }

  function FeeProportionalColumn(us: seq<ChannelUpdate>): seq<U32> {
    seq(|us|, i requires 0 <= i < |us| => us[i].values.feeProportionalMillionths)
  }

  function HtlcMaximumColumn(us: seq<ChannelUpdate>): seq<U64> {
    seq(|us|, i requires 0 <= i < |us| => us[i].values.htlcMaximumMsat)
  }

  lemma MaskedLength(m: FieldMask, v: RoutingValues)
    ensures |WriteMasked(m, v)|
         == (if m.cltvExpiryDelta then 2 else 0) + (if m.htlcMinimumMsat then 8 else 0)
          + (if m.feeBaseMsat then 4 else 0)
          + (if m.feeProportionalMillionths then 4 else 0) + (if m.htlcMaximumMsat then 8 else 0)
  {
    hide WriteU16, WriteU32, WriteU64;
  }

  lemma {:induction false} PayloadByField(us: seq<ChannelUpdate>, defaults: RoutingValues)
    ensures PayloadBytes(us, defaults)
         == FieldBytes(CltvColumn(us), defaults.cltvExpiryDelta, 2)
          + FieldBytes(HtlcMinimumColumn(us), defaults.htlcMinimumMsat, 8)
          + FieldBytes(FeeBaseColumn(us), defaults.feeBaseMsat, 4)
          + FieldBytes(FeeProportionalColumn(us), defaults.feeProportionalMillionths, 4)
          + FieldBytes(HtlcMaximumColumn(us), defaults.htlcMaximumMsat, 8)
  {
    hide WriteMasked;
    if us != [] {
      PayloadByField(us[1..], defaults);
      MaskedLength(Difference(us[0].values, defaults), us[0].values);
      assert CltvColumn(us)[1..] == CltvColumn(us[1..]);
      assert HtlcMinimumColumn(us)[1..] == HtlcMinimumColumn(us[1..]);
      assert FeeBaseColumn(us)[1..] == FeeBaseColumn(us[1..]);
      assert FeeProportionalColumn(us)[1..] == FeeProportionalColumn(us[1..]);
      assert HtlcMaximumColumn(us)[1..] == HtlcMaximumColumn(us[1..]);
    }
  }

  /** Each default is a mode of its field over the counted updates. */
  ghost predicate AreModes(us: seq<ChannelUpdate>, defaults: RoutingValues) {
    && IsMode(CltvColumn(us), defaults.cltvExpiryDelta)
    && IsMode(HtlcMinimumColumn(us), defaults.htlcMinimumMsat)
    && IsMode(FeeBaseColumn(us), defaults.feeBaseMsat)
    && IsMode(FeeProportionalColumn(us), defaults.feeProportionalMillionths)
    && IsMode(HtlcMaximumColumn(us), defaults.htlcMaximumMsat)
  }

  /** No choice of the five defaults makes the counted full updates shorter. */
  lemma DefaultsAreOptimal(us: seq<ChannelUpdate>, chosen: RoutingValues, other: RoutingValues)
    requires AreModes(us, chosen)
    ensures PayloadBytes(us, chosen) <= PayloadBytes(us, other)
  {
    PayloadByField(us, chosen);
    PayloadByField(us, other);
    ModeIsCheapest(CltvColumn(us), chosen.cltvExpiryDelta, other.cltvExpiryDelta, 2);
    ModeIsCheapest(HtlcMinimumColumn(us), chosen.htlcMinimumMsat, other.htlcMinimumMsat, 8);
    ModeIsCheapest(FeeBaseColumn(us), chosen.feeBaseMsat, other.feeBaseMsat, 4);
    ModeIsCheapest(FeeProportionalColumn(us), chosen.feeProportionalMillionths, other.feeProportionalMillionths, 4);
    ModeIsCheapest(HtlcMaximumColumn(us), chosen.htlcMaximumMsat, other.htlcMaximumMsat, 8);
  }

  /** A value that is not a mode is beaten by a more common one. */
  lemma BeatenByMoreCommon<T(!new)>(values: seq<T>, m: T, width: nat) returns (v: T)
    requires width > 0 && !IsMode(values, m)
    ensures FieldBytes(values, v, width) < FieldBytes(values, m, width)
  {
    v :| multiset(values)[v] > multiset(values)[m];
    FieldBytesByCount(values, m, width);
    FieldBytesByCount(values, v, width);
    hide FieldBytes, IsMode;
    var x := |values| - multiset(values)[m];
    var y := |values| - multiset(values)[v];
    MulMonotone(width, y + 1, x);
    assert width * (y + 1) == width * y + width;
  }

  lemma BetterDefaults(us: seq<ChannelUpdate>, chosen: RoutingValues) returns (other: RoutingValues)
    requires !AreModes(us, chosen)
    ensures PayloadBytes(us, other) < PayloadBytes(us, chosen)
  {
    hide PayloadBytes, FieldBytes, IsMode;
    other := chosen;
    if !IsMode(CltvColumn(us), chosen.cltvExpiryDelta) {
      var v := BeatenByMoreCommon(CltvColumn(us), chosen.cltvExpiryDelta, 2);
      other := chosen.(cltvExpiryDelta := v);
    } else if !IsMode(HtlcMinimumColumn(us), chosen.htlcMinimumMsat) {
      var v := BeatenByMoreCommon(HtlcMinimumColumn(us), chosen.htlcMinimumMsat, 8);
      other := chosen.(htlcMinimumMsat := v);
    } else if !IsMode(FeeBaseColumn(us), chosen.feeBaseMsat) {
      var v := BeatenByMoreCommon(FeeBaseColumn(us), chosen.feeBaseMsat, 4);
      other := chosen.(feeBaseMsat := v);
    } else if !IsMode(FeeProportionalColumn(us), chosen.feeProportionalMillionths) {
      var v := BeatenByMoreCommon(FeeProportionalColumn(us), chosen.feeProportionalMillionths, 4);
      other := chosen.(feeProportionalMillionths := v);
    } else {
      var v := BeatenByMoreCommon(HtlcMaximumColumn(us), chosen.htlcMaximumMsat, 8);
      other := chosen.(htlcMaximumMsat := v);
    }
    PayloadByField(us, chosen);
    PayloadByField(us, other);
  }

  /** No other defaults make the given updates shorter. */
  ghost predicate Cheapest(us: seq<ChannelUpdate>, chosen: RoutingValues) {
    forall other :: PayloadBytes(us, chosen) <= PayloadBytes(us, other)
  }

  lemma SameCostSameCheapest(us: seq<ChannelUpdate>, vs: seq<ChannelUpdate>, m: RoutingValues)
    requires forall other :: PayloadBytes(us, other) == PayloadBytes(vs, other)
    ensures Cheapest(us, m) ==> Cheapest(vs, m)
  {
    hide PayloadBytes;
    if Cheapest(us, m) {
      forall other
        ensures PayloadBytes(vs, m) <= PayloadBytes(vs, other)
      {
        assert PayloadBytes(us, other) == PayloadBytes(vs, other);
        assert PayloadBytes(us, m) == PayloadBytes(vs, m);
        assert PayloadBytes(us, m) <= PayloadBytes(us, other);
      }
    }
  }

  /** Exactly the modes of the given updates make them shortest. */
  lemma OptimalExactly(us: seq<ChannelUpdate>, chosen: RoutingValues)
    ensures Cheapest(us, chosen) <==> AreModes(us, chosen)
  {
    hide PayloadBytes, AreModes;
    if AreModes(us, chosen) {
      forall other
        ensures PayloadBytes(us, chosen) <= PayloadBytes(us, other)
      {
        DefaultsAreOptimal(us, chosen, other);
      }
    } else {
      var other := BetterDefaults(us, chosen);
    }
  }

  /** The five histograms of full update values. */
  datatype FullUpdateValueHistograms = FullUpdateValueHistograms(
    cltvExpiryDelta: map<U16, nat>,
    htlcMinimumMsat: map<U64, nat>,
    feeBaseMsat: map<U32, nat>,
    feeProportionalMillionths: map<U32, nat>,
    htlcMaximumMsat: map<U64, nat>)

  ghost predicate CountsUpdates(h: FullUpdateValueHistograms, us: seq<ChannelUpdate>) {
    && Counts(h.cltvExpiryDelta, CltvColumn(us))
    && Counts(h.htlcMinimumMsat, HtlcMinimumColumn(us))
    && Counts(h.feeBaseMsat, FeeBaseColumn(us))
    && Counts(h.feeProportionalMillionths, FeeProportionalColumn(us))
    && Counts(h.htlcMaximumMsat, HtlcMaximumColumn(us))
  }

  method RecordFullUpdate(h: FullUpdateValueHistograms, u: ChannelUpdate, ghost us: seq<ChannelUpdate>)
    returns (h': FullUpdateValueHistograms)
    requires CountsUpdates(h, us)
    ensures CountsUpdates(h', us + [u])
  {
    hide Counts;
    var cltv := Record(h.cltvExpiryDelta, u.values.cltvExpiryDelta, CltvColumn(us));
    var htlcMin := Record(h.htlcMinimumMsat, u.values.htlcMinimumMsat, HtlcMinimumColumn(us));
    var feeBase := Record(h.feeBaseMsat, u.values.feeBaseMsat, FeeBaseColumn(us));
    var feeRate := Record(h.feeProportionalMillionths, u.values.feeProportionalMillionths, FeeProportionalColumn(us));
    var htlcMax := Record(h.htlcMaximumMsat, u.values.htlcMaximumMsat, HtlcMaximumColumn(us));
    h' := FullUpdateValueHistograms(cltv, htlcMin, feeBase, feeRate, htlcMax);
    assert CltvColumn(us + [u]) == CltvColumn(us) + [u.values.cltvExpiryDelta];
    assert HtlcMinimumColumn(us + [u]) == HtlcMinimumColumn(us) + [u.values.htlcMinimumMsat];
    assert FeeBaseColumn(us + [u]) == FeeBaseColumn(us) + [u.values.feeBaseMsat];
    assert FeeProportionalColumn(us + [u]) == FeeProportionalColumn(us) + [u.values.feeProportionalMillionths];
    assert HtlcMaximumColumn(us + [u]) == HtlcMaximumColumn(us) + [u.values.htlcMaximumMsat];
  }

  method SelectDefaults(h: FullUpdateValueHistograms, ghost us: seq<ChannelUpdate>) returns (defaults: RoutingValues)
    requires CountsUpdates(h, us)
    ensures AreModes(us, defaults)
    ensures us == [] ==> defaults == ZERO_VALUES
  {
    hide Counts, IsMode;
    var cltv := FindMostCommonHistogramEntryWithDefault(h.cltvExpiryDelta, 0, CltvColumn(us));
    var htlcMin := FindMostCommonHistogramEntryWithDefault(h.htlcMinimumMsat, 0, HtlcMinimumColumn(us));
    var feeBase := FindMostCommonHistogramEntryWithDefault(h.feeBaseMsat, 0, FeeBaseColumn(us));
    var feeRate := FindMostCommonHistogramEntryWithDefault(h.feeProportionalMillionths, 0, FeeProportionalColumn(us));
    var htlcMax := FindMostCommonHistogramEntryWithDefault(h.htlcMaximumMsat, 0, HtlcMaximumColumn(us));
    defaults := RoutingValues(cltv, htlcMin, feeBase, feeRate, htlcMax);
  }
}
