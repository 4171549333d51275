/** From delta sets to what is sent: the choice per direction, the defaults and the node records. */
module Serialization {
  import opened Collections
  import opened Wrappers
  import opened GossipTypes
  import opened UpdateCodec
  import opened Lookup
  import opened NodeLookup
  import opened NodeCodec
  import opened Histograms

  const NODE_DEFAULT_FEATURE_COUNT: nat := 6

  datatype SerializationSet = SerializationSet(
    announcements: seq<ChannelAnnouncement>,
    updates: seq<UpdateSerialization>,
    fullUpdateDefaults: RoutingValues,
    nodeFeatureDefaults: seq<Features>,
    nodeMutations: NodeDeltaSet,
    latestSeen: U32,
    chainHash: Bytes)

  // ---------------------------------------------------------------------------------------------
  // One channel
  // ---------------------------------------------------------------------------------------------

  /** The unwraps and assertions of the loop: an announcement is there, and updates belong to their key. */
  predicate Serializable(k: U64, c: ChannelDelta) {
    && c.announcement.Some? && c.announcement.value.announcement.scid == k
    && forall d: bool :: SerializableDirection(k, d, c.Directed(d))
  }

  predicate SerializableDirection(k: U64, d: bool, u: DirectedUpdateDelta) {
    && (u.latestUpdateAfterSeen.Some? ==> OwnUpdate(k, d, u.latestUpdateAfterSeen.value.update))
    && (u.lastUpdateBeforeSeen.Some? ==> OwnUpdate(k, d, u.lastUpdateBeforeSeen.value.update))
    && (u.serializationUpdateFlags.Some? ==>
          u.serializationUpdateFlags.value < 4 && DirectionOf(u.serializationUpdateFlags.value) == d)
  }

  predicate OwnUpdate(k: U64, d: bool, u: ChannelUpdate) {
    u.scid == k && u.channelFlags < 4 && DirectionOf(u.channelFlags) == d
  }

  predicate NewlyIncluded(c: ChannelDelta, sync: U32) {
    c.firstBidirectionalUpdatesSeen.Some? && c.firstBidirectionalUpdatesSeen.value >= sync
  }

  predicate SendAnnouncement(c: ChannelDelta, sync: U32)
    requires c.announcement.Some?
  {
    c.announcement.value.seen >= sync || NewlyIncluded(c, sync)
  }

  /** What is sent for one direction, if anything. */
  function Categorize(k: U64, c: ChannelDelta, d: bool, sync: U32, threshold: int): Option<UpdateSerialization>
    requires c.announcement.Some?
  {
    var u := c.Directed(d);
    match (u.latestUpdateAfterSeen, u.lastUpdateBeforeSeen)
    case (Some(latest), Some(last)) =>
      if SendAnnouncement(c, sync) || u.mutatedProperties.Len() == 5 || last.seen <= threshold
        then Some(Full(latest.update))
      else if u.mutatedProperties.Len() > 0 || u.mutatedProperties.flags then
        Some(Incremental(latest.update, u.mutatedProperties))
      else if c.requiresReminder && u.serializationUpdateFlags.Some? then
        Some(Reminder(k, u.serializationUpdateFlags.value))
      else None
    case (Some(latest), None) => Some(Full(latest.update))
    case (None, last) =>
      if NewlyIncluded(c, sync) then
        if last.Some? then Some(Full(last.value.update)) else None
      else if u.serializationUpdateFlags.Some? then Some(Reminder(k, u.serializationUpdateFlags.value))
      else None
  }

  /** A full update is counted for the defaults unless it only repeats the last update before the sync. */
  predicate Counted(k: U64, c: ChannelDelta, d: bool, sync: U32, threshold: int)
    requires c.announcement.Some?
  {
    var e := Categorize(k, c, d, sync, threshold);
    e.Some? && e.value.Full? && c.Directed(d).latestUpdateAfterSeen.Some?
  }

  function ToSeq<T>(o: Option<T>): seq<T> {
    if o.Some? then [o.value] else []
  }

  function ChannelUpdates(k: U64, c: ChannelDelta, sync: U32, threshold: int): seq<UpdateSerialization>
    requires c.announcement.Some?
  {
    ToSeq(Categorize(k, c, false, sync, threshold)) + ToSeq(Categorize(k, c, true, sync, threshold))
  }

  function ChannelCounted(k: U64, c: ChannelDelta, sync: U32, threshold: int): seq<ChannelUpdate>
    requires c.announcement.Some?
  {
    CountedIn(k, c, false, sync, threshold) + CountedIn(k, c, true, sync, threshold)
  }

  function CountedIn(k: U64, c: ChannelDelta, d: bool, sync: U32, threshold: int): seq<ChannelUpdate>
    requires c.announcement.Some?
  {
    if Counted(k, c, d, sync, threshold) then [Categorize(k, c, d, sync, threshold).value.update] else []
  }

  function ChannelAnnouncements(c: ChannelDelta, sync: U32): seq<ChannelAnnouncement>
    requires c.announcement.Some?
  {
    if SendAnnouncement(c, sync) then [c.announcement.value.announcement] else []
  }

  function Max(a: U32, b: U32): U32 {
    if a >= b then a else b
  }

  function SeenOr(o: Option<UpdateDelta>, floor: U32): U32 {
    if o.Some? then Max(floor, o.value.seen) else floor
  }

  /** The newest `seen` among what the channel contributes. */
  function ChannelSeen(c: ChannelDelta, sync: U32, floor: U32): U32
    requires c.announcement.Some?
  {
    var announced := if SendAnnouncement(c, sync) then Max(floor, c.announcement.value.seen) else floor;
    SeenOr(c.Directed(true).latestUpdateAfterSeen, SeenOr(c.Directed(false).latestUpdateAfterSeen, announced))
  }

  // ---------------------------------------------------------------------------------------------
  // All channels, in key order
  // ---------------------------------------------------------------------------------------------

  function Least(s: set<U64>): (m: U64)
    requires s != {}
    ensures m in s && forall x :: x in s ==> m <= x
  {
    assert exists m :: m in s && forall x :: x in s ==> m <= x by {
      var m := LeastBy(s, (k: U64) => k as int);
    }
    var m :| m in s && forall x :: x in s ==> m <= x;
    m
  }

  /** The iteration order of an ordered map: every key once, ascending. */
  function SortedKeys(s: set<U64>): (keys: seq<U64>)
    ensures forall i, j :: 0 <= i < j < |keys| ==> keys[i] < keys[j]
    ensures forall x :: x in keys <==> x in s
    decreases |s|
  {
    if s == {} then []
    else
      var m := Least(s);
      assert forall x :: x in s ==> x == m || x in s - {m};
      [m] + SortedKeys(s - {m})
  }

  predicate KeysAnnounced(delta: DeltaSet, keys: seq<U64>) {
    forall i :: 0 <= i < |keys| ==> keys[i] in delta && delta[keys[i]].announcement.Some?
  }

  function AnnouncementsOf(delta: DeltaSet, keys: seq<U64>, sync: U32): seq<ChannelAnnouncement>
    requires KeysAnnounced(delta, keys)
  {
    if keys == [] then [] else ChannelAnnouncements(delta[keys[0]], sync) + AnnouncementsOf(delta, keys[1..], sync)
  }

  function UpdatesOf(delta: DeltaSet, keys: seq<U64>, sync: U32, threshold: int): seq<UpdateSerialization>
    requires KeysAnnounced(delta, keys)
  {
    if keys == [] then []
    else ChannelUpdates(keys[0], delta[keys[0]], sync, threshold) + UpdatesOf(delta, keys[1..], sync, threshold)
  }

  function CountedOf(delta: DeltaSet, keys: seq<U64>, sync: U32, threshold: int): seq<ChannelUpdate>
    requires KeysAnnounced(delta, keys)
  {
    if keys == [] then []
    else ChannelCounted(keys[0], delta[keys[0]], sync, threshold) + CountedOf(delta, keys[1..], sync, threshold)
  }

  function SeenOf(delta: DeltaSet, keys: seq<U64>, sync: U32, floor: U32): U32
    requires KeysAnnounced(delta, keys)
  {
    if keys == [] then floor
    else SeenOf(delta, keys[1..], sync, ChannelSeen(delta[keys[0]], sync, floor))
  }

  // ---------------------------------------------------------------------------------------------
  // The loop
  // ---------------------------------------------------------------------------------------------

  /** The categorisation closure, one direction at a time, as the source branches. */
  method CategorizeDirection(k: U64, c: ChannelDelta, d: bool, sync: U32, threshold: int, latestSeen: U32)
    returns (emitted: Option<UpdateSerialization>, record: bool, latestSeen': U32)
    requires Serializable(k, c)
    ensures emitted == Categorize(k, c, d, sync, threshold)
    ensures record == Counted(k, c, d, sync, threshold)
    ensures latestSeen' == SeenOr(c.Directed(d).latestUpdateAfterSeen, latestSeen)
  {
    emitted, record, latestSeen' := None, false, latestSeen;
    var updates := c.Directed(d);
    if updates.latestUpdateAfterSeen.Some? {
      var latest := updates.latestUpdateAfterSeen.value;
      assert SerializableDirection(k, d, updates);
      assert latest.update.scid == k;
      latestSeen' := Max(latestSeen, latest.seen);
      if updates.lastUpdateBeforeSeen.Some? {
        var last := updates.lastUpdateBeforeSeen.value;
        var mutated := updates.mutatedProperties;
        if SendAnnouncement(c, sync) || mutated.Len() == 5 || last.seen <= threshold {
          emitted, record := Some(Full(latest.update)), true;
        } else if mutated.Len() > 0 || mutated.flags {
          emitted := Some(Incremental(latest.update, mutated));
        } else if c.requiresReminder {
          if updates.serializationUpdateFlags.Some? {
            emitted := Some(Reminder(k, updates.serializationUpdateFlags.value));
          }
        }
      } else {
        emitted, record := Some(Full(latest.update)), true;
      }
    } else if NewlyIncluded(c, sync) {
      if updates.lastUpdateBeforeSeen.Some? {
        emitted := Some(Full(updates.lastUpdateBeforeSeen.value.update));
      }
    } else if updates.serializationUpdateFlags.Some? {
      emitted := Some(Reminder(k, updates.serializationUpdateFlags.value));
    }
  }

  /** What the loop over one channel adds to the vectors, the histograms and the newest `seen`. */
  method SerializeChannel(
    k: U64, c: ChannelDelta, sync: U32, threshold: int, announcements: seq<ChannelAnnouncement>,
    updates: seq<UpdateSerialization>, latestSeen: U32, h: FullUpdateValueHistograms, ghost counted: seq<ChannelUpdate>)
    returns (announcements': seq<ChannelAnnouncement>, updates': seq<UpdateSerialization>, latestSeen': U32,
             h': FullUpdateValueHistograms)
    requires Serializable(k, c) && CountsUpdates(h, counted)
    ensures announcements' == announcements + ChannelAnnouncements(c, sync)
    ensures updates' == updates + ChannelUpdates(k, c, sync, threshold)
    ensures latestSeen' == ChannelSeen(c, sync, latestSeen)
    ensures CountsUpdates(h', counted + ChannelCounted(k, c, sync, threshold))
  {
    hide CountsUpdates, Categorize;
    announcements', updates', latestSeen', h' := announcements, updates, latestSeen, h;
    if SendAnnouncement(c, sync) {
      latestSeen' := Max(latestSeen, c.announcement.value.seen);
      announcements' := announcements + [c.announcement.value.announcement];
    }
    var forward, recordForward, seenForward := CategorizeDirection(k, c, false, sync, threshold, latestSeen');
    var backward, recordBackward, seenBackward := CategorizeDirection(k, c, true, sync, threshold, seenForward);
    latestSeen' := seenBackward;
    updates' := updates + ToSeq(forward) + ToSeq(backward);
    assert updates' == updates + ChannelUpdates(k, c, sync, threshold);
    ghost var first := counted;
    if recordForward {
      h' := RecordFullUpdate(h', forward.value.update, counted);
      first := counted + [forward.value.update];
    }
    assert first == counted + CountedIn(k, c, false, sync, threshold);
    if recordBackward {
      h' := RecordFullUpdate(h', backward.value.update, first);
      first := first + [backward.value.update];
    }
    assert first == counted + ChannelCounted(k, c, sync, threshold);
  }

  ghost predicate AllSerializable(delta: DeltaSet) {
    forall k :: k in delta ==> Serializable(k, delta[k])
  }

  /** One more key of each traversal. */
  lemma NextKey(delta: DeltaSet, keys: seq<U64>, n: nat, sync: U32, threshold: int, floor: U32)
    requires KeysAnnounced(delta, keys) && n < |keys|
    ensures KeysAnnounced(delta, keys[n..]) && KeysAnnounced(delta, keys[n + 1..])
    ensures keys[n] in delta && delta[keys[n]].announcement.Some?
    ensures var k, c, rest := keys[n], delta[keys[n]], keys[n + 1..];
      && AnnouncementsOf(delta, keys[n..], sync) == ChannelAnnouncements(c, sync) + AnnouncementsOf(delta, rest, sync)
      && UpdatesOf(delta, keys[n..], sync, threshold)
         == ChannelUpdates(k, c, sync, threshold) + UpdatesOf(delta, rest, sync, threshold)
      && CountedOf(delta, keys[n..], sync, threshold)
         == ChannelCounted(k, c, sync, threshold) + CountedOf(delta, rest, sync, threshold)
      && SeenOf(delta, keys[n..], sync, floor) == SeenOf(delta, rest, sync, ChannelSeen(c, sync, floor))
  {
    hide ChannelAnnouncements, ChannelUpdates, ChannelCounted, ChannelSeen;
    assert keys[n..][0] == keys[n] && keys[n..][1..] == keys[n + 1..];
  }

  lemma NoKeys(delta: DeltaSet, sync: U32, threshold: int, floor: U32)
    ensures AnnouncementsOf(delta, [], sync) == [] && UpdatesOf(delta, [], sync, threshold) == []
    ensures CountedOf(delta, [], sync, threshold) == [] && SeenOf(delta, [], sync, floor) == floor
  {
  }

  /** The loop over the channels in key order. */
  method SerializeKeys(delta: DeltaSet, keys: seq<U64>, sync: U32, threshold: int)
    returns (announcements: seq<ChannelAnnouncement>, updates: seq<UpdateSerialization>, latestSeen: U32,
             defaults: RoutingValues)
    requires forall i :: 0 <= i < |keys| ==> keys[i] in delta && Serializable(keys[i], delta[keys[i]])
    requires KeysAnnounced(delta, keys)
    ensures announcements == AnnouncementsOf(delta, keys, sync)
    ensures updates == UpdatesOf(delta, keys, sync, threshold)
    ensures latestSeen == SeenOf(delta, keys, sync, 0)
    ensures AreModes(CountedOf(delta, keys, sync, threshold), defaults)
  {
    hide KeysAnnounced, Serializable, CountsUpdates, AreModes, AnnouncementsOf, UpdatesOf, CountedOf, SeenOf;
    hide ChannelAnnouncements, ChannelUpdates, ChannelCounted, ChannelSeen;
    announcements, updates, latestSeen := [], [], 0;
    var h := FullUpdateValueHistograms(map[], map[], map[], map[], map[]);
    ghost var counted: seq<ChannelUpdate> := [];
    NothingCounted();
    var n := 0;
    assert keys[0..] == keys;
    while n < |keys|
      invariant n <= |keys| && KeysAnnounced(delta, keys[n..])
      invariant announcements + AnnouncementsOf(delta, keys[n..], sync) == AnnouncementsOf(delta, keys, sync)
      invariant updates + UpdatesOf(delta, keys[n..], sync, threshold) == UpdatesOf(delta, keys, sync, threshold)
      invariant SeenOf(delta, keys[n..], sync, latestSeen) == SeenOf(delta, keys, sync, 0)
      invariant CountsUpdates(h, counted)
      invariant counted + CountedOf(delta, keys[n..], sync, threshold) == CountedOf(delta, keys, sync, threshold)
    {
      NextKey(delta, keys, n, sync, threshold, latestSeen);
      announcements, updates, latestSeen, h :=
        SerializeChannel(keys[n], delta[keys[n]], sync, threshold, announcements, updates, latestSeen, h, counted);
      counted := counted + ChannelCounted(keys[n], delta[keys[n]], sync, threshold);
      n := n + 1;
    }
    assert keys[n..] == [];
    NoKeys(delta, sync, threshold, latestSeen);
    assert counted == CountedOf(delta, keys, sync, threshold);
    defaults := SelectDefaults(h, counted);
  }

  /** The channel half of the set: vectors in key order, defaults that no other choice beats. */
  method SerializeChannels(delta: DeltaSet, sync: U32, threshold: int)
    returns (announcements: seq<ChannelAnnouncement>, updates: seq<UpdateSerialization>, latestSeen: U32,
             defaults: RoutingValues)
    requires AllSerializable(delta)
    ensures KeysAnnounced(delta, SortedKeys(delta.Keys))
    ensures announcements == AnnouncementsOf(delta, SortedKeys(delta.Keys), sync)
    ensures updates == UpdatesOf(delta, SortedKeys(delta.Keys), sync, threshold)
    ensures latestSeen == SeenOf(delta, SortedKeys(delta.Keys), sync, 0)
    ensures AreModes(CountedOf(delta, SortedKeys(delta.Keys), sync, threshold), defaults)
  {
    hide AnnouncementsOf, UpdatesOf, CountedOf, SeenOf, AreModes, Serializable, KeysAnnounced, SortedKeys;
    var keys := SortedKeys(delta.Keys);
    KeysOf(delta);
    announcements, updates, latestSeen, defaults := SerializeKeys(delta, keys, sync, threshold);
  }

  lemma KeysOf(delta: DeltaSet)
    requires AllSerializable(delta)
    ensures KeysAnnounced(delta, SortedKeys(delta.Keys))
    ensures forall i :: 0 <= i < |SortedKeys(delta.Keys)| ==>
      var k := SortedKeys(delta.Keys)[i]; k in delta && Serializable(k, delta[k])
  {
    hide SortedKeys;
    var keys := SortedKeys(delta.Keys);
    assert forall i :: 0 <= i < |keys| ==> keys[i] in keys;
  }

  lemma NothingCounted()
    ensures CountsUpdates(FullUpdateValueHistograms(map[], map[], map[], map[], map[]), [])
  {
  }

  // ---------------------------------------------------------------------------------------------
  // Nodes
  // ---------------------------------------------------------------------------------------------

  /** The node records that are sent, each with its final strategy. */
  function NodeMutations(nodes: NodeDeltaSet, threshold: int): NodeDeltaSet {
    map n | n in nodes && FinalStrategy(nodes[n], threshold).Some? ::
      nodes[n].(strategy := FinalStrategy(nodes[n], threshold))
  }

  predicate SendsFeature(d: NodeDelta, f: Features) {
    && d.strategy.Some? && SendsFeatures(d.strategy.value)
    && d.latestDetails.Some? && d.latestDetails.value.info.features == f
  }

  /** The nodes among `done` that are sent with the feature set `f`. */
  function Senders(mutations: NodeDeltaSet, done: set<NodeId>, f: Features): set<NodeId> {
    set n | n in done && n in mutations && SendsFeature(mutations[n], f)
  }

  /** The histogram counts senders. */
  ghost predicate CountsSenders(mutations: NodeDeltaSet, done: set<NodeId>, h: map<Features, nat>) {
    forall f: Features ::
      (f in h <==> Senders(mutations, done, f) != {}) && (f in h ==> h[f] == |Senders(mutations, done, f)|)
  }

  lemma SendersStep(mutations: NodeDeltaSet, done: set<NodeId>, n: NodeId, f: Features)
    requires n in mutations && n !in done
    ensures SendsFeature(mutations[n], f) ==>
      Senders(mutations, done + {n}, f) == Senders(mutations, done, f) + {n} && n !in Senders(mutations, done, f)
    ensures !SendsFeature(mutations[n], f) ==> Senders(mutations, done + {n}, f) == Senders(mutations, done, f)
  {
  }

  lemma CountStep(mutations: NodeDeltaSet, done: set<NodeId>, n: NodeId, h: map<Features, nat>, h': map<Features, nat>)
    requires CountsSenders(mutations, done, h) && n in mutations && n !in done
    requires forall f: Features :: SendsFeature(mutations[n], f) ==>
      f in h' && h'[f] == (if f in h then h[f] else 0) + 1
    requires forall f: Features :: !SendsFeature(mutations[n], f) ==>
      (f in h' <==> f in h) && (f in h ==> h'[f] == h[f])
    ensures CountsSenders(mutations, done + {n}, h')
  {
    hide SendsFeature;
    forall f: Features
      ensures (f in h' <==> Senders(mutations, done + {n}, f) != {})
           && (f in h' ==> h'[f] == |Senders(mutations, done + {n}, f)|)
    {
      hide Senders;
      SendersStep(mutations, done, n, f);
    }
  }

  /** The default feature sets: those sent for more than one node, by descending count, at most six. */
  ghost predicate LeadingFeatures(mutations: NodeDeltaSet, leading: seq<Features>) {
    exists h: map<Features, nat>, rest: set<Features> :: LeadsAmong(mutations, leading, h, rest)
  }

  /** With `h` as the histogram and `rest` as the repeated sets that are left out. */
  ghost predicate LeadsAmong(
    mutations: NodeDeltaSet, leading: seq<Features>, h: map<Features, nat>, rest: set<Features>)
  {
    CountsSenders(mutations, mutations.Keys, h) && IsLeading(h, leading, rest, NODE_DEFAULT_FEATURE_COUNT)
  }

  /** How many nodes are sent with the feature set. */
  function SenderCount(mutations: NodeDeltaSet, f: Features): nat {
    |Senders(mutations, mutations.Keys, f)|
  }

  /**
   * The defaults are sets that two nodes or more are sent with, the most common first, all such sets or six of them.
   */
  lemma LeadingFeaturesMeaning(mutations: NodeDeltaSet, leading: seq<Features>)
    requires LeadingFeatures(mutations, leading)
    ensures forall i :: 0 <= i < |leading| ==> SenderCount(mutations, leading[i]) >= 2
    ensures forall i, j :: 0 <= i < j < |leading| ==>
      leading[i] != leading[j] && SenderCount(mutations, leading[i]) >= SenderCount(mutations, leading[j])
    ensures forall f: Features :: SenderCount(mutations, f) >= 2 && f !in leading ==>
      && |leading| == 6
      && forall i :: 0 <= i < |leading| ==> SenderCount(mutations, leading[i]) >= SenderCount(mutations, f)
  {
    var h: map<Features, nat>, rest: set<Features> :| LeadsAmong(mutations, leading, h, rest);
    hide Senders;
    assert forall f: Features :: f in h ==> h[f] == SenderCount(mutations, f);
    assert forall f: Features :: f !in h ==> SenderCount(mutations, f) == 0;
    assert forall f: Features :: f in Repeated(h) <==> SenderCount(mutations, f) >= 2;
    assert forall i :: 0 <= i < |leading| ==> leading[i] in leading;
  }

  /** The node half: final strategies, and the most common feature sets among those that are sent. */
  method SerializeNodes(nodes: NodeDeltaSet, threshold: int) returns (mutations: NodeDeltaSet, leading: seq<Features>)
    ensures mutations == NodeMutations(nodes, threshold)
    ensures |leading| <= NODE_DEFAULT_FEATURE_COUNT && LeadingFeatures(mutations, leading)
  {
    hide NodeMutations, CountsSenders, IsLeading;
    mutations := NodeMutations(nodes, threshold);
    var histogram: map<Features, nat> := map[];
    var left := mutations.Keys;
    NoSenders(mutations);
    assert mutations.Keys - left == {};
    while left != {}
      invariant left <= mutations.Keys
      invariant CountsSenders(mutations, mutations.Keys - left, histogram)
      decreases |left|
    {
      var n :| n in left;
      ghost var done, before := mutations.Keys - left, histogram;
      left := left - {n};
      var strategy := mutations[n].strategy;
      if strategy.Some? && SendsFeatures(strategy.value) && mutations[n].latestDetails.Some? {
        var f := mutations[n].latestDetails.value.info.features;
        histogram := histogram[f := (if f in histogram then histogram[f] else 0) + 1];
      }
      CountStep(mutations, done, n, before, histogram);
      assert mutations.Keys - left == done + {n};
    }
    assert mutations.Keys - left == mutations.Keys;
    leading := FindLeadingHistogramEntries(histogram, NODE_DEFAULT_FEATURE_COUNT);
    ghost var rest :| IsLeading(histogram, leading, rest, NODE_DEFAULT_FEATURE_COUNT);
    assert LeadsAmong(mutations, leading, histogram, rest);
  }

  lemma NoSenders(mutations: NodeDeltaSet)
    ensures CountsSenders(mutations, {}, map[])
  {
  }

  /** What serialization makes of a delta set. */
  ghost predicate DescribesSerialization(
    delta: DeltaSet, nodes: NodeDeltaSet, sync: U32, now: U32, chainHash: Bytes, s: SerializationSet)
  {
    var keys := SortedKeys(delta.Keys);
    var threshold := now - CHANNEL_REMINDER_AGE;
    && KeysAnnounced(delta, keys)
    && s.announcements == AnnouncementsOf(delta, keys, sync)
    && s.updates == UpdatesOf(delta, keys, sync, threshold)
    && s.latestSeen == SeenOf(delta, keys, sync, 0)
    && AreModes(CountedOf(delta, keys, sync, threshold), s.fullUpdateDefaults)
    && s.nodeMutations == NodeMutations(nodes, threshold)
    && |s.nodeFeatureDefaults| <= NODE_DEFAULT_FEATURE_COUNT && LeadingFeatures(s.nodeMutations, s.nodeFeatureDefaults)
    && s.chainHash == chainHash
  }

  /** The whole stage. `now` is the clock when it runs. */
  method SerializeDeltaSet(delta: DeltaSet, nodes: NodeDeltaSet, sync: U32, now: U32, chainHash: Bytes)
    returns (s: SerializationSet)
    requires AllSerializable(delta) && now >= CHANNEL_REMINDER_AGE
    ensures DescribesSerialization(delta, nodes, sync, now, chainHash, s)
  {
    hide AnnouncementsOf, UpdatesOf, CountedOf, SeenOf, AreModes, Serializable, KeysAnnounced, SortedKeys;
    hide NodeMutations;
    hide LeadingFeatures;
    var threshold := now - CHANNEL_REMINDER_AGE;
    var announcements, updates, latestSeen, defaults := SerializeChannels(delta, sync, threshold);
    var mutations, leading := SerializeNodes(nodes, threshold);
    s := SerializationSet(announcements, updates, defaults, leading, mutations, latestSeen, chainHash);
  }

  // ---------------------------------------------------------------------------------------------
  // Which full updates the defaults are chosen for
  // ---------------------------------------------------------------------------------------------

  function FullsOf(us: seq<UpdateSerialization>): seq<ChannelUpdate> {
    if us == [] then [] else (if us[0].Full? then [us[0].update] else []) + FullsOf(us[1..])
  }

  /** A newly included channel repeats the last update of a direction that has no row since the sync. */
  predicate Repeats(c: ChannelDelta, d: bool, sync: U32) {
    && NewlyIncluded(c, sync)
    && c.Directed(d).latestUpdateAfterSeen.None? && c.Directed(d).lastUpdateBeforeSeen.Some?
  }

  predicate NothingRepeated(delta: DeltaSet, keys: seq<U64>, sync: U32)
    requires KeysAnnounced(delta, keys)
  {
    forall i :: 0 <= i < |keys| ==> !Repeats(delta[keys[i]], false, sync) && !Repeats(delta[keys[i]], true, sync)
  }

  lemma {:induction false} FullsJoin(a: seq<UpdateSerialization>, b: seq<UpdateSerialization>)
    ensures FullsOf(a + b) == FullsOf(a) + FullsOf(b)
  {
    if a == [] {
      assert a + b == b;
    } else {
      assert (a + b)[0] == a[0] && (a + b)[1..] == a[1..] + b;
      FullsJoin(a[1..], b);
    }
  }

  lemma DirectionCounted(k: U64, c: ChannelDelta, d: bool, sync: U32, threshold: int)
    requires c.announcement.Some?
    ensures var fulls := FullsOf(ToSeq(Categorize(k, c, d, sync, threshold)));
      && |fulls| == |CountedIn(k, c, d, sync, threshold)| + Num(Repeats(c, d, sync))
      && (!Repeats(c, d, sync) ==> fulls == CountedIn(k, c, d, sync, threshold))
  {
    var e := Categorize(k, c, d, sync, threshold);
    if e.Some? {
      assert [e.value][1..] == [];
    }
  }

  lemma {:induction false} CountedAgainstSent(delta: DeltaSet, keys: seq<U64>, sync: U32, threshold: int)
    requires KeysAnnounced(delta, keys)
    ensures var fulls := FullsOf(UpdatesOf(delta, keys, sync, threshold));
            var counted := CountedOf(delta, keys, sync, threshold);
      && |counted| <= |fulls|
      && (NothingRepeated(delta, keys, sync) ==> fulls == counted)
      && (!NothingRepeated(delta, keys, sync) ==> |counted| < |fulls|)
  {
    if keys != [] {
      var k, c, rest := keys[0], delta[keys[0]], keys[1..];
      assert NothingRepeated(delta, keys, sync) <==>
        !Repeats(c, false, sync) && !Repeats(c, true, sync) && NothingRepeated(delta, rest, sync) by {
        assert forall i :: 0 <= i < |rest| ==> rest[i] == keys[i + 1];
      }
      hide Categorize, CountedIn, NothingRepeated, Repeats, ToSeq;
      CountedAgainstSent(delta, rest, sync, threshold);
      FullsJoin(ChannelUpdates(k, c, sync, threshold), UpdatesOf(delta, rest, sync, threshold));
      FullsJoin(ToSeq(Categorize(k, c, false, sync, threshold)), ToSeq(Categorize(k, c, true, sync, threshold)));
      DirectionCounted(k, c, false, sync, threshold);
      DirectionCounted(k, c, true, sync, threshold);
    }
  }

  /** The defaults are chosen for exactly the full updates that are sent iff no newly included channel repeats one. */
  lemma EveryFullIsCounted(delta: DeltaSet, keys: seq<U64>, sync: U32, threshold: int)
    requires KeysAnnounced(delta, keys)
    ensures CountedOf(delta, keys, sync, threshold) == FullsOf(UpdatesOf(delta, keys, sync, threshold))
       <==> NothingRepeated(delta, keys, sync)
  {
    CountedAgainstSent(delta, keys, sync, threshold);
  }

  /** Then no other defaults make the full updates of the blob shorter. */
  lemma SentDefaultsAreOptimal(
    delta: DeltaSet, nodes: NodeDeltaSet, sync: U32, now: U32, chainHash: Bytes, s: SerializationSet,
    other: RoutingValues)
    requires DescribesSerialization(delta, nodes, sync, now, chainHash, s)
    requires NothingRepeated(delta, SortedKeys(delta.Keys), sync)
    ensures PayloadBytes(FullsOf(s.updates), s.fullUpdateDefaults) <= PayloadBytes(FullsOf(s.updates), other)
  {
    hide SortedKeys, UpdatesOf, CountedOf, FullsOf, AreModes, PayloadBytes, NothingRepeated, KeysAnnounced;
    hide LeadingFeatures;
    EveryFullIsCounted(delta, SortedKeys(delta.Keys), sync, now - CHANNEL_REMINDER_AGE);
    DefaultsAreOptimal(FullsOf(s.updates), s.fullUpdateDefaults, other);
  }

  /** The updates that are sent in full and not counted. */
  function RepeatedIn(c: ChannelDelta, d: bool, sync: U32): seq<ChannelUpdate> {
    if Repeats(c, d, sync) then [c.Directed(d).lastUpdateBeforeSeen.value.update] else []
  }

  function RepeatedOf(delta: DeltaSet, keys: seq<U64>, sync: U32): seq<ChannelUpdate>
    requires KeysAnnounced(delta, keys)
  {
    if keys == [] then []
    else
      var c := delta[keys[0]];
      RepeatedIn(c, false, sync) + RepeatedIn(c, true, sync) + RepeatedOf(delta, keys[1..], sync)
  }

  lemma DirectionCost(k: U64, c: ChannelDelta, d: bool, sync: U32, threshold: int, m: RoutingValues)
    requires c.announcement.Some?
    ensures PayloadBytes(FullsOf(ToSeq(Categorize(k, c, d, sync, threshold))), m)
         == PayloadBytes(CountedIn(k, c, d, sync, threshold), m) + PayloadBytes(RepeatedIn(c, d, sync), m)
  {
    hide WriteMasked;
    DirectionCounted(k, c, d, sync, threshold);
    if Repeats(c, d, sync) {
      var e := Categorize(k, c, d, sync, threshold);
      assert [e.value][1..] == [];
    }
  }

  /** What is sent in full costs what is counted and what is repeated cost together. */
  lemma {:induction false} SentCost(delta: DeltaSet, keys: seq<U64>, sync: U32, threshold: int, m: RoutingValues)
    requires KeysAnnounced(delta, keys)
    ensures PayloadBytes(FullsOf(UpdatesOf(delta, keys, sync, threshold)), m)
         == PayloadBytes(CountedOf(delta, keys, sync, threshold) + RepeatedOf(delta, keys, sync), m)
  {
    PayloadJoin(CountedOf(delta, keys, sync, threshold), RepeatedOf(delta, keys, sync), m);
    if keys != [] {
      var k, c, rest := keys[0], delta[keys[0]], keys[1..];
      hide Categorize, CountedIn, RepeatedIn, ToSeq, FullsOf, PayloadBytes;
      SentCost(delta, rest, sync, threshold, m);
      PayloadJoin(CountedOf(delta, rest, sync, threshold), RepeatedOf(delta, rest, sync), m);
      var a, b := ToSeq(Categorize(k, c, false, sync, threshold)), ToSeq(Categorize(k, c, true, sync, threshold));
      FullsJoin(a + b, UpdatesOf(delta, rest, sync, threshold));
      FullsJoin(a, b);
      PayloadJoin(FullsOf(a) + FullsOf(b), FullsOf(UpdatesOf(delta, rest, sync, threshold)), m);
      PayloadJoin(FullsOf(a), FullsOf(b), m);
      DirectionCost(k, c, false, sync, threshold, m);
      DirectionCost(k, c, true, sync, threshold, m);
      ThreeParts(
        CountedIn(k, c, false, sync, threshold), CountedIn(k, c, true, sync, threshold),
        CountedOf(delta, rest, sync, threshold), m);
      ThreeParts(RepeatedIn(c, false, sync), RepeatedIn(c, true, sync), RepeatedOf(delta, rest, sync), m);
    }
  }

  lemma ThreeParts(a: seq<ChannelUpdate>, b: seq<ChannelUpdate>, c: seq<ChannelUpdate>, m: RoutingValues)
    ensures PayloadBytes(a + b + c, m) == PayloadBytes(a, m) + PayloadBytes(b, m) + PayloadBytes(c, m)
  {
    hide PayloadBytes;
    PayloadJoin(a + b, c, m);
    PayloadJoin(a, b, m);
  }

  /** Whatever is most common in a field of the counted updates still is when the repeated ones are added. */
  ghost predicate RepeatsKeepModes(counted: seq<ChannelUpdate>, repeated: seq<ChannelUpdate>) {
    forall m :: AreModes(counted, m) ==> AreModes(counted + repeated, m)
  }

  /** No defaults beat those of the set on the full updates that it sends. */
  ghost predicate Optimal(s: SerializationSet) {
    Cheapest(FullsOf(s.updates), s.fullUpdateDefaults)
  }

  lemma SameCostSameModes(us: seq<ChannelUpdate>, vs: seq<ChannelUpdate>, m: RoutingValues)
    requires forall other :: PayloadBytes(us, other) == PayloadBytes(vs, other)
    ensures AreModes(us, m) <==> AreModes(vs, m)
  {
    hide AreModes, PayloadBytes, Cheapest;
    OptimalExactly(us, m);
    OptimalExactly(vs, m);
    SameCostSameCheapest(us, vs, m);
    SameCostSameCheapest(vs, us, m);
  }

  /**
   * An outcome of the stage has modes of the counted updates, and is optimal iff they are modes of all that is sent.
   */
  lemma OutcomeOptimal(
    delta: DeltaSet, nodes: NodeDeltaSet, sync: U32, now: U32, chainHash: Bytes, s: SerializationSet)
    requires DescribesSerialization(delta, nodes, sync, now, chainHash, s)
    ensures var keys := SortedKeys(delta.Keys);
      var counted := CountedOf(delta, keys, sync, now - CHANNEL_REMINDER_AGE);
      && AreModes(counted, s.fullUpdateDefaults)
      && (Optimal(s) <==> AreModes(counted + RepeatedOf(delta, keys, sync), s.fullUpdateDefaults))
  {
    var keys, threshold := SortedKeys(delta.Keys), now - CHANNEL_REMINDER_AGE;
    hide SortedKeys, KeysAnnounced, AnnouncementsOf, UpdatesOf, CountedOf, RepeatedOf, SeenOf, AreModes;
    hide LeadingFeatures;
    hide FullsOf, PayloadBytes, NodeMutations, Cheapest;
    var sent, whole := FullsOf(s.updates), CountedOf(delta, keys, sync, threshold) + RepeatedOf(delta, keys, sync);
    forall other
      ensures PayloadBytes(sent, other) == PayloadBytes(whole, other)
    {
      SentCost(delta, keys, sync, threshold, other);
    }
    SameCostSameModes(sent, whole, s.fullUpdateDefaults);
    OptimalExactly(sent, s.fullUpdateDefaults);
  }

  /** Every choice of modes is an outcome of the stage. */
  lemma EveryModeIsAnOutcome(
    delta: DeltaSet, nodes: NodeDeltaSet, sync: U32, now: U32, chainHash: Bytes, s0: SerializationSet, m: RoutingValues)
    requires DescribesSerialization(delta, nodes, sync, now, chainHash, s0)
    requires AreModes(CountedOf(delta, SortedKeys(delta.Keys), sync, now - CHANNEL_REMINDER_AGE), m)
    ensures DescribesSerialization(delta, nodes, sync, now, chainHash, s0.(fullUpdateDefaults := m))
  {
    hide SortedKeys, KeysAnnounced, AnnouncementsOf, UpdatesOf, CountedOf, SeenOf, AreModes, LeadingFeatures;
    hide NodeMutations;
  }

  /**
   * Whichever most common values the histograms yield, they are optimal for the blob, exactly when the repeated
   * updates of the delta set leave the modes of the counted ones in place. `s0` is any outcome of the stage.
   */
  lemma SentDefaultsOptimalExactly(
    delta: DeltaSet, nodes: NodeDeltaSet, sync: U32, now: U32, chainHash: Bytes, s0: SerializationSet)
    requires DescribesSerialization(delta, nodes, sync, now, chainHash, s0)
    ensures var keys := SortedKeys(delta.Keys);
      (forall s :: DescribesSerialization(delta, nodes, sync, now, chainHash, s) ==> Optimal(s))
      <==> RepeatsKeepModes(CountedOf(delta, keys, sync, now - CHANNEL_REMINDER_AGE), RepeatedOf(delta, keys, sync))
  {
    var keys := SortedKeys(delta.Keys);
    assert KeysAnnounced(delta, keys);
    var counted := CountedOf(delta, keys, sync, now - CHANNEL_REMINDER_AGE);
    var repeated := RepeatedOf(delta, keys, sync);
    hide SortedKeys, CountedOf, RepeatedOf, AreModes, Optimal, DescribesSerialization, KeysAnnounced;
    if RepeatsKeepModes(counted, repeated) {
      forall s | DescribesSerialization(delta, nodes, sync, now, chainHash, s)
        ensures Optimal(s)
      {
        OutcomeOptimal(delta, nodes, sync, now, chainHash, s);
      }
    }
    if forall s :: DescribesSerialization(delta, nodes, sync, now, chainHash, s) ==> Optimal(s) {
      forall m | AreModes(counted, m)
        ensures AreModes(counted + repeated, m)
      {
        EveryModeIsAnOutcome(delta, nodes, sync, now, chainHash, s0, m);
        OutcomeOptimal(delta, nodes, sync, now, chainHash, s0.(fullUpdateDefaults := m));
      }
    }
  }

  // ---------------------------------------------------------------------------------------------
  // The newest time a payload reports
  // ---------------------------------------------------------------------------------------------

  /** It is not before the floor, nor before anything a channel contributes. */
  lemma {:induction false} SeenIsUpperBound(delta: DeltaSet, keys: seq<U64>, sync: U32, floor: U32)
    requires KeysAnnounced(delta, keys)
    ensures floor <= SeenOf(delta, keys, sync, floor)
    ensures forall i :: 0 <= i < |keys| ==>
      var c := delta[keys[i]];
      && (SendAnnouncement(c, sync) ==> c.announcement.value.seen <= SeenOf(delta, keys, sync, floor))
      && forall d: bool :: c.Directed(d).latestUpdateAfterSeen.Some? ==>
           c.Directed(d).latestUpdateAfterSeen.value.seen <= SeenOf(delta, keys, sync, floor)
    decreases keys
  {
    if keys != [] {
      var next := ChannelSeen(delta[keys[0]], sync, floor);
      SeenIsUpperBound(delta, keys[1..], sync, next);
      assert forall i :: 0 < i < |keys| ==> keys[1..][i - 1] == keys[i];
    }
  }
}
