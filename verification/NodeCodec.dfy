/** Node ids: their interning into a list without duplicates, and the record written for each. */
module NodeCodec {
  import opened Wrappers
  import opened GossipTypes
  import opened ByteCodec
  import opened UpdateCodec
  import opened NodeLookup

  // ---------------------------------------------------------------------------------------------
  // Interning
  // ---------------------------------------------------------------------------------------------

  predicate Distinct<T(==)>(s: seq<T>) {
    forall i, j :: 0 <= i < j < |s| ==> s[i] != s[j]
  }

  function Intern(ids: seq<NodeId>, id: NodeId): seq<NodeId> {
    if id in ids then ids else ids + [id]
  }

  function InternAll(ids: seq<NodeId>, requests: seq<NodeId>): seq<NodeId>
    decreases requests
  {
    if requests == [] then ids else InternAll(Intern(ids, requests[0]), requests[1..])
  }

  lemma InternExtends(ids: seq<NodeId>, id: NodeId)
    requires Distinct(ids)
    ensures Distinct(Intern(ids, id)) && ids <= Intern(ids, id)
    ensures forall x :: x in Intern(ids, id) <==> x in ids || x == id
  {
  }

  lemma {:induction false} InternAllExtends(ids: seq<NodeId>, requests: seq<NodeId>)
    requires Distinct(ids)
    ensures Distinct(InternAll(ids, requests)) && ids <= InternAll(ids, requests)
    ensures forall id :: id in InternAll(ids, requests) <==> id in ids || id in requests
    decreases requests
  {
    hide Intern, Distinct;
    if requests != [] {
      InternExtends(ids, requests[0]);
      InternAllExtends(Intern(ids, requests[0]), requests[1..]);
      assert requests == [requests[0]] + requests[1..];
    }
  }

  lemma {:induction false} InternAllAppend(ids: seq<NodeId>, a: seq<NodeId>, b: seq<NodeId>)
    ensures InternAll(ids, a + b) == InternAll(InternAll(ids, a), b)
    decreases a
  {
    if a == [] {
      assert a + b == b;
    } else {
      InternAllAppend(Intern(ids, a[0]), a[1..], b);
      assert (a + b)[0] == a[0] && (a + b)[1..] == a[1..] + b;
    }
  }

  /** The position of a listed id. */
  function IndexOf(ids: seq<NodeId>, id: NodeId): (i: nat)
    requires id in ids
    ensures i < |ids| && ids[i] == id
  {
    if ids[0] == id then 0 else IndexOf(ids[1..], id) + 1
  }

  lemma {:induction false} IndexIsUnique(ids: seq<NodeId>, id: NodeId, i: nat)
    requires Distinct(ids) && i < |ids| && ids[i] == id
    ensures IndexOf(ids, id) == i
  {
    var j := IndexOf(ids, id);
    assert ids[j] == ids[i];
  }

  lemma IndexSurvives(ids: seq<NodeId>, longer: seq<NodeId>, id: NodeId)
    requires Distinct(longer) && ids <= longer && id in ids
    ensures id in longer && IndexOf(longer, id) == IndexOf(ids, id)
  {
    var i := IndexOf(ids, id);
    assert longer[i] == id;
    IndexIsUnique(longer, id, i);
  }

  /** Whatever is interned later, an index handed out keeps naming its node. */
  lemma IndicesStayValid(earlier: seq<NodeId>, later: seq<NodeId>, id: NodeId)
    requires id in InternAll([], earlier)
    ensures Distinct(InternAll([], earlier + later)) && id in InternAll([], earlier + later)
    ensures IndexOf(InternAll([], earlier + later), id) == IndexOf(InternAll([], earlier), id)
  {
    hide InternAll, IndexOf, Distinct;
    assert Distinct<NodeId>([]) by {
      NothingTwice();
    }
    InternAllExtends([], earlier);
    InternAllAppend([], earlier, later);
    InternAllExtends(InternAll([], earlier), later);
    IndexSurvives(InternAll([], earlier), InternAll([], earlier + later), id);
  }

  lemma NothingTwice()
    ensures Distinct<NodeId>([])
  {
  }

  /** The set, the map and the vector that the index closure mutates together. */
  class NodeIdTable {
    var known: set<NodeId>
    var indices: map<NodeId, nat>
    var ids: seq<NodeId>
    var duplicates: nat

    ghost predicate Valid()
      reads this
    {
      && Distinct(ids)
      && known == (set id | id in ids)
      && indices.Keys == known
      && forall i :: 0 <= i < |ids| ==> indices[ids[i]] == i
    }

    constructor ()
      ensures Valid() && ids == [] && duplicates == 0
    {
      known, indices, ids, duplicates := {}, map[], [], 0;
    }

    /** An id's index; the list grows only by ids it does not hold, so indices handed out stay valid. */
    method GetNodeIdIndex(id: NodeId) returns (index: nat)
      requires Valid()
      modifies this
      ensures Valid() && ids == Intern(old(ids), id) && old(ids) <= ids
      ensures index < |ids| && ids[index] == id && index == IndexOf(ids, id)
      ensures duplicates == old(duplicates) + (if id in old(ids) then 1 else 0)
    {
      if id !in known {
        known := known + {id};
        ids := ids + [id];
        index := |ids| - 1;
        indices := indices[id := index];
      } else {
        duplicates := duplicates + 1;
        index := indices[id];
        var i :| 0 <= i < |ids| && ids[i] == id;
      }
      IndexIsUnique(ids, id, index);
    }
  }

  // ---------------------------------------------------------------------------------------------
  // Addresses
  // ---------------------------------------------------------------------------------------------

  /** The addresses that are written: in iteration order, those of at most 255 bytes, up to `room` of them. */
  function Sendable(order: seq<Bytes>, room: nat): (r: seq<Bytes>)
    ensures |r| <= room && forall i :: 0 <= i < |r| ==> |r[i]| <= 255
  {
    if order == [] || room == 0 then []
    else if |order[0]| <= 255 then [order[0]] + Sendable(order[1..], room - 1)
    else Sendable(order[1..], room)
  }

  function WriteAddresses(addresses: seq<Bytes>): Bytes
    requires forall i :: 0 <= i < |addresses| ==> |addresses[i]| <= 255
  {
    if addresses == [] then [] else [|addresses[0]|] + addresses[0] + WriteAddresses(addresses[1..])
  }

  function ReadAddresses(count: nat, s: Bytes): Option<(seq<Bytes>, Bytes)> {
    if count == 0 then Some(([], s))
    else
      var (length, s) :- ReadU8(s);
      var (a, s) :- ReadBytes(length, s);
      var (rest, s) :- ReadAddresses(count - 1, s);
      Some(([a] + rest, s))
  }

  lemma {:induction false} AddressesRoundTrip(addresses: seq<Bytes>, rest: Bytes)
    requires forall i :: 0 <= i < |addresses| ==> |addresses[i]| <= 255
    ensures ReadAddresses(|addresses|, WriteAddresses(addresses) + rest) == Some((addresses, rest))
  {
    if addresses == [] {
      assert WriteAddresses(addresses) + rest == rest;
    } else {
      var a := addresses[0];
      var tail := WriteAddresses(addresses[1..]) + rest;
      assert WriteAddresses(addresses) + rest == [|a|] + (a + tail);
      assert ([|a|] + (a + tail))[1..] == a + tail;
      ReadWrittenBytes(a, tail);
      AddressesRoundTrip(addresses[1..], rest);
      assert addresses == [a] + addresses[1..];
    }
  }

  /** `order` walks the set once. */
  predicate Enumerates<T(==)>(order: seq<T>, s: set<T>) {
    Distinct(order) && (forall x :: x in order ==> x in s) && (forall x :: x in s ==> x in order)
  }

  /** When every address is short, the first `room` of them are sent. */
  lemma {:induction false} SendablePrefix(order: seq<Bytes>, room: nat)
    requires forall i :: 0 <= i < |order| ==> |order[i]| <= 255
    ensures Sendable(order, room) == if room <= |order| then order[..room] else order
  {
    if order != [] && room > 0 {
      SendablePrefix(order[1..], room - 1);
      assert order == [order[0]] + order[1..];
    }
  }

  /** A client receives a node's whole address set exactly when it fits: 255 addresses of 255 bytes. */
  lemma AllAddressesDelivered(order: seq<Bytes>, addresses: set<Bytes>)
    requires Enumerates(order, addresses)
    ensures (set a | a in Sendable(order, 255)) == addresses
       <==> |order| <= 255 && forall a :: a in addresses ==> |a| <= 255
  {
    var sent := set a | a in Sendable(order, 255);
    if i :| 0 <= i < |order| && |order[i]| > 255 {
      assert order[i] in addresses && order[i] !in sent;
    } else {
      SendablePrefix(order, 255);
      assert forall a :: a in addresses ==> |a| <= 255;
      if |order| > 255 {
        assert order[255] in addresses && order[255] !in order[..255];
      }
    }
  }

  // ---------------------------------------------------------------------------------------------
  // Node records
  // ---------------------------------------------------------------------------------------------

  predicate SendsAddresses(s: NodeSerializationStrategy) {
    s.FullDetails? || (s.MutatedOnly? && s.addresses)
  }

  predicate SendsFeatures(s: NodeSerializationStrategy) {
    s.FullDetails? || (s.MutatedOnly? && s.features)
  }

  /** What a blob says about one node. */
  datatype WireNode = WireNode(id: NodeId, addresses: Option<seq<Bytes>>, features: Option<Features>, reminder: bool)

  /** The record's content for a node with the given strategy and latest features, addresses in iteration order. */
  function NodeMeaning(
    id: NodeId, s: Option<NodeSerializationStrategy>, features: Features, order: seq<Bytes>): WireNode
  {
    match s
    case None => WireNode(id, None, None, false)
    case Some(strategy) =>
      WireNode(id,
        if SendsAddresses(strategy) then Some(Sendable(order, 255)) else None,
        if SendsFeatures(strategy) then Some(features) else None,
        strategy.ReminderOnly?)
  }

  /** The first position of `f` among the defaults. */
  function Position(defaults: seq<Features>, f: Features): (i: Option<nat>)
    ensures i.Some? <==> f in defaults
    ensures i.Some? ==> i.value < |defaults| && defaults[i.value] == f
  {
    if defaults == [] then None
    else if defaults[0] == f then Some(0)
    else
      var rest := Position(defaults[1..], f);
      if rest.Some? then Some(rest.value + 1) else None
  }

  /** 0 for no features, 1 to 6 for a default, 7 for features written out. */
  function FeatureCode(features: Option<Features>, defaults: seq<Features>): (code: nat)
    requires |defaults| <= 6
    ensures code < 8
  {
    if features.None? then 0
    else
      var i := Position(defaults, features.value);
      if i.Some? then i.value + 1 else 7
  }

  /** Bits 6, 5 to 3, 2 and 1 to 0 of a record's first byte. */
  function NodeFirstByte(odd: bool, addresses: bool, code: nat, reminder: bool): (b: U8)
    requires code < 8
  {
    ((Num(reminder) * 8 + code) * 2 + Num(addresses)) * 4 + 2 + Num(odd)
  }

  /** A record that a writer may produce and a reader will accept. */
  predicate WritableNode(w: WireNode) {
    && |w.id.coordinate| == 32
    && (w.addresses.Some? ==>
          |w.addresses.value| <= 255 && forall i :: 0 <= i < |w.addresses.value| ==> |w.addresses.value[i]| <= 255)
  }

  function NodeRecord(w: WireNode, defaults: seq<Features>): Bytes
    requires WritableNode(w) && |defaults| <= 6
  {
    [NodeFirstByte(w.id.odd, w.addresses.Some?, FeatureCode(w.features, defaults), w.reminder)]
    + w.id.coordinate
    + (if w.addresses.Some? then [|w.addresses.value|] + WriteAddresses(w.addresses.value) else [])
    + (if FeatureCode(w.features, defaults) == 7 then WriteFeatures(w.features.value) else [])
  }

  function ReadOptionalAddresses(present: bool, s: Bytes): Option<(Option<seq<Bytes>>, Bytes)> {
    if present then
      var (count, s) :- ReadU8(s);
      var (addresses, s) :- ReadAddresses(count, s);
      Some((Some(addresses), s))
    else Some((None, s))
  }

  function ReadFeaturesByCode(code: nat, defaults: seq<Features>, s: Bytes): Option<(Option<Features>, Bytes)> {
    if code == 0 then Some((None, s))
    else if code == 7 then
      var (f, s) :- ReadFeatures(s);
      Some((Some(f), s))
    else if code - 1 < |defaults| then Some((Some(defaults[code - 1]), s))
    else None
  }

  /** The client's reader of a node record; bit 7 announces extra data, which no writer sends. */
  function ReadNode(defaults: seq<Features>, s: Bytes): Option<(WireNode, Bytes)> {
    var (b, s) :- ReadU8(s);
    var (coordinate, s) :- ReadBytes(32, s);
    if b % 4 < 2 || b / 4 / 2 / 8 > 1 then None
    else
      var (addresses, s) :- ReadOptionalAddresses(b / 4 % 2 == 1, s);
      var (features, s) :- ReadFeaturesByCode(b / 4 / 2 % 8, defaults, s);
      Some((WireNode(NodeId(b % 4 == 3, coordinate), addresses, features, b / 4 / 2 / 8 == 1), s))
  }

  lemma NodeFirstByteRoundTrip(odd: bool, addresses: bool, code: nat, reminder: bool)
    requires code < 8
    ensures var b := NodeFirstByte(odd, addresses, code, reminder);
      && b % 4 >= 2 && (b % 4 == 3) == odd && (b / 4 % 2 == 1) == addresses
      && b / 4 / 2 % 8 == code && b / 4 / 2 / 8 == Num(reminder)
  {
    var b := NodeFirstByte(odd, addresses, code, reminder);
    var r3 := Num(reminder) * 8 + code;
    var r2 := r3 * 2 + Num(addresses);
    assert b == r2 * 4 + 2 + Num(odd) && b / 4 == r2;
    assert r2 / 2 == r3 && r3 / 8 == Num(reminder);
  }

  lemma OptionalAddressesRoundTrip(o: Option<seq<Bytes>>, rest: Bytes)
    requires o.Some? ==> |o.value| <= 255 && forall i :: 0 <= i < |o.value| ==> |o.value[i]| <= 255
    ensures ReadOptionalAddresses(o.Some?, (if o.Some? then [|o.value|] + WriteAddresses(o.value) else []) + rest)
         == Some((o, rest))
  {
    if o.Some? {
      var tail := WriteAddresses(o.value) + rest;
      assert [|o.value|] + WriteAddresses(o.value) + rest == [|o.value|] + tail;
      assert ([|o.value|] + tail)[1..] == tail;
      AddressesRoundTrip(o.value, rest);
    } else {
      assert [] + rest == rest;
    }
  }

  lemma FeaturesByCodeRoundTrip(f: Option<Features>, defaults: seq<Features>, rest: Bytes)
    requires |defaults| <= 6
    ensures var code := FeatureCode(f, defaults);
      ReadFeaturesByCode(code, defaults, (if code == 7 then WriteFeatures(f.value) else []) + rest) == Some((f, rest))
  {
    hide WriteFeatures, ReadFeatures;
    if FeatureCode(f, defaults) == 7 {
      ReadWrittenFeatures(f.value, rest);
    } else {
      assert [] + rest == rest;
    }
  }

  lemma NodeRoundTrip(w: WireNode, defaults: seq<Features>, rest: Bytes)
    requires WritableNode(w) && |defaults| <= 6
    ensures ReadNode(defaults, NodeRecord(w, defaults) + rest) == Some((w, rest))
  {
    hide ReadOptionalAddresses, ReadFeaturesByCode, WriteAddresses, WriteFeatures, NodeFirstByte;
    var code := FeatureCode(w.features, defaults);
    var b := NodeFirstByte(w.id.odd, w.addresses.Some?, code, w.reminder);
    var a: Bytes := if w.addresses.Some? then [|w.addresses.value|] + WriteAddresses(w.addresses.value) else [];
    var f: Bytes := if code == 7 then WriteFeatures(w.features.value) else [];
    NodeFirstByteRoundTrip(w.id.odd, w.addresses.Some?, code, w.reminder);
    Regroup([b], w.id.coordinate, a, f, rest);
    assert ([b] + (w.id.coordinate + (a + (f + rest))))[1..] == w.id.coordinate + (a + (f + rest));
    ReadWrittenBytes(w.id.coordinate, a + (f + rest));
    OptionalAddressesRoundTrip(w.addresses, f + rest);
    FeaturesByCodeRoundTrip(w.features, defaults, rest);
  }

  lemma Regroup(a: Bytes, b: Bytes, c: Bytes, d: Bytes, e: Bytes)
    ensures a + b + c + d + e == a + (b + (c + (d + e)))
  {
  }

  /** Bitwise OR with a three-bit code shifted to bits 5 to 3. */
  function OrCode(b: U8, code: nat): U8
    requires code < 8
  {
    var b := if code % 2 == 1 then SetBit(b, 8) else b;
    var b := if code / 2 % 2 == 1 then SetBit(b, 16) else b;
    if code / 4 == 1 then SetBit(b, 32) else b
  }

  lemma OrCodeFresh(low: nat, code: nat)
    requires code < 8 && low < 8
    ensures OrCode(low, code) == low + 8 * code
  {
  }

  lemma NextAddress(order: seq<Bytes>, n: nat, room: nat)
    requires n < |order|
    ensures room == 0 ==> Sendable(order[n..], room) == []
    ensures room > 0 && |order[n]| <= 255 ==>
      var rest := Sendable(order[n + 1..], room - 1);
      && |Sendable(order[n..], room)| == 1 + |rest|
      && WriteAddresses(Sendable(order[n..], room)) == [|order[n]|] + order[n] + WriteAddresses(rest)
    ensures |order[n]| > 255 ==> Sendable(order[n..], room) == Sendable(order[n + 1..], room)
  {
    assert order[n..][0] == order[n] && order[n..][1..] == order[n + 1..];
    if room > 0 && |order[n]| <= 255 {
      var rest := Sendable(order[n + 1..], room - 1);
      assert Sendable(order[n..], room) == [order[n]] + rest && ([order[n]] + rest)[1..] == rest;
    } else if room == 0 && |order[n]| > 255 {
      assert Sendable(order[n + 1..], 0) == [];
    }
  }

  /** Loop over one node's addresses in iteration order, stopping after 255. */
  method SerializeAddresses(order: seq<Bytes>) returns (count: U8, output: Bytes)
    ensures count == |Sendable(order, 255)| && output == WriteAddresses(Sendable(order, 255))
  {
    hide Sendable, WriteAddresses;
    count, output := 0, [];
    var n := 0;
    assert order[0..] == order;
    while n < |order|
      invariant n <= |order| && count <= 255
      invariant count + |Sendable(order[n..], 255 - count)| == |Sendable(order, 255)|
      invariant output + WriteAddresses(Sendable(order[n..], 255 - count)) == WriteAddresses(Sendable(order, 255))
    {
      NextAddress(order, n, 255 - count);
      if count == 255 {
        break;
      }
      if |order[n]| <= 255 {
        count := count + 1;
        output := output + ([|order[n]|] + order[n]);
      }
      n := n + 1;
    }
    NoAddress();
    assert n == |order| ==> order[n..] == [];
  }

  lemma NoAddress()
    ensures forall room :: Sendable([], room) == []
    ensures WriteAddresses([]) == []
  {
  }

  /**
   * The writer of a node record: the id first, then flag bits are ORed into its first byte while addresses
   * and features are appended.
   */
  method SerializeNode(
    id: NodeId, strategy: Option<NodeSerializationStrategy>, features: Features, order: seq<Bytes>,
    defaults: seq<Features>)
    returns (record: Bytes, addressesSent: bool, featuresSent: bool)
    requires |id.coordinate| == 32 && |defaults| <= 6
    ensures WritableNode(NodeMeaning(id, strategy, features, order))
    ensures record == NodeRecord(NodeMeaning(id, strategy, features, order), defaults)
    ensures addressesSent == NodeMeaning(id, strategy, features, order).addresses.Some?
    ensures featuresSent == NodeMeaning(id, strategy, features, order).features.Some?
  {
    hide Sendable, WriteAddresses, WriteFeatures, OrCode;
    var first: U8 := if id.odd then 3 else 2;
    var addressBytes: Bytes, featureBytes: Bytes := [], [];
    addressesSent, featuresSent := false, false;
    ghost var w := NodeMeaning(id, strategy, features, order);
    if strategy.Some? {
      if SendsAddresses(strategy.value) {
        var count, output := SerializeAddresses(order);
        first := SetBit(first, 4);
        addressBytes := [count] + output;
        addressesSent := true;
      }
      assert first == 2 + Num(id.odd) + 4 * Num(w.addresses.Some?);
      if SendsFeatures(strategy.value) {
        var i := Position(defaults, features);
        var code := if i.Some? then i.value + 1 else 7;
        OrCodeFresh(first, code);
        first := OrCode(first, code);
        if i.None? {
          featureBytes := WriteFeatures(features);
        }
        featuresSent := true;
      } else if !addressesSent && strategy.value.ReminderOnly? {
        first := SetBit(first, 64);
      }
    }
    assert first == NodeFirstByte(id.odd, w.addresses.Some?, FeatureCode(w.features, defaults), w.reminder);
    record := [first] + id.coordinate + addressBytes + featureBytes;
  }

  /** The addresses of at most 255 bytes, in order. */
  function Short(order: seq<Bytes>): seq<Bytes> {
    if order == [] then []
    else if |order[0]| <= 255 then [order[0]] + Short(order[1..])
    else Short(order[1..])
  }

  /** Sent are the short addresses, all of them or as many as there is room for. */
  lemma {:induction false} SendableExactly(order: seq<Bytes>, room: nat)
    ensures Sendable(order, room) == if |Short(order)| <= room then Short(order) else Short(order)[..room]
  {
    if order != [] {
      if |order[0]| <= 255 && room > 0 {
        SendableExactly(order[1..], room - 1);
      } else {
        SendableExactly(order[1..], room);
      }
    }
  }

  /** The bits of a record's first byte: parity, addresses, features by index, reminder. */
  lemma NodeFirstByteBits(odd: bool, addresses: bool, code: nat, reminder: bool)
    requires code < 8
    ensures NodeFirstByte(odd, addresses, code, reminder)
         == 2 + Num(odd) + (if addresses then 0x04 else 0) + 0x08 * code + (if reminder then 0x40 else 0)
  {
  }
}
