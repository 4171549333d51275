/** Every query has an answer over every valid table, so nothing stated about answers is void. */
module QueryAnswers {
  import opened Collections
  import opened GossipTypes
  import opened Database
  import opened Lookup
  import opened AnnouncementLookup
  import opened NodeLookup
  import opened Server

  // ---------------------------------------------------------------------------------------------
  // Choosing and ordering rows
  // ---------------------------------------------------------------------------------------------

  /** The elements once each, by ascending key. */
  ghost predicate OrderedBy<T(!new)>(s: set<T>, key: T -> int, rows: seq<T>) {
    && (forall x :: x in rows <==> x in s)
    && (forall i, j :: 0 <= i < j < |rows| ==> rows[i] != rows[j] && key(rows[i]) <= key(rows[j]))
  }

  lemma {:induction false} SortBy<T(!new)>(s: set<T>, key: T -> int) returns (rows: seq<T>)
    ensures OrderedBy(s, key, rows)
    decreases |s|
  {
    if s == {} {
      rows := [];
    } else {
      var m := LeastBy(s, key);
      var rest := SortBy(s - {m}, key);
      rows := [m] + rest;
      forall i, j | 0 <= i < j < |rows|
        ensures rows[i] != rows[j] && key(rows[i]) <= key(rows[j])
      {
        assert rows[j] == rest[j - 1] && rest[j - 1] in rest;
        assert i > 0 ==> rows[i] == rest[i - 1];
      }
      forall x
        ensures x in rows <==> x in s
      {
        assert x in rows <==> x == m || x in rest;
      }
    }
  }

  /** One row that qualifies for each key. */
  ghost predicate OneEach<K(!new), R(!new)>(keys: set<K>, keyOf: R -> K, qualifies: (K, R) -> bool, rows: seq<R>) {
    && (forall i :: 0 <= i < |rows| ==> keyOf(rows[i]) in keys && qualifies(keyOf(rows[i]), rows[i]))
    && (forall i, j :: 0 <= i < j < |rows| ==> keyOf(rows[i]) != keyOf(rows[j]))
    && (forall k :: k in keys ==> exists r :: r in rows && keyOf(r) == k)
  }

  lemma {:induction false} PickEach<K(!new), R(!new)>(keys: set<K>, keyOf: R -> K, qualifies: (K, R) -> bool)
    returns (rows: seq<R>)
    requires forall k :: k in keys ==> exists r :: keyOf(r) == k && qualifies(k, r)
    ensures OneEach(keys, keyOf, qualifies, rows)
    decreases |keys|
  {
    if keys == {} {
      rows := [];
    } else {
      var k :| k in keys;
      var r :| keyOf(r) == k && qualifies(k, r);
      var rest := PickEach(keys - {k}, keyOf, qualifies);
      rows := [r] + rest;
      forall i, j | 0 <= i < j < |rows|
        ensures keyOf(rows[i]) != keyOf(rows[j])
      {
        assert rows[j] == rest[j - 1];
        assert i > 0 ==> rows[i] == rest[i - 1];
      }
      forall x | x in keys
        ensures exists y :: y in rows && keyOf(y) == x
      {
        if x == k {
          assert r in rows;
        } else {
          assert x in keys - {k};
          var y :| y in rest && keyOf(y) == x;
          assert y in rows;
        }
      }
    }
  }

  // ---------------------------------------------------------------------------------------------
  // Channel queries
  // ---------------------------------------------------------------------------------------------

  lemma AnnouncementsAnswered(db: Tables, ids: set<U64>) returns (rows: seq<SeenAnnouncement>)
    requires Valid(db)
    ensures AnnouncementQuery(db, ids, rows)
  {
    var all := set k | k in ids && k in db.announcements :: db.announcements[k];
    var key := (a: SeenAnnouncement) => AsI64(a.announcement.scid);
    rows := SortBy(all, key);
    forall i | 0 <= i < |rows|
      ensures var k := rows[i].announcement.scid; k in ids && k in db.announcements && db.announcements[k] == rows[i]
    {
      assert rows[i] in all;
    }
    forall i, j | 0 <= i < j < |rows|
      ensures AsI64(rows[i].announcement.scid) < AsI64(rows[j].announcement.scid)
    {
      assert key(rows[i]) <= key(rows[j]) && rows[i] != rows[j];
    }
    assert forall k :: k in ids && k in db.announcements ==> db.announcements[k] in all;
  }

  lemma FirstUpdatesAnswered(db: Tables, ids: set<U64>, sync: U32) returns (rows: seq<(U64, U32)>)
    ensures FirstBidirectionalQuery(db, ids, sync, rows)
  {
    hide IsFirstBidirectional, CompletedSince;
    var keys := set k | k in ids && CompletedSince(db, sync, k);
    var keyOf := (p: (U64, U32)) => p.0;
    var qualifies := (k: U64, p: (U64, U32)) => IsFirstBidirectional(db, k, p.1) && p.1 >= sync;
    forall k | k in keys
      ensures exists p :: keyOf(p) == k && qualifies(k, p)
    {
      FirstBidirectionalMeaning(db, sync, k);
      var t: U32 :| IsFirstBidirectional(db, k, t) && t >= sync;
      assert keyOf((k, t)) == k && qualifies(k, (k, t));
    }
    rows := PickEach(keys, keyOf, qualifies);
    forall k: U64, t: U32 | k in ids && IsFirstBidirectional(db, k, t) && t >= sync
      ensures (k, t) in rows
    {
      FirstBidirectionalMeaning(db, sync, k);
      assert k in keys;
      var p :| p in rows && keyOf(p) == k;
      assert IsFirstBidirectional(db, k, p.1);
      FirstBidirectionalUnique(db, k, t, p.1);
    }
    forall i | 0 <= i < |rows|
      ensures rows[i].0 in ids && IsFirstBidirectional(db, rows[i].0, rows[i].1) && rows[i].1 >= sync
    {
      assert keyOf(rows[i]) in keys && qualifies(keyOf(rows[i]), rows[i]);
    }
    forall i, j | 0 <= i < j < |rows|
      ensures rows[i].0 != rows[j].0
    {
      assert keyOf(rows[i]) != keyOf(rows[j]);
    }
  }

  lemma FirstBidirectionalUnique(db: Tables, k: U64, t: U32, u: U32)
    requires IsFirstBidirectional(db, k, t) && IsFirstBidirectional(db, k, u)
    ensures t == u
  {
  }

  /** A row's channel and direction. */
  function DirectionKey(r: UpdateRow): (U64, bool) {
    (r.scid, r.direction)
  }

  lemma ReferenceExists(db: Tables, sync: U32, k: U64, d: bool) returns (r: UpdateRow)
    requires HasBefore(db, sync, k, d) && ChannelHasSince(db, sync, k)
    ensures IsReference(db, sync, k, d, r)
  {
    var rows := set x | x in db.updates && Of(x, k, d) && x.seen < sync;
    var w :| Row(db, w, k, d) && w.seen < sync;
    assert w in rows;
    r := LeastBy(rows, (x: UpdateRow) => 0 - x.seen as int);
    assert forall x :: Row(db, x, k, d) && x.seen < sync ==> x in rows;
  }

  lemma ReferencesAnswered(db: Tables, sync: U32) returns (rows: seq<UpdateRow>)
    ensures ReferenceQuery(db, sync, rows)
  {
    hide IsReference, ChannelHasSince;
    var all := set r | r in db.updates :: DirectionKey(r);
    var keys := set p: (U64, bool) | p in all && HasBefore(db, sync, p.0, p.1) && ChannelHasSince(db, sync, p.0);
    var qualifies := (p: (U64, bool), r: UpdateRow) => IsReference(db, sync, p.0, p.1, r);
    forall p | p in keys
      ensures exists r :: DirectionKey(r) == p && qualifies(p, r)
    {
      var r := ReferenceExists(db, sync, p.0, p.1);
      ReferenceIsOwn(db, sync, p.0, p.1, r);
      assert DirectionKey(r) == p && qualifies(p, r);
    }
    rows := PickEach(keys, DirectionKey, qualifies);
    forall i | 0 <= i < |rows|
      ensures IsReference(db, sync, rows[i].scid, rows[i].direction, rows[i])
    {
      assert qualifies(DirectionKey(rows[i]), rows[i]);
    }
    forall i, j | 0 <= i < j < |rows|
      ensures !Of(rows[i], rows[j].scid, rows[j].direction)
    {
      assert DirectionKey(rows[i]) != DirectionKey(rows[j]);
    }
    forall k: U64, d: bool | HasBefore(db, sync, k, d) && ChannelHasSince(db, sync, k)
      ensures exists r :: r in rows && Of(r, k, d)
    {
      var w :| Row(db, w, k, d) && w.seen < sync;
      assert DirectionKey(w) in all;
      assert (k, d) in keys;
      var r :| r in rows && DirectionKey(r) == (k, d);
    }
  }

  lemma ReferenceIsOwn(db: Tables, sync: U32, k: U64, d: bool, r: UpdateRow)
    requires IsReference(db, sync, k, d, r)
    ensures DirectionKey(r) == (k, d)
  {
  }

  lemma IntermediatesAnswered(db: Tables, sync: U32) returns (rows: seq<UpdateRow>)
    ensures IntermediateQuery(db, sync, rows)
  {
    var all := set r | r in db.updates && r.seen >= sync;
    var key := (r: UpdateRow) => AsI64(r.scid) * 0x1_0000_0000 - r.timestamp;
    rows := SortBy(all, key);
    forall i, j | 0 <= i < j < |rows|
      ensures AsI64(rows[i].scid) < AsI64(rows[j].scid)
           || (rows[i].scid == rows[j].scid && rows[i].timestamp >= rows[j].timestamp)
    {
      assert key(rows[i]) <= key(rows[j]);
    }
    forall i | 0 <= i < |rows|
      ensures rows[i] in db.updates && rows[i].seen >= sync
    {
      assert rows[i] in all;
    }
  }

  lemma PartitionExists(db: Tables, from: int, k: U64, d: bool) returns (w: seq<UpdateRow>)
    ensures IsPartition(db, from, k, d, w)
  {
    var all := set r | r in db.updates && Of(r, k, d) && r.seen >= from;
    var key := (r: UpdateRow) => 0 - r.seen as int;
    w := SortBy(all, key);
    forall i, j | 0 <= i < j < |w|
      ensures w[i] != w[j] && w[i].seen >= w[j].seen
    {
      assert key(w[i]) <= key(w[j]);
    }
    forall i | 0 <= i < |w|
      ensures InWindow(db, from, k, d, w[i])
    {
      assert w[i] in all;
    }
    assert forall r :: InWindow(db, from, k, d, r) ==> r in all;
  }

  lemma PickExists(db: Tables, from: int, k: U64, d: bool, x: UpdateRow) returns (r: UpdateRow)
    requires InWindow(db, from, k, d, x)
    ensures IsPicked(db, from, k, d, r) && Of(r, k, d)
  {
    var w := PartitionExists(db, from, k, d);
    assert x in w;
    var last := |w| - 1;
    assert HasDistinctSuccessor(w, last);
    var starts := set i | 0 <= i < |w| && HasDistinctSuccessor(w, i);
    assert last in starts;
    hide HasDistinctSuccessor;
    var i := LeastBy(starts, (i: int) => if 0 <= i < |w| then 0 - w[i].timestamp as int else 0);
    r := w[i];
    assert InWindow(db, from, k, d, w[i]);
    assert forall j :: 0 <= j < |w| && HasDistinctSuccessor(w, j) ==> j in starts;
    assert PickedFrom(w, r);
  }

  lemma RemindersAnswered(db: Tables, ids: set<U64>, from: int) returns (rows: seq<UpdateRow>)
    ensures ReminderQuery(db, ids, from, rows)
  {
    hide IsPicked;
    var keys := set r | r in db.updates && r.scid in ids && r.seen >= from :: DirectionKey(r);
    var qualifies := (p: (U64, bool), r: UpdateRow) => IsPicked(db, from, p.0, p.1, r);
    forall p | p in keys
      ensures exists r :: DirectionKey(r) == p && qualifies(p, r)
    {
      var x :| x in db.updates && x.scid in ids && x.seen >= from && DirectionKey(x) == p;
      var r := PickExists(db, from, p.0, p.1, x);
      assert DirectionKey(r) == p && qualifies(p, r);
    }
    rows := PickEach(keys, DirectionKey, qualifies);
    forall i | 0 <= i < |rows|
      ensures rows[i].scid in ids && IsPicked(db, from, rows[i].scid, rows[i].direction, rows[i])
    {
      assert DirectionKey(rows[i]) in keys && qualifies(DirectionKey(rows[i]), rows[i]);
    }
    forall i, j | 0 <= i < j < |rows|
      ensures !Of(rows[i], rows[j].scid, rows[j].direction)
    {
      assert DirectionKey(rows[i]) != DirectionKey(rows[j]);
    }
    forall k: U64, d: bool, r: UpdateRow | k in ids && InWindow(db, from, k, d, r)
      ensures exists x :: x in rows && Of(x, k, d)
    {
      assert DirectionKey(r) in keys;
      var x :| x in rows && DirectionKey(x) == (k, d);
    }
  }

  // ---------------------------------------------------------------------------------------------
  // Node queries
  // ---------------------------------------------------------------------------------------------

  lemma NodeReferenceExists(table: set<NodeRow>, sync: U32, n: NodeId, x: NodeRow) returns (r: NodeRow)
    requires x in table && x.publicKey == n && x.seen < sync
    ensures IsNodeReference(table, sync, n, r)
  {
    var rows := set y | y in table && y.publicKey == n && y.seen < sync;
    assert x in rows;
    r := LeastBy(rows, (y: NodeRow) => 0 - y.seen as int);
    assert forall y :: y in table && y.publicKey == n && y.seen < sync ==> y in rows;
  }

  lemma NodeReferencesAnswered(table: set<NodeRow>, ids: set<NodeId>, sync: U32) returns (rows: seq<NodeRow>)
    ensures NodeReferenceQuery(table, ids, sync, rows)
  {
    hide IsNodeReference;
    var keys := set x | x in table && x.publicKey in ids && x.seen < sync :: x.publicKey;
    var keyOf := (r: NodeRow) => r.publicKey;
    var qualifies := (n: NodeId, r: NodeRow) => IsNodeReference(table, sync, n, r);
    forall n | n in keys
      ensures exists r :: keyOf(r) == n && qualifies(n, r)
    {
      var x :| x in table && x.publicKey in ids && x.seen < sync && x.publicKey == n;
      var r := NodeReferenceExists(table, sync, n, x);
      NodeReferenceIsOwn(table, sync, n, r);
      assert keyOf(r) == n && qualifies(n, r);
    }
    rows := PickEach(keys, keyOf, qualifies);
    forall i | 0 <= i < |rows|
      ensures rows[i].publicKey in ids && IsNodeReference(table, sync, rows[i].publicKey, rows[i])
    {
      assert keyOf(rows[i]) in keys && qualifies(keyOf(rows[i]), rows[i]);
    }
    forall i, j | 0 <= i < j < |rows|
      ensures rows[i].publicKey != rows[j].publicKey
    {
      assert keyOf(rows[i]) != keyOf(rows[j]);
    }
    forall x | x in table && x.publicKey in ids && x.seen < sync
      ensures exists i :: 0 <= i < |rows| && rows[i].publicKey == x.publicKey
    {
      assert x.publicKey in keys;
      var r :| r in rows && keyOf(r) == x.publicKey;
      var i :| 0 <= i < |rows| && rows[i] == r;
    }
  }

  lemma NodeReferenceIsOwn(table: set<NodeRow>, sync: U32, n: NodeId, r: NodeRow)
    requires IsNodeReference(table, sync, n, r)
    ensures r.publicKey == n
  {
  }

  /** A group of one node's rows before groups of other nodes' rows. */
  lemma GroupsJoin(a: seq<NodeRow>, b: seq<NodeRow>, n: NodeId)
    requires GroupedDescending(b)
    requires forall i, j :: 0 <= i < j < |a| ==> a[i].timestamp >= a[j].timestamp
    requires forall i :: 0 <= i < |a| ==> a[i].publicKey == n
    requires forall i :: 0 <= i < |b| ==> b[i].publicKey != n
    ensures GroupedDescending(a + b)
  {
    var rows := a + b;
    forall i, j, l | 0 <= i < j < l < |rows| && rows[i].publicKey == rows[l].publicKey
      ensures rows[j].publicKey == rows[i].publicKey
    {
      if i >= |a| {
        assert rows[i] == b[i - |a|] && rows[j] == b[j - |a|] && rows[l] == b[l - |a|];
      } else {
        assert rows[i] == a[i] && (l >= |a| ==> rows[l] == b[l - |a|]);
        assert rows[j] == a[j];
      }
    }
  }

  lemma {:induction false} GroupRows(table: set<NodeRow>, keys: set<NodeId>) returns (rows: seq<NodeRow>)
    ensures GroupedDescending(rows) && forall x :: x in rows <==> x in table && x.publicKey in keys
    decreases |keys|
  {
    if keys == {} {
      rows := [];
    } else {
      var n :| n in keys;
      var rest := GroupRows(table, keys - {n});
      var own := set x | x in table && x.publicKey == n;
      var key := (x: NodeRow) => 0 - x.timestamp as int;
      var group := SortBy(own, key);
      assert forall i :: 0 <= i < |group| ==> group[i] in own;
      assert forall i :: 0 <= i < |rest| ==> rest[i] in rest;
      forall i, j | 0 <= i < j < |group|
        ensures group[i].timestamp >= group[j].timestamp
      {
        assert key(group[i]) <= key(group[j]);
      }
      rows := group + rest;
      GroupsJoin(group, rest, n);
      hide GroupedDescending;
      forall x
        ensures x in rows <==> x in table && x.publicKey in keys
      {
        assert x in rows <==> x in group || x in rest;
        assert x in group <==> x in own;
      }
    }
  }

  lemma NodeIntermediatesAnswered(table: set<NodeRow>, ids: set<NodeId>, from: int) returns (rows: seq<NodeRow>)
    ensures NodeIntermediateQuery(table, ids, from, rows)
  {
    hide GroupedDescending;
    var recent := set x | x in table && x.seen >= from;
    rows := GroupRows(recent, ids);
    forall i | 0 <= i < |rows|
      ensures rows[i] in table && rows[i].publicKey in ids && rows[i].seen >= from
    {
      assert rows[i] in rows;
    }
  }

  /** For every valid table, graph and time the database has an answer to all seven queries. */
  lemma AnswersExist(
    db: Tables, table: set<NodeRow>, graph: Graph, nodeGraph: map<NodeId, NodeInfo>, sync: U32, now: U32)
    returns (q: Answers)
    requires Valid(db) && now >= PRUNE_INTERVAL
    ensures Answered(db, table, graph, nodeGraph, sync, now, q)
  {
    hide Valid, AnnouncementQuery, FirstBidirectionalQuery, ReminderQuery, ReferenceQuery, IntermediateQuery;
    hide NodeReferenceQuery, NodeIntermediateQuery;
    var announcements := AnnouncementsAnswered(db, ChannelIds(graph));
    var firstUpdates := FirstUpdatesAnswered(db, ChannelIds(graph), sync);
    var reminders := RemindersAnswered(db, ChannelIds(graph), now - PRUNE_INTERVAL);
    var references := ReferencesAnswered(db, sync);
    var intermediates := IntermediatesAnswered(db, sync);
    var nodeReferences := NodeReferencesAnswered(table, nodeGraph.Keys, sync);
    var nodeIntermediates := NodeIntermediatesAnswered(table, nodeGraph.Keys, EffectiveThreshold(sync, now));
    q := Answers(announcements, firstUpdates, reminders, references, intermediates, nodeReferences, nodeIntermediates);
  }
}
