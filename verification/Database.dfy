/** The tables, the network graph, and the meaning of each SQL query over them. */
module Database {
  import opened Wrappers
  import opened GossipTypes

  /** A channel announcement with the second at which the server first stored it. */
  datatype SeenAnnouncement = SeenAnnouncement(seen: U32, announcement: ChannelAnnouncement)

  datatype UpdateRow = UpdateRow(
    id: int, scid: U64, direction: bool, timestamp: U32, seen: U32, update: ChannelUpdate)

  /** `channel_announcements`, which is unique per channel, and `channel_updates`. */
  datatype Tables = Tables(announcements: map<U64, SeenAnnouncement>, updates: set<UpdateRow>)

  /** A channel as the in-memory network graph knows it; a direction holds whether it is enabled. */
  datatype GraphChannel = GraphChannel(announced: bool, oneToTwo: Option<bool>, twoToOne: Option<bool>)

  type Graph = map<U64, GraphChannel>

  /** The columns of a row repeat its message, and only the two defined channel flags are set. */
  predicate ValidRow(r: UpdateRow) {
    && r.scid == r.update.scid
    && r.direction == DirectionOf(r.update.channelFlags)
    && r.timestamp == r.update.timestamp
    && r.update.channelFlags < 4
  }

  /** Valid rows, unique ids, and the unique index on (scid, direction, timestamp). */
  ghost predicate Valid(db: Tables) {
    && (forall r :: r in db.updates ==> ValidRow(r))
    && (forall a, b :: a in db.updates && b in db.updates && a.id == b.id ==> a == b)
    && (forall a, b :: a in db.updates && b in db.updates && Of(a, b.scid, b.direction) && a.timestamp == b.timestamp
          ==> a == b)
    && (forall k :: k in db.announcements ==> db.announcements[k].announcement.scid == k)
  }

  predicate Of(r: UpdateRow, k: U64, d: bool) {
    r.scid == k && r.direction == d
  }

  ghost predicate Row(db: Tables, r: UpdateRow, k: U64, d: bool) {
    r in db.updates && Of(r, k, d)
  }

  ghost predicate HasRow(db: Tables, k: U64, d: bool) {
    exists r :: Row(db, r, k, d)
  }

  ghost predicate HasBefore(db: Tables, sync: U32, k: U64, d: bool) {
    exists r :: Row(db, r, k, d) && r.seen < sync
  }

  ghost predicate HasSince(db: Tables, sync: U32, k: U64, d: bool) {
    exists r :: Row(db, r, k, d) && r.seen >= sync
  }

  ghost predicate ChannelHasSince(db: Tables, sync: U32, k: U64) {
    HasSince(db, sync, k, false) || HasSince(db, sync, k, true)
  }

  /** Channels of the graph that are announced and have both directions. */
  function ChannelIds(graph: Graph): set<U64> {
    set k | k in graph && graph[k].announced && graph[k].oneToTwo.Some? && graph[k].twoToOne.Some?
  }

  /** The bigint a 64-bit id is stored as. */
  function AsI64(n: U64): int {
    if n < 0x8000_0000_0000_0000 then n else n - 0x1_0000_0000_0000_0000
  }

  /** A last update before the sync: newest by `seen`, in a channel with some row since the sync. */
  ghost predicate IsReference(db: Tables, sync: U32, k: U64, d: bool, r: UpdateRow) {
    && Row(db, r, k, d) && r.seen < sync && ChannelHasSince(db, sync, k)
    && forall x :: Row(db, x, k, d) && x.seen < sync ==> x.seen <= r.seen
  }

  /** The update since the sync with the highest timestamp. */
  ghost predicate IsLatest(db: Tables, sync: U32, k: U64, d: bool, r: UpdateRow) {
    && Row(db, r, k, d) && r.seen >= sync
    && forall x :: Row(db, x, k, d) && x.seen >= sync ==> x.timestamp <= r.timestamp
  }

  /** The announcement query: one row per requested channel that has one, by ascending id. */
  ghost predicate AnnouncementQuery(db: Tables, ids: set<U64>, rows: seq<SeenAnnouncement>) {
    && (forall i, j :: 0 <= i < j < |rows| ==> AsI64(rows[i].announcement.scid) < AsI64(rows[j].announcement.scid))
    && (forall i :: 0 <= i < |rows| ==>
          var k := rows[i].announcement.scid; k in ids && k in db.announcements && db.announcements[k] == rows[i])
    && (forall k :: k in ids && k in db.announcements ==> db.announcements[k] in rows)
  }

  ghost predicate IsOldestSeen(db: Tables, k: U64, d: bool, t: U32) {
    && (exists r :: Row(db, r, k, d) && r.seen == t)
    && (forall r :: Row(db, r, k, d) ==> t <= r.seen)
  }

  /** The newer of a channel's per-direction oldest `seen` values. */
  ghost predicate IsFirstBidirectional(db: Tables, k: U64, t: U32) {
    && (exists d :: IsOldestSeen(db, k, d, t))
    && (forall d: bool, u: U32 :: IsOldestSeen(db, k, d, u) ==> u <= t)
  }

  /** The nested DISTINCT ON query: one row per requested channel completed at or after the sync. */
  ghost predicate FirstBidirectionalQuery(db: Tables, ids: set<U64>, sync: U32, rows: seq<(U64, U32)>) {
    && (forall i :: 0 <= i < |rows| ==>
          rows[i].0 in ids && IsFirstBidirectional(db, rows[i].0, rows[i].1) && rows[i].1 >= sync)
    && (forall i, j :: 0 <= i < j < |rows| ==> rows[i].0 != rows[j].0)
    && (forall k: U64, t: U32 :: k in ids && IsFirstBidirectional(db, k, t) && t >= sync ==> (k, t) in rows)
  }

  /** The reference query: one last update before the sync per direction that has one. */
  ghost predicate ReferenceQuery(db: Tables, sync: U32, rows: seq<UpdateRow>) {
    && (forall i :: 0 <= i < |rows| ==> IsReference(db, sync, rows[i].scid, rows[i].direction, rows[i]))
    && (forall i, j :: 0 <= i < j < |rows| ==> !Of(rows[i], rows[j].scid, rows[j].direction))
    && (forall k: U64, d: bool :: HasBefore(db, sync, k, d) && ChannelHasSince(db, sync, k) ==>
          exists r :: r in rows && Of(r, k, d))
  }

  predicate Sorted(rows: seq<UpdateRow>) {
    forall i, j :: 0 <= i < j < |rows| ==>
      || AsI64(rows[i].scid) < AsI64(rows[j].scid)
      || (rows[i].scid == rows[j].scid && rows[i].timestamp >= rows[j].timestamp)
  }

  /** The intermediate query: every row since the sync, by ascending channel and descending timestamp. */
  ghost predicate IntermediateQuery(db: Tables, sync: U32, rows: seq<UpdateRow>) {
    && Sorted(rows)
    && (forall i :: 0 <= i < |rows| ==> rows[i] in db.updates && rows[i].seen >= sync)
    && (forall i, j :: 0 <= i < j < |rows| ==> rows[i] != rows[j])
    && (forall r :: r in db.updates && r.seen >= sync ==> r in rows)
  }

  /** What the reminder query compares: the disable flag and the five routing values. */
  function Configuration(r: UpdateRow): (bool, RoutingValues) {
    (DisabledBy(r.update.channelFlags), r.update.values)
  }

  ghost predicate InWindow(db: Tables, from: int, k: U64, d: bool, r: UpdateRow) {
    Row(db, r, k, d) && r.seen >= from
  }

  /** One window partition: the rows of a direction inside the lookup window, by descending `seen`. */
  ghost predicate IsPartition(db: Tables, from: int, k: U64, d: bool, w: seq<UpdateRow>) {
    && (forall i :: 0 <= i < |w| ==> InWindow(db, from, k, d, w[i]))
    && (forall i, j :: 0 <= i < j < |w| ==> w[i] != w[j] && w[i].seen >= w[j].seen)
    && (forall r :: InWindow(db, from, k, d, r) ==> r in w)
  }

  /** The `lead` comparison, where a missing successor counts as distinct. */
  predicate HasDistinctSuccessor(w: seq<UpdateRow>, i: nat)
    requires i < |w|
  {
    i == |w| - 1 || Configuration(w[i]) != Configuration(w[i + 1])
  }

  ghost predicate PickedFrom(w: seq<UpdateRow>, r: UpdateRow) {
    && (exists i :: 0 <= i < |w| && w[i] == r && HasDistinctSuccessor(w, i))
    && (forall i :: 0 <= i < |w| && HasDistinctSuccessor(w, i) ==> w[i].timestamp <= r.timestamp)
  }

  /** The row DISTINCT ON keeps for a direction: the highest timestamp among those with a distinct successor. */
  ghost predicate IsPicked(db: Tables, from: int, k: U64, d: bool, r: UpdateRow) {
    exists w :: IsPartition(db, from, k, d, w) && PickedFrom(w, r)
  }

  /** The reminder query: one picked row per requested direction with a row inside the window. */
  ghost predicate ReminderQuery(db: Tables, ids: set<U64>, from: int, rows: seq<UpdateRow>) {
    && (forall i :: 0 <= i < |rows| ==>
          rows[i].scid in ids && IsPicked(db, from, rows[i].scid, rows[i].direction, rows[i]))
    && (forall i, j :: 0 <= i < j < |rows| ==> !Of(rows[i], rows[j].scid, rows[j].direction))
    && (forall k: U64, d: bool, r: UpdateRow :: k in ids && InWindow(db, from, k, d, r) ==>
          exists x :: x in rows && Of(x, k, d))
  }

  /** Within each direction of the channel a row stored later has a higher timestamp, and the other way round. */
  ghost predicate OrdersAgree(db: Tables, k: U64) {
    forall a, b, d: bool :: Row(db, a, k, d) && Row(db, b, k, d) ==> (a.seen < b.seen <==> a.timestamp < b.timestamp)
  }
}
