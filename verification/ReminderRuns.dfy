/** What the `lead` window query finds: the start of the newest run of one constant configuration. */
module ReminderRuns {
  import opened GossipTypes
  import opened Database
  import opened Lookup
  import opened AnnouncementLookup

  /** The rows agree on the disable bit of their flags and on the five routing values. */
  predicate Alike(a: UpdateRow, b: UpdateRow) {
    && a.update.channelFlags / 2 % 2 == b.update.channelFlags / 2 % 2
    && a.update.values.cltvExpiryDelta == b.update.values.cltvExpiryDelta
    && a.update.values.htlcMinimumMsat == b.update.values.htlcMinimumMsat
    && a.update.values.feeBaseMsat == b.update.values.feeBaseMsat
    && a.update.values.feeProportionalMillionths == b.update.values.feeProportionalMillionths
    && a.update.values.htlcMaximumMsat == b.update.values.htlcMaximumMsat
  }

  lemma ConfigurationMeaning(a: UpdateRow, b: UpdateRow)
    ensures Configuration(a) == Configuration(b) <==> Alike(a, b)
  {
  }

  /**
   * From `r` on, every row of the direction inside the window is like `r`, and the run reaches back no further:
   * before any older row lies a row that is not.
   */
  ghost predicate IsRunStart(db: Tables, from: int, k: U64, d: bool, r: UpdateRow) {
    && InWindow(db, from, k, d, r)
    && (forall x :: InWindow(db, from, k, d, x) && x.seen >= r.seen ==> Alike(x, r))
    && (forall y :: InWindow(db, from, k, d, y) && y.seen < r.seen ==>
          exists z :: InWindow(db, from, k, d, z) && y.seen <= z.seen < r.seen && !Alike(z, r))
  }

  lemma PartitionStrict(db: Tables, from: int, k: U64, d: bool, w: seq<UpdateRow>)
    requires Valid(db) && OrdersAgree(db, k) && IsPartition(db, from, k, d, w)
    ensures forall i, j :: 0 <= i < j < |w| ==> w[i].seen > w[j].seen && w[i].timestamp > w[j].timestamp
  {
    forall i, j | 0 <= i < j < |w|
      ensures w[i].seen > w[j].seen && w[i].timestamp > w[j].timestamp
    {
      assert InWindow(db, from, k, d, w[i]) && InWindow(db, from, k, d, w[j]);
      assert w[i].timestamp != w[j].timestamp;
    }
  }

  lemma {:induction false} ConstantUpTo(w: seq<UpdateRow>, i: nat, j: nat)
    requires j <= i < |w|
    requires forall n :: 0 <= n < i ==> !HasDistinctSuccessor(w, n)
    ensures Configuration(w[j]) == Configuration(w[i])
    decreases i - j
  {
    if j < i {
      assert !HasDistinctSuccessor(w, j);
      ConstantUpTo(w, i, j + 1);
    }
  }

  lemma NewerRowsAgree(db: Tables, from: int, k: U64, d: bool, w: seq<UpdateRow>, i: nat, x: UpdateRow)
    requires IsPartition(db, from, k, d, w) && i < |w| && InWindow(db, from, k, d, x) && x.seen >= w[i].seen
    requires forall n :: i < n < |w| ==> w[i].seen > w[n].seen
    requires forall n :: 0 <= n < i ==> !HasDistinctSuccessor(w, n)
    ensures Alike(x, w[i])
  {
    hide HasDistinctSuccessor, InWindow, Configuration, Alike;
    var j :| 0 <= j < |w| && w[j] == x;
    ConstantUpTo(w, i, j);
    ConfigurationMeaning(x, w[i]);
  }

  lemma OlderRowsSeparated(db: Tables, from: int, k: U64, d: bool, w: seq<UpdateRow>, i: nat, y: UpdateRow)
    requires IsPartition(db, from, k, d, w) && i < |w| && InWindow(db, from, k, d, y) && y.seen < w[i].seen
    requires HasDistinctSuccessor(w, i) && (i + 1 < |w| ==> w[i + 1].seen < w[i].seen)
    ensures exists z ::
      InWindow(db, from, k, d, z) && y.seen <= z.seen < w[i].seen && !Alike(z, w[i])
  {
    hide InWindow, Configuration, Alike;
    var j :| 0 <= j < |w| && w[j] == y;
    assert i < j;
    var z := w[i + 1];
    ConfigurationMeaning(z, w[i]);
    assert InWindow(db, from, k, d, z) && y.seen <= z.seen && !Alike(z, w[i]);
  }

  /** In a strictly descending partition, the first row with a distinct successor starts the newest run. */
  lemma FirstDistinctIsRunStart(db: Tables, from: int, k: U64, d: bool, w: seq<UpdateRow>, i: nat)
    requires IsPartition(db, from, k, d, w) && i < |w|
    requires forall m, n :: 0 <= m < n < |w| ==> w[m].seen > w[n].seen
    requires HasDistinctSuccessor(w, i) && forall n :: 0 <= n < i ==> !HasDistinctSuccessor(w, n)
    ensures IsRunStart(db, from, k, d, w[i])
  {
    hide Alike, InWindow, HasDistinctSuccessor, IsPartition;
    forall x | InWindow(db, from, k, d, x) && x.seen >= w[i].seen
      ensures Alike(x, w[i])
    {
      NewerRowsAgree(db, from, k, d, w, i, x);
    }
    forall y | InWindow(db, from, k, d, y) && y.seen < w[i].seen
      ensures exists z ::
        InWindow(db, from, k, d, z) && y.seen <= z.seen < w[i].seen && !Alike(z, w[i])
    {
      OlderRowsSeparated(db, from, k, d, w, i, y);
    }
    PartitionRow(db, from, k, d, w, i);
  }

  lemma PartitionRow(db: Tables, from: int, k: U64, d: bool, w: seq<UpdateRow>, i: nat)
    requires IsPartition(db, from, k, d, w) && i < |w|
    ensures InWindow(db, from, k, d, w[i])
  {
  }

  lemma PickedIsRunStart(db: Tables, from: int, k: U64, d: bool, r: UpdateRow)
    requires Valid(db) && OrdersAgree(db, k) && IsPicked(db, from, k, d, r)
    ensures IsRunStart(db, from, k, d, r)
  {
    hide Valid, OrdersAgree, IsPartition, HasDistinctSuccessor, IsRunStart;
    var w: seq<UpdateRow> :| IsPartition(db, from, k, d, w) && PickedFrom(w, r);
    PartitionStrict(db, from, k, d, w);
    var i :| 0 <= i < |w| && w[i] == r && HasDistinctSuccessor(w, i);
    FirstDistinctIsRunStart(db, from, k, d, w, i);
  }

  /** In some direction the newest run inside the window began before the threshold. */
  ghost predicate RunBeganBefore(db: Tables, from: int, threshold: int, k: U64) {
    exists d: bool, r :: IsRunStart(db, from, k, d, r) && r.seen < threshold
  }

  lemma RemindedMeaning(db: Tables, ids: set<U64>, from: int, threshold: int, reminders: seq<UpdateRow>, k: U64)
    requires Valid(db) && OrdersAgree(db, k) && ReminderQuery(db, ids, from, reminders) && k in ids
    ensures Reminded(reminders, threshold, k) <==> RunBeganBefore(db, from, threshold, k)
  {
    hide Valid, OrdersAgree, IsPicked, IsRunStart, InWindow;
    if Reminded(reminders, threshold, k) {
      var i :| 0 <= i < |reminders| && reminders[i].scid == k && reminders[i].seen < threshold;
      PickedIsRunStart(db, from, k, reminders[i].direction, reminders[i]);
    }
    if d: bool, r :| IsRunStart(db, from, k, d, r) && r.seen < threshold {
      RunStartInWindow(db, from, k, d, r);
      var x :| x in reminders && Of(x, k, d);
      PickedIsRunStart(db, from, k, d, x);
      RunStartUnique(db, from, k, d, r, x);
    }
  }

  lemma RunStartInWindow(db: Tables, from: int, k: U64, d: bool, r: UpdateRow)
    requires IsRunStart(db, from, k, d, r)
    ensures InWindow(db, from, k, d, r)
  {
  }

  lemma RunStartUnique(db: Tables, from: int, k: U64, d: bool, a: UpdateRow, b: UpdateRow)
    requires IsRunStart(db, from, k, d, a) && IsRunStart(db, from, k, d, b)
    ensures a.seen == b.seen
  {
    hide InWindow;
    assert Alike(a, b) <==> Alike(b, a);
  }

  /** A reminder is due exactly when, in some direction, the newest run within fourteen days began before six. */
  lemma ReminderMeaning(
    db: Tables, graph: Graph, sync: U32, now: U32, reminders: seq<UpdateRow>, k: U64)
    requires Valid(db) && OrdersAgree(db, k)
    requires ShouldIncludeReminders(sync, now) ==> ReminderQuery(db, ChannelIds(graph), now - PRUNE_INTERVAL, reminders)
    ensures IsReminded(graph, sync, now, reminders, k)
       <==> && ShouldIncludeReminders(sync, now)
            && k in ChannelIds(graph)
            && RunBeganBefore(db, now - 1_209_600, now - 518_400, k)
  {
    if ShouldIncludeReminders(sync, now) && k in ChannelIds(graph) {
      RemindedMeaning(db, ChannelIds(graph), now - PRUNE_INTERVAL, now - CHANNEL_REMINDER_AGE, reminders, k);
    }
  }
}
