/** The schema upgrade as a crash-resumable transition system. */
module Migration {
  import opened Collections
  import opened GossipTypes

  const SCHEMA_VERSION: int := 15
  const BACKFILL_PERMITS: nat := 16

  /** A worker of the backfill: the channel it looks up, and whether it has written the amount. */
  datatype Worker = Worker(scid: U64, written: bool)

  /** The spawned job that fills in funding amounts. */
  datatype Backfill =
    | NotNeeded
    | Spawned
    | Streaming(remaining: set<U64>, permits: nat, workers: map<nat, Worker>, nextWorker: nat, amountLost: bool)
    | Constrained
    | Recorded
    | Aborted

  /** The server process; `start` is the schema it read when it came up. */
  datatype Process =
    | Down
    | Upgrading(start: int, next: int)
    | Running(start: int, accepted: bool, backfill: Backfill)

  /** The recorded schema, the steps committed so far, and the funding column of `channel_announcements`. */
  datatype State = State(
    schema: int, committed: seq<int>, scids: set<U64>, funded: set<U64>, notNull: bool, process: Process)

  datatype Action =
    | Start
    | Commit
    | SpawnBackfill
    | CheckSchema
    | Announce(scid: U64)
    | OpenStream
    | TakeScid(scid: U64)
    | WriteAmount(worker: nat)
    | DropPermit(worker: nat)
    | WorkerPanics(worker: nat)
    | Constrain
    | Record
    | Crash

  predicate Backfilling(s: State) {
    s.process.Running? && s.process.backfill.Streaming?
  }

  predicate Enabled(s: State, a: Action) {
    match a
    case Start => s.process.Down?
    case Commit => s.process.Upgrading? && s.process.next <= 14
    case SpawnBackfill => s.process.Upgrading? && s.process.next == 15
    case CheckSchema => s.process.Running? && !s.process.accepted
    case Announce(_) => s.process.Running? && s.process.accepted
    case OpenStream => s.process.Running? && s.process.backfill.Spawned?
    case TakeScid(k) => Backfilling(s) && k in s.process.backfill.remaining && s.process.backfill.permits > 0
    case WriteAmount(w) => Backfilling(s) && w in s.process.backfill.workers && !s.process.backfill.workers[w].written
    case DropPermit(w) => Backfilling(s) && w in s.process.backfill.workers && s.process.backfill.workers[w].written
    case WorkerPanics(w) => Backfilling(s) && w in s.process.backfill.workers
    case Constrain =>
      Backfilling(s) && s.process.backfill.remaining == {} && s.process.backfill.permits == BACKFILL_PERMITS
    case Record => s.process.Running? && s.process.backfill.Constrained?
    case Crash => !s.process.Down?
  }

  function WithBackfill(s: State, b: Backfill): State
    requires s.process.Running?
  {
    s.(process := s.process.(backfill := b))
  }

  /** The state after an enabled action. */
  function Do(s: State, a: Action): State
    requires Enabled(s, a)
  {
    match a
    case Start =>
      if 1 <= s.schema <= 14 then s.(process := Upgrading(s.schema, s.schema + 1))
      else s.(process := Running(s.schema, false, NotNeeded))
    case Commit =>
      // one transaction: the step and the new schema number
      s.(schema := s.process.next, committed := s.committed + [s.process.next],
         process := Upgrading(s.process.start, s.process.next + 1))
    case SpawnBackfill => s.(process := Running(s.process.start, false, Spawned))
    case CheckSchema =>
      // the schema read at the start decides, so an upgrade from 1 ends in a panic after all its steps
      if s.process.start <= 1 || s.process.start > SCHEMA_VERSION then s.(process := Down)
      else s.(process := s.process.(accepted := true))
    case Announce(k) =>
      if k in s.scids then s else s.(scids := s.scids + {k}, funded := s.funded + {k})
    case OpenStream => WithBackfill(s, Streaming(s.scids - s.funded, BACKFILL_PERMITS, map[], 0, false))
    case TakeScid(k) =>
      var b := s.process.backfill;
      WithBackfill(s, b.(
        remaining := b.remaining - {k}, permits := b.permits - 1,
        workers := b.workers[b.nextWorker := Worker(k, false)], nextWorker := b.nextWorker + 1))
    case WriteAmount(w) =>
      var b := s.process.backfill;
      WithBackfill(s, b.(workers := b.workers[w := b.workers[w].(written := true)]))
        .(funded := s.funded + ({b.workers[w].scid} * s.scids))
    case DropPermit(w) =>
      var b := s.process.backfill;
      WithBackfill(s, b.(workers := b.workers - {w}, permits := b.permits + 1))
    case WorkerPanics(w) =>
      // unwinding drops the permit as well; the write may have been committed although it seemed to fail
      var b := s.process.backfill;
      WithBackfill(s, b.(workers := b.workers - {w}, permits := b.permits + 1,
        amountLost := b.amountLost || !b.workers[w].written))
    case Constrain =>
      // the database refuses the constraint while a row has no amount, and the backfill panics
      if s.scids <= s.funded then WithBackfill(s, Constrained).(notNull := true) else WithBackfill(s, Aborted)
    case Record => WithBackfill(s, Recorded).(schema := SCHEMA_VERSION)
    case Crash => s.(process := Down)
  }

  // ---------------------------------------------------------------------------------------------
  // The invariant
  // ---------------------------------------------------------------------------------------------

  /** The integers from `lo` up to and including `hi`. */
  function Range(lo: int, hi: int): (r: seq<int>)
    ensures |r| == (if lo <= hi then hi - lo + 1 else 0)
    ensures forall i :: 0 <= i < |r| ==> r[i] == lo + i
    decreases hi - lo
  {
    if lo > hi then [] else [lo] + Range(lo + 1, hi)
  }

  lemma RangeExtends(lo: int, hi: int)
    requires lo <= hi + 1
    ensures Range(lo, hi + 1) == Range(lo, hi) + [hi + 1]
  {
  }

  function Steps(schema: int): int {
    if schema <= 14 then schema else 14
  }

  /** Every channel still without an amount is waiting in the stream or with a worker. */
  predicate Covered(s: State, b: Backfill)
    requires b.Streaming?
  {
    forall k :: k in s.scids && k !in s.funded ==>
      k in b.remaining || exists w :: w in b.workers && b.workers[w] == Worker(k, false)
  }

  /** Streamed channels are known and without an amount; workers hold distinct others, unfunded until they write. */
  predicate Apart(s: State, b: Backfill)
    requires b.Streaming?
  {
    && (forall k :: k in b.remaining ==> k in s.scids && k !in s.funded)
    && (forall w :: w in b.workers ==>
          && b.workers[w].scid in s.scids && b.workers[w].scid !in b.remaining
          && (!b.workers[w].written ==> b.workers[w].scid !in s.funded))
    && (forall v, w :: v in b.workers && w in b.workers && v != w ==> b.workers[v].scid != b.workers[w].scid)
  }

  /** A channel without an amount that nobody is going to write any more. */
  predicate IsLost(s: State, b: Backfill, k: U64)
    requires b.Streaming?
  {
    k in s.scids && k !in s.funded && k !in b.remaining && forall w :: w in b.workers ==> b.workers[w].scid != k
  }

  predicate Lost(s: State, b: Backfill)
    requires b.Streaming?
  {
    exists k :: IsLost(s, b, k)
  }

  predicate BackfillInv(s: State, b: Backfill)
    requires b.Streaming?
  {
    && b.permits + |b.workers| == BACKFILL_PERMITS
    && (forall w :: w in b.workers ==> w < b.nextWorker)
    && Apart(s, b)
    && (if b.amountLost then Lost(s, b) else Covered(s, b))
  }

  predicate ProcessInv(s: State) {
    match s.process
    case Down => true
    case Upgrading(start, next) => 1 <= start < next == s.schema + 1 && next <= 15
    case Running(start, _, backfill) =>
      match backfill
      case NotNeeded => s.schema == start
      case Spawned => s.schema == 14
      case Streaming(_, _, _, _, _) => s.schema == 14 && BackfillInv(s, backfill)
      case Constrained => s.schema == 14 && s.notNull
      case Recorded => s.schema == 15
      case Aborted => s.schema == 14
  }

  /** `first` is the schema the database had before the first upgrade. */
  predicate Inv(s: State, first: int) {
    && 1 <= first <= 14 && first <= s.schema <= SCHEMA_VERSION
    && s.committed == Range(first + 1, Steps(s.schema))
    && s.funded <= s.scids
    && (s.notNull ==> s.scids <= s.funded)
    && (s.schema == SCHEMA_VERSION ==> s.notNull)
    && (!s.process.Down? ==> first <= s.process.start <= SCHEMA_VERSION)
    && ProcessInv(s)
  }

  predicate Initial(s: State, first: int) {
    && 1 <= first <= 14 && s.schema == first && s.committed == [] && s.funded == {} && !s.notNull && s.process.Down?
  }

  lemma InitialInv(s: State, first: int)
    requires Initial(s, first)
    ensures Inv(s, first)
  {
  }

  lemma CoveredAfterTake(s: State, k: U64)
    requires Enabled(s, TakeScid(k)) && BackfillInv(s, s.process.backfill) && Covered(s, s.process.backfill)
    ensures Covered(Do(s, TakeScid(k)), Do(s, TakeScid(k)).process.backfill)
  {
    var b := s.process.backfill;
    var b' := Do(s, TakeScid(k)).process.backfill;
    forall x | x in s.scids && x !in s.funded
      ensures x in b'.remaining || exists w :: w in b'.workers && b'.workers[w] == Worker(x, false)
    {
      if x == k {
        assert b'.workers[b.nextWorker] == Worker(k, false);
      } else if x !in b.remaining {
        var w :| w in b.workers && b.workers[w] == Worker(x, false);
        assert b'.workers[w] == Worker(x, false);
      }
    }
  }

  lemma CoveredAfterWrite(s: State, w: nat)
    requires Enabled(s, WriteAmount(w)) && Covered(s, s.process.backfill)
    ensures Covered(Do(s, WriteAmount(w)), Do(s, WriteAmount(w)).process.backfill)
  {
    var b := s.process.backfill;
    var s' := Do(s, WriteAmount(w));
    forall x | x in s'.scids && x !in s'.funded
      ensures x in b.remaining ||
        exists v :: v in s'.process.backfill.workers && s'.process.backfill.workers[v] == Worker(x, false)
    {
      if x !in b.remaining {
        var v :| v in b.workers && b.workers[v] == Worker(x, false);
        assert v != w;
        assert s'.process.backfill.workers[v] == Worker(x, false);
      }
    }
  }

  lemma CoveredAfterLeave(s: State, a: Action)
    requires Enabled(s, a) && (a.DropPermit? || a.WorkerPanics?) && s.process.backfill.workers[a.worker].written
    requires Covered(s, s.process.backfill)
    ensures Covered(Do(s, a), Do(s, a).process.backfill)
  {
    var b := s.process.backfill;
    var b' := Do(s, a).process.backfill;
    forall x | x in s.scids && x !in s.funded && x !in b.remaining
      ensures exists v :: v in b'.workers && b'.workers[v] == Worker(x, false)
    {
      var v :| v in b.workers && b.workers[v] == Worker(x, false);
      assert v in b'.workers;
    }
  }

  predicate IsWork(a: Action) {
    a.TakeScid? || a.WriteAmount? || a.DropPermit? || a.WorkerPanics?
  }

  lemma WorkKeepsApart(s: State, a: Action)
    requires Enabled(s, a) && IsWork(a)
    requires Apart(s, s.process.backfill)
    requires forall w :: w in s.process.backfill.workers ==> w < s.process.backfill.nextWorker
    ensures Apart(Do(s, a), Do(s, a).process.backfill)
  {
  }

  /** What is lost stays lost, and a panic loses the channel at hand. */
  lemma WorkKeepsLost(s: State, a: Action)
    requires Enabled(s, a) && IsWork(a) && Apart(s, s.process.backfill)
    requires Do(s, a).process.backfill.amountLost && (s.process.backfill.amountLost ==> Lost(s, s.process.backfill))
    ensures Lost(Do(s, a), Do(s, a).process.backfill)
  {
    var b := s.process.backfill;
    var k := if b.amountLost then var x: U64 :| IsLost(s, b, x); x else b.workers[a.worker].scid;
    assert IsLost(Do(s, a), Do(s, a).process.backfill, k);
  }

  lemma WorkKeepsCounts(s: State, a: Action)
    requires Enabled(s, a) && IsWork(a)
    requires var b := s.process.backfill;
      b.permits + |b.workers| == BACKFILL_PERMITS && forall w :: w in b.workers ==> w < b.nextWorker
    ensures var b := Do(s, a).process.backfill;
      b.permits + |b.workers| == BACKFILL_PERMITS && forall w :: w in b.workers ==> w < b.nextWorker
  {
    var b := s.process.backfill;
    match a
    case TakeScid(k) => ReplaceSize(b.workers, b.nextWorker, Worker(k, false));
    case WriteAmount(w) => ReplaceSize(b.workers, w, b.workers[w].(written := true));
    case DropPermit(w) => RemoveSize(b.workers, w);
    case WorkerPanics(w) => RemoveSize(b.workers, w);
  }

  lemma BackfillStepKeepsInv(s: State, a: Action, first: int)
    requires Inv(s, first) && Enabled(s, a) && IsWork(a)
    ensures Inv(Do(s, a), first)
  {
    hide Covered, Lost, Apart, Range;
    var b := s.process.backfill;
    WorkKeepsCounts(s, a);
    WorkKeepsApart(s, a);
    if Do(s, a).process.backfill.amountLost {
      WorkKeepsLost(s, a);
    } else if a.TakeScid? {
      CoveredAfterTake(s, a.scid);
    } else if a.WriteAmount? {
      CoveredAfterWrite(s, a.worker);
    } else {
      CoveredAfterLeave(s, a);
    }
  }

  lemma AnnounceKeepsInv(s: State, k: U64, first: int)
    requires Inv(s, first) && Enabled(s, Announce(k))
    ensures Inv(Do(s, Announce(k)), first)
  {
    hide Range;
    if Backfilling(s) {
      var b := s.process.backfill;
      assert !b.amountLost ==> Covered(Do(s, Announce(k)), b);
      if b.amountLost {
        var lost :| IsLost(s, b, lost);
        assert IsLost(Do(s, Announce(k)), b, lost);
      }
    }
  }

  lemma SameColumn(s: State, s': State, b: Backfill)
    requires b.Streaming? && s'.scids == s.scids && s'.funded == s.funded && BackfillInv(s, b)
    ensures BackfillInv(s', b)
  {
    if b.amountLost {
      var lost :| IsLost(s, b, lost);
      assert IsLost(s', b, lost);
    }
  }

  lemma FreshStream(s: State)
    requires Enabled(s, OpenStream)
    ensures BackfillInv(Do(s, OpenStream), Do(s, OpenStream).process.backfill)
  {
  }

  lemma StepKeepsInv(s: State, a: Action, first: int)
    requires Inv(s, first) && Enabled(s, a)
    ensures Inv(Do(s, a), first)
  {
    if IsWork(a) {
      BackfillStepKeepsInv(s, a, first);
    } else if a.Announce? {
      AnnounceKeepsInv(s, a.scid, first);
    } else {
      hide Range, BackfillInv;
      if a.Commit? {
        RangeExtends(first + 1, s.schema);
      } else if a.OpenStream? {
        FreshStream(s);
      } else if a.CheckSchema? && Backfilling(s) {
        SameColumn(s, Do(s, a), s.process.backfill);
      }
    }
  }

  // ---------------------------------------------------------------------------------------------
  // Runs
  // ---------------------------------------------------------------------------------------------

  predicate Feasible(s: State, actions: seq<Action>)
    decreases actions
  {
    actions == [] || (Enabled(s, actions[0]) && Feasible(Do(s, actions[0]), actions[1..]))
  }

  function Execute(s: State, actions: seq<Action>): State
    requires Feasible(s, actions)
    decreases actions
  {
    if actions == [] then s else Execute(Do(s, actions[0]), actions[1..])
  }

  lemma {:induction false} RunKeepsInv(s: State, actions: seq<Action>, first: int)
    requires Inv(s, first) && Feasible(s, actions)
    ensures Inv(Execute(s, actions), first)
    decreases actions
  {
    hide Inv, Do, Enabled;
    if actions != [] {
      StepKeepsInv(s, actions[0], first);
      RunKeepsInv(Do(s, actions[0]), actions[1..], first);
    }
  }

  /**
   * From any schema 1 to 14 and through any crashes, restarts and worker failures: the committed steps are
   * consecutive, each committed once, and the amount is required, and schema 15 recorded, only when every row
   * has one.
   */
  lemma MigrationIsSafe(s: State, actions: seq<Action>, first: int)
    requires Initial(s, first) && Feasible(s, actions)
    ensures var end := Execute(s, actions);
      && first <= end.schema <= 15
      && (forall i :: 0 <= i < |end.committed| ==> end.committed[i] == first + 1 + i)
      && |end.committed| == (if end.schema <= 14 then end.schema else 14) - first
      && (end.notNull ==> end.scids <= end.funded)
      && (end.schema == 15 ==> end.notNull)
      && (Backfilling(end) ==> end.process.backfill.permits + |end.process.backfill.workers| == 16)
  {
    InitialInv(s, first);
    RunKeepsInv(s, actions, first);
  }

  /**
   * Whenever all sixteen permits are held and the stream is empty, every amount is written, and the constraint
   * accepted, exactly if no worker of this backfill has panicked before its write was committed.
   */
  lemma PermitsAreABarrier(s: State, actions: seq<Action>, first: int)
    requires Initial(s, first) && Feasible(s, actions) && Enabled(Execute(s, actions), Constrain)
    ensures var end := Execute(s, actions);
      && (end.scids <= end.funded <==> !end.process.backfill.amountLost)
      && (Do(end, Constrain).notNull <==> !end.process.backfill.amountLost)
  {
    InitialInv(s, first);
    RunKeepsInv(s, actions, first);
    hide Execute, Feasible, Range;
    var end := Execute(s, actions);
    var b := end.process.backfill;
    assert |b.workers| == 0;
    assert b.workers.Keys == {};
    assert end.notNull ==> end.scids <= end.funded;
    if b.amountLost {
      var k :| IsLost(end, b, k);
    } else {
      assert Covered(end, b);
    }
  }

  /** A worker that panics gives its permit back, so the barrier opens early; the database then refuses. */
  lemma BarrierOpensAfterPanic()
    ensures exists s: State, actions: seq<Action> ::
      && Initial(s, 14) && Feasible(s, actions) && Enabled(Execute(s, actions), Constrain)
      && !(Execute(s, actions).scids <= Execute(s, actions).funded)
      && Do(Execute(s, actions), Constrain).process.backfill.Aborted? && Do(Execute(s, actions), Constrain).schema == 14
  {
    var s0 := State(14, [], {1}, {}, false, Down);
    var s1 := Do(s0, Start);
    var s2 := Do(s1, SpawnBackfill);
    var s3 := Do(s2, OpenStream);
    assert 1 in s3.process.backfill.remaining;
    var s4 := Do(s3, TakeScid(1));
    assert s4.process.backfill.remaining == {};
    var s5 := Do(s4, WorkerPanics(0));
    assert Initial(s0, 14) && Enabled(s5, Constrain) && Do(s5, Constrain).process.backfill.Aborted?;
    assert 1 in s5.scids && 1 !in s5.funded;
    hide Do, Enabled, Initial;
    var a4 := Before(s4, WorkerPanics(0), []);
    var a3 := Before(s3, TakeScid(1), a4);
    var a2 := Before(s2, OpenStream, a3);
    var a1 := Before(s1, SpawnBackfill, a2);
    var a0 := Before(s0, Start, a1);
    assert Execute(s0, a0) == s5;
  }

  lemma Before(s: State, a: Action, actions: seq<Action>) returns (longer: seq<Action>)
    requires Enabled(s, a) && Feasible(Do(s, a), actions)
    ensures Feasible(s, longer) && Execute(s, longer) == Execute(Do(s, a), actions)
  {
    longer := [a] + actions;
    assert longer[1..] == actions;
  }

  /** The state after the transactional steps that are left. */
  function Upgraded(s: State): State
    requires s.process.Upgrading? && s.process.next <= 15
  {
    if s.process.next == 15 then s
    else s.(schema := 14, committed := s.committed + Range(s.process.next, 14),
            process := Upgrading(s.process.start, 15))
  }

  lemma {:induction false} CommitTheRest(s: State, rest: seq<Action>) returns (actions: seq<Action>)
    requires s.process.Upgrading? && s.process.next <= 15 && Feasible(Upgraded(s), rest)
    ensures Feasible(s, actions) && Execute(s, actions) == Execute(Upgraded(s), rest)
    decreases 15 - s.process.next
  {
    if s.process.next == 15 {
      actions := rest;
    } else {
      var s' := Do(s, Commit);
      assert Upgraded(s') == Upgraded(s) by {
        assert Range(s.process.next, 14) == [s.process.next] + Range(s.process.next + 1, 14);
        assert s.process.next == 14 ==> Range(15, 14) == [];
        assert s'.committed + Range(s'.process.next, 14) == s.committed + Range(s.process.next, 14);
      }
      hide Upgraded, Do, Enabled, Range;
      actions := CommitTheRest(s', rest);
      actions := Before(s, Commit, actions);
    }
  }

  /** From schema 1 the upgrade commits every step, and then its own check of the schema it read first panics. */
  lemma UpgradeFromOnePanics(s: State) returns (actions: seq<Action>)
    requires Initial(s, 1)
    ensures Feasible(s, actions) && Enabled(Execute(s, actions), CheckSchema)
    ensures var end := Execute(s, actions);
      && end.schema == 14 && end.committed == Range(2, 14) && end.process == Running(1, false, Spawned)
      && Do(end, CheckSchema) == end.(process := Down)
  {
    var s1 := Do(s, Start);
    var s2 := Upgraded(s1);
    assert s2.committed == Range(2, 14);
    var s3 := Do(s2, SpawnBackfill);
    assert Enabled(s, Start) && Enabled(s2, SpawnBackfill) && Enabled(s3, CheckSchema)
      && Do(s3, CheckSchema).process.Down?;
    hide Do, Enabled, Upgraded, Range;
    actions := Before(s2, SpawnBackfill, []);
    actions := CommitTheRest(s1, actions);
    actions := Before(s, Start, actions);
    assert Execute(s, actions) == s3;
  }

  /** A run after which the schema check panics. */
  predicate CheckPanicsAfter(s: State, actions: seq<Action>) {
    && Feasible(s, actions) && Enabled(Execute(s, actions), CheckSchema)
    && Do(Execute(s, actions), CheckSchema).process.Down?
  }

  /** The check can panic, in whatever run with whatever crashes, exactly when the database began at schema 1. */
  lemma CheckPanicsExactly(s: State, first: int)
    requires Initial(s, first)
    ensures (exists actions :: CheckPanicsAfter(s, actions)) <==> first == 1
  {
    if first == 1 {
      var actions := UpgradeFromOnePanics(s);
      hide Execute, Feasible, Range;
      assert CheckPanicsAfter(s, actions);
    }
    if actions :| CheckPanicsAfter(s, actions) {
      InitialInv(s, first);
      RunKeepsInv(s, actions, first);
      hide Execute, Feasible, Range;
      assert Execute(s, actions).process.start == 1;
    }
  }
}
