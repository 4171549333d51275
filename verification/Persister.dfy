/** The gossip persister as a transition system: permits, pooled connections and out-of-order inserts. */
module Persister {
  import opened Collections
  import opened GossipTypes
  import opened Database
  import opened NodeLookup
  import Runs

  const INSERT_PARALLELISM: nat := 16

  datatype Message =
    | NodeMessage(node: NodeId, nodeTimestamp: U32, info: NodeInfo)
    | AnnouncementMessage(announcement: ChannelAnnouncement)
    | UpdateMessage(update: ChannelUpdate)

  predicate ValidMessage(m: Message) {
    m.UpdateMessage? ==> m.update.channelFlags < 4
  }

  /** The unique index of `channel_updates`. */
  datatype Key = Key(scid: U64, direction: bool, timestamp: U32)

  function KeyOf(u: ChannelUpdate): Key {
    Key(u.scid, DirectionOf(u.channelFlags), u.timestamp)
  }

  function RowKey(r: UpdateRow): Key {
    Key(r.scid, r.direction, r.timestamp)
  }

  /** What the receive loop is doing with the message at hand. */
  datatype Receiver =
    | Idle
    | Received(message: Message)
    | Permitted(message: Message)
    | Connected(message: Message, connection: nat)

  /** A spawned task that still owns its connection. */
  datatype Task = Task(message: Message, connection: nat, inserted: bool)

  datatype State = State(
    tables: Tables,
    nodes: multiset<(NodeId, U32, NodeInfo)>,
    nextId: int,
    clock: U32,
    receiver: Receiver,
    permits: nat,
    pool: seq<nat>,
    connectionCount: nat,
    tasks: map<nat, Task>,
    nextTask: nat,
    returning: nat,
    leaked: nat)

  datatype Action =
    | Receive(message: Message)
    | Acquire
    | Connect
    | Spawn
    | Insert(task: nat, at: U32)
    | ReturnConnection(task: nat)
    | ReleasePermit
    | FailBefore(task: nat)
    | FailAfter(task: nat, at: U32)

  // ---------------------------------------------------------------------------------------------
  // Inserts
  // ---------------------------------------------------------------------------------------------

  function KeysOf(db: Tables): set<Key> {
    set r | r in db.updates :: RowKey(r)
  }

  /** The columns of an update row, computed from the message. */
  function RowFor(u: ChannelUpdate, id: int, at: U32): UpdateRow {
    UpdateRow(id, u.scid, DirectionOf(u.channelFlags), u.timestamp, at, u)
  }

  /** One insert statement; conflicting channel rows are left as they are, node rows never conflict. */
  function Store(s: State, m: Message, at: U32): State {
    match m
    case NodeMessage(n, t, info) => s.(nodes := s.nodes + multiset{(n, t, info)}, clock := at)
    case AnnouncementMessage(a) =>
      if a.scid in s.tables.announcements then s.(clock := at)
      else s.(tables := s.tables.(announcements := s.tables.announcements[a.scid := SeenAnnouncement(at, a)]),
           clock := at)
    case UpdateMessage(u) =>
      var s := s.(nextId := s.nextId + 1, clock := at);
      if KeyOf(u) in KeysOf(s.tables) then s
      else s.(tables := s.tables.(updates := s.tables.updates + {RowFor(u, s.nextId - 1, at)}))
  }

  predicate Stored(s: State, m: Message) {
    match m
    case NodeMessage(n, t, info) => (n, t, info) in s.nodes
    case AnnouncementMessage(a) => a.scid in s.tables.announcements
    case UpdateMessage(u) => KeyOf(u) in KeysOf(s.tables)
  }

  // ---------------------------------------------------------------------------------------------
  // Steps
  // ---------------------------------------------------------------------------------------------

  /** Whether an action can happen; a task's insert cannot happen before the present. */
  predicate Enabled(s: State, a: Action) {
    match a
    case Receive(m) => s.receiver.Idle? && ValidMessage(m)
    case Acquire => s.receiver.Received? && s.permits > 0
    case Connect => s.receiver.Permitted?
    case Spawn => s.receiver.Connected?
    case Insert(t, at) => t in s.tasks && !s.tasks[t].inserted && at >= s.clock
    case ReturnConnection(t) => t in s.tasks && s.tasks[t].inserted
    case ReleasePermit => s.returning > 0
    case FailBefore(t) => t in s.tasks && !s.tasks[t].inserted
    case FailAfter(t, at) => t in s.tasks && !s.tasks[t].inserted && at >= s.clock
  }

  /** The state after an enabled action. A failed task panics: its connection is dropped, its permit never returned. */
  function Do(s: State, a: Action): State
    requires Enabled(s, a)
  {
    match a
    case Receive(m) => s.(receiver := Received(m))
    case Acquire => s.(receiver := Permitted(s.receiver.message), permits := s.permits - 1)
    case Connect =>
      if s.pool == [] then
        s.(receiver := Connected(s.receiver.message, s.connectionCount), connectionCount := s.connectionCount + 1)
      else
        var last := |s.pool| - 1;
        s.(receiver := Connected(s.receiver.message, s.pool[last]), pool := s.pool[..last])
    case Spawn =>
      var task := Task(s.receiver.message, s.receiver.connection, false);
      s.(receiver := Idle, tasks := s.tasks[s.nextTask := task], nextTask := s.nextTask + 1)
    case Insert(t, at) =>
      Store(s, s.tasks[t].message, at).(tasks := s.tasks[t := s.tasks[t].(inserted := true)])
    case ReturnConnection(t) =>
      s.(pool := s.pool + [s.tasks[t].connection], tasks := s.tasks - {t}, returning := s.returning + 1)
    case ReleasePermit => s.(returning := s.returning - 1, permits := s.permits + 1)
    case FailBefore(t) => s.(tasks := s.tasks - {t}, leaked := s.leaked + 1)
    case FailAfter(t, at) => Store(s, s.tasks[t].message, at).(tasks := s.tasks - {t}, leaked := s.leaked + 1)
  }

  // ---------------------------------------------------------------------------------------------
  // Permits and connections
  // ---------------------------------------------------------------------------------------------

  /** Tasks and the receive loop, as far as they hold a permit. */
  function Holders(s: State): nat {
    |s.tasks| + s.returning + Num(s.receiver.Permitted? || s.receiver.Connected?)
  }

  function LiveConnections(s: State): nat {
    |s.pool| + |s.tasks| + Num(s.receiver.Connected?)
  }

  predicate ConnectionsDistinct(s: State) {
    && (forall i, j :: 0 <= i < j < |s.pool| ==> s.pool[i] != s.pool[j])
    && (forall i :: 0 <= i < |s.pool| ==> s.pool[i] < s.connectionCount)
    && (forall t :: t in s.tasks ==> s.tasks[t].connection < s.connectionCount && s.tasks[t].connection !in s.pool)
    && (forall t, u :: t in s.tasks && u in s.tasks && t != u ==> s.tasks[t].connection != s.tasks[u].connection)
    && (s.receiver.Connected? ==>
          && s.receiver.connection < s.connectionCount && s.receiver.connection !in s.pool
          && forall t :: t in s.tasks ==> s.tasks[t].connection != s.receiver.connection)
  }

  predicate ResourcesInv(s: State) {
    && s.permits + Holders(s) + s.leaked == INSERT_PARALLELISM
    && LiveConnections(s) <= INSERT_PARALLELISM
    && ConnectionsDistinct(s)
    && (forall t :: t in s.tasks ==> t < s.nextTask)
  }

  /** Storing touches no permit, connection or task. */
  lemma StoreKeepsResources(s: State, m: Message, at: U32)
    ensures var s' := Store(s, m, at);
      && s'.receiver == s.receiver && s'.permits == s.permits && s'.pool == s.pool
      && s'.connectionCount == s.connectionCount
      && s'.tasks == s.tasks && s'.nextTask == s.nextTask && s'.returning == s.returning && s'.leaked == s.leaked
  {
  }

  predicate CountsKept(s: State) {
    s.permits + Holders(s) + s.leaked == INSERT_PARALLELISM && LiveConnections(s) <= INSERT_PARALLELISM
  }

  lemma ReceiverKeepsCounts(s: State, a: Action)
    requires ResourcesInv(s) && Enabled(s, a)
    requires (a.Receive? || a.Acquire? || a.Connect? || a.Spawn? || a.ReleasePermit?)
    ensures CountsKept(Do(s, a))
  {
    hide Store, ConnectionsDistinct;
    if a.Spawn? {
      assert s.nextTask !in s.tasks;
      ReplaceSize(s.tasks, s.nextTask, Task(s.receiver.message, s.receiver.connection, false));
    }
  }

  lemma InsertKeepsCounts(s: State, t: nat, at: U32)
    requires ResourcesInv(s) && Enabled(s, Insert(t, at))
    ensures CountsKept(Do(s, Insert(t, at)))
  {
    hide Store, ConnectionsDistinct;
    StoreKeepsResources(s, s.tasks[t].message, at);
    ReplaceSize(s.tasks, t, s.tasks[t].(inserted := true));
  }

  lemma LeaveKeepsCounts(s: State, a: Action)
    requires ResourcesInv(s) && Enabled(s, a) && (a.ReturnConnection? || a.FailBefore? || a.FailAfter?)
    ensures CountsKept(Do(s, a))
  {
    hide Store, ConnectionsDistinct;
    RemoveSize(s.tasks, a.task);
    if a.FailAfter? {
      StoreKeepsResources(s, s.tasks[a.task].message, a.at);
    }
  }

  lemma ReceiverKeepsDistinct(s: State, a: Action)
    requires ResourcesInv(s) && Enabled(s, a)
    requires (a.Receive? || a.Acquire? || a.Connect? || a.Spawn? || a.ReleasePermit?)
    ensures ConnectionsDistinct(Do(s, a)) && forall t :: t in Do(s, a).tasks ==> t < Do(s, a).nextTask
  {
    hide Store, Holders, LiveConnections;
  }

  lemma TaskKeepsDistinct(s: State, a: Action)
    requires ResourcesInv(s) && Enabled(s, a)
    requires a.Insert? || a.ReturnConnection? || a.FailBefore? || a.FailAfter?
    ensures ConnectionsDistinct(Do(s, a)) && forall t :: t in Do(s, a).tasks ==> t < Do(s, a).nextTask
  {
    hide Store, Holders, LiveConnections;
    if a.Insert? || a.FailAfter? {
      StoreKeepsResources(s, s.tasks[a.task].message, a.at);
    }
  }

  lemma StepKeepsResources(s: State, a: Action)
    requires ResourcesInv(s) && Enabled(s, a)
    ensures ResourcesInv(Do(s, a))
  {
    hide ConnectionsDistinct, Holders, LiveConnections, Do, Enabled;
    if a.Insert? {
      InsertKeepsCounts(s, a.task, a.at);
      TaskKeepsDistinct(s, a);
    } else if a.ReturnConnection? || a.FailBefore? || a.FailAfter? {
      LeaveKeepsCounts(s, a);
      TaskKeepsDistinct(s, a);
    } else {
      ReceiverKeepsCounts(s, a);
      ReceiverKeepsDistinct(s, a);
    }
  }

  // ---------------------------------------------------------------------------------------------
  // Data
  // ---------------------------------------------------------------------------------------------

  /** The message is on its way: in the hands of the receive loop, or of a task that has not inserted it yet. */
  predicate InFlight(s: State, m: Message) {
    || (!s.receiver.Idle? && s.receiver.message == m)
    || exists t :: t in s.tasks && !s.tasks[t].inserted && s.tasks[t].message == m
  }

  /** Valid tables with ids below the sequence, and nothing but valid messages on the way. */
  ghost predicate DataInv(s: State) {
    && Valid(s.tables)
    && (forall r :: r in s.tables.updates ==> r.id < s.nextId)
    && (!s.receiver.Idle? ==> ValidMessage(s.receiver.message))
    && (forall t :: t in s.tasks ==> ValidMessage(s.tasks[t].message))
  }

  /** The tables have only grown, by rows seen since `before`. */
  ghost predicate GrownFrom(before: State, s: State) {
    before.clock <= s.clock && Runs.Grows(before.tables, s.tables, before.clock)
  }

  lemma StoreKeepsTables(s: State, m: Message, at: U32)
    requires DataInv(s) && ValidMessage(m) && at >= s.clock
    ensures var s' := Store(s, m, at);
      && Valid(s'.tables) && (forall r :: r in s'.tables.updates ==> r.id < s'.nextId)
      && Stored(s', m) && GrownFrom(s, s')
      && (m.UpdateMessage? && KeyOf(m.update) !in KeysOf(s.tables) ==>
            exists r: UpdateRow :: r.update == m.update && r.seen == at
                     && s'.tables == s.tables.(updates := s.tables.updates + {r}))
      && (m.AnnouncementMessage? && m.announcement.scid !in s.tables.announcements ==>
            s'.tables.announcements
            == s.tables.announcements[m.announcement.scid := SeenAnnouncement(at, m.announcement)])
      && (Stored(s, m) && !m.NodeMessage? ==> s'.tables == s.tables)
  {
    if m.UpdateMessage? && KeyOf(m.update) !in KeysOf(s.tables) {
      var row := RowFor(m.update, s.nextId, at);
      var s' := Store(s, m, at);
      assert s'.tables.updates == s.tables.updates + {row};
      forall r | r in s.tables.updates && Of(r, row.scid, row.direction)
        ensures r.timestamp != row.timestamp
      {
        assert RowKey(r) in KeysOf(s.tables);
      }
      assert row in s'.tables.updates && RowKey(row) == KeyOf(m.update);
    }
  }

  lemma StoredSurvives(s: State, m: Message, at: U32, other: Message)
    requires Stored(s, other)
    ensures Stored(Store(s, m, at), other)
  {
    if m.UpdateMessage? && other.UpdateMessage? {
      var r :| r in s.tables.updates && RowKey(r) == KeyOf(other.update);
      assert r in Store(s, m, at).tables.updates;
    }
  }

  lemma StepKeepsData(s: State, a: Action)
    requires DataInv(s) && Enabled(s, a)
    ensures DataInv(Do(s, a)) && GrownFrom(s, Do(s, a))
  {
    if a.Insert? || a.FailAfter? {
      var m := s.tasks[a.task].message;
      StoreKeepsTables(s, m, a.at);
      StoreKeepsResources(s, m, a.at);
      hide Store, Stored, Valid, Runs.Grows;
    } else {
      hide Store, Valid;
    }
  }

  lemma InsertAccounts(s: State, a: Action, m: Message)
    requires DataInv(s) && Enabled(s, a) && (a.Insert? || a.FailAfter?)
    requires Stored(s, m) || InFlight(s, m)
    ensures Stored(Do(s, a), m) || InFlight(Do(s, a), m)
  {
    var mine := s.tasks[a.task].message;
    StoreKeepsTables(s, mine, a.at);
    StoreKeepsResources(s, mine, a.at);
    if Stored(s, m) {
      StoredSurvives(s, mine, a.at, m);
    }
    SameStored(Store(s, mine, a.at), Do(s, a), m);
    hide Store, Stored, DataInv, GrownFrom, Valid;
    if m != mine && exists t :: t in s.tasks && !s.tasks[t].inserted && s.tasks[t].message == m {
      var t :| t in s.tasks && !s.tasks[t].inserted && s.tasks[t].message == m;
      assert t in Do(s, a).tasks;
    }
  }

  /** A step loses no message unless a task fails before its insert. */
  lemma StepAccounts(s: State, a: Action, m: Message)
    requires ResourcesInv(s) && DataInv(s) && Enabled(s, a) && !a.FailBefore?
    requires Stored(s, m) || InFlight(s, m) || a == Receive(m)
    ensures Stored(Do(s, a), m) || InFlight(Do(s, a), m)
  {
    if a.Insert? || a.FailAfter? {
      InsertAccounts(s, a, m);
    } else {
      hide Store, Stored, DataInv, Holders, LiveConnections, ConnectionsDistinct;
      var s' := Do(s, a);
      SameStored(s, s', m);
      if exists t :: t in s.tasks && !s.tasks[t].inserted && s.tasks[t].message == m {
        var t :| t in s.tasks && !s.tasks[t].inserted && s.tasks[t].message == m;
        assert t in s'.tasks && s'.tasks[t] == s.tasks[t];
      }
      if a.Spawn? {
        assert s.nextTask in s'.tasks;
      }
    }
  }

  lemma SameStored(a: State, b: State, m: Message)
    requires a.tables == b.tables && a.nodes == b.nodes
    ensures Stored(a, m) == Stored(b, m)
  {
  }

  /** What a step stores is a message on the way, whole, with the time of the insert. */
  lemma StepStoresFlying(s: State, a: Action)
    requires Enabled(s, a)
    ensures var s' := Do(s, a);
      && (forall r :: r in s'.tables.updates && r !in s.tables.updates ==>
            InFlight(s, UpdateMessage(r.update)) && (a.Insert? || a.FailAfter?) && r.seen == a.at)
      && (forall k :: k in s'.tables.announcements && k !in s.tables.announcements ==>
            && InFlight(s, AnnouncementMessage(s'.tables.announcements[k].announcement))
            && (a.Insert? || a.FailAfter?) && s'.tables.announcements[k].seen == a.at)
      && (forall k :: k in s.tables.announcements ==>
            k in s'.tables.announcements && s'.tables.announcements[k] == s.tables.announcements[k])
      && (forall x :: x in s'.nodes && x !in s.nodes ==> InFlight(s, NodeMessage(x.0, x.1, x.2)))
  {
    if a.Insert? || a.FailAfter? {
      assert InFlight(s, s.tasks[a.task].message);
    }
  }

  // ---------------------------------------------------------------------------------------------
  // Runs
  // ---------------------------------------------------------------------------------------------

  predicate Feasible(s: State, actions: seq<Action>)
    decreases actions
  {
    actions == [] || (Enabled(s, actions[0]) && Feasible(Do(s, actions[0]), actions[1..]))
  }

  function Execute(s: State, actions: seq<Action>): State
    requires Feasible(s, actions)
    decreases actions
  {
    if actions == [] then s else Execute(Do(s, actions[0]), actions[1..])
  }

  /** Sixteen free permits, no connections, no tasks. */
  predicate Initial(s: State) {
    && s.receiver.Idle? && s.permits == INSERT_PARALLELISM && s.pool == [] && s.connectionCount == 0
    && s.tasks == map[] && s.nextTask == 0 && s.returning == 0 && s.leaked == 0
  }

  ghost predicate Inv(s: State) {
    ResourcesInv(s) && DataInv(s)
  }

  lemma GrowthTransitive(a: State, b: State, c: State)
    requires GrownFrom(a, b) && GrownFrom(b, c)
    ensures GrownFrom(a, c)
  {
  }

  /**
   * Under every interleaving, failures included: each of the sixteen permits is free, held or leaked, at most
   * sixteen connections live, no two users share one, and the tables stay valid and only grow.
   */
  lemma {:induction false} RunKeepsInv(s: State, actions: seq<Action>)
    requires Inv(s) && Feasible(s, actions)
    ensures Inv(Execute(s, actions)) && GrownFrom(s, Execute(s, actions))
    ensures var end := Execute(s, actions);
      end.permits + Holders(end) + end.leaked == 16 && LiveConnections(end) <= 16
    decreases actions
  {
    hide ResourcesInv, DataInv, Do, Enabled, GrownFrom;
    if actions != [] {
      var s' := Do(s, actions[0]);
      StepKeepsResources(s, actions[0]);
      StepKeepsData(s, actions[0]);
      RunKeepsInv(s', actions[1..]);
      GrowthTransitive(s, s', Execute(s, actions));
    } else {
      GrownFromSelf(s);
      SixteenPermits(s);
    }
  }

  lemma SixteenPermits(s: State)
    requires ResourcesInv(s)
    ensures s.permits + Holders(s) + s.leaked == 16 && LiveConnections(s) <= 16
  {
  }

  lemma GrownFromSelf(s: State)
    ensures GrownFrom(s, s)
  {
  }

  predicate NothingLost(actions: seq<Action>) {
    forall i :: 0 <= i < |actions| ==> !actions[i].FailBefore?
  }

  lemma {:induction false} RunAccounts(s: State, actions: seq<Action>, m: Message)
    requires Inv(s) && Feasible(s, actions) && NothingLost(actions)
    requires Stored(s, m) || InFlight(s, m) || Receive(m) in actions
    ensures Stored(Execute(s, actions), m) || InFlight(Execute(s, actions), m)
    decreases actions
  {
    hide ResourcesInv, DataInv, Do, Enabled, Stored, InFlight;
    if actions != [] {
      assert actions == [actions[0]] + actions[1..];
      var s' := Do(s, actions[0]);
      StepKeepsResources(s, actions[0]);
      StepKeepsData(s, actions[0]);
      if Stored(s, m) || InFlight(s, m) || actions[0] == Receive(m) {
        StepAccounts(s, actions[0], m);
      }
      RunAccounts(s', actions[1..], m);
    }
  }

  lemma FlyingWasReceived(s: State, a: Action, m: Message)
    requires Enabled(s, a) && InFlight(Do(s, a), m)
    ensures InFlight(s, m) || a == Receive(m)
  {
    if a.Insert? || a.FailAfter? {
      StoreKeepsResources(s, s.tasks[a.task].message, a.at);
      hide Store;
    } else {
      hide Store;
    }
  }

  /** The message was on the way at the start, or received during the run. */
  predicate Supplied(s: State, actions: seq<Action>, m: Message) {
    InFlight(s, m) || Receive(m) in actions
  }

  lemma SuppliedEarlier(s: State, actions: seq<Action>, m: Message)
    requires actions != [] && Enabled(s, actions[0]) && Supplied(Do(s, actions[0]), actions[1..], m)
    ensures Supplied(s, actions, m)
  {
    hide Do, Enabled, InFlight;
    assert actions == [actions[0]] + actions[1..];
    if InFlight(Do(s, actions[0]), m) {
      FlyingWasReceived(s, actions[0], m);
    }
  }

  /** Whatever the tables hold after a run they held before, or it is a message that was supplied. */
  ghost predicate Accounted(s: State, actions: seq<Action>, end: State) {
    && (forall r :: r in end.tables.updates ==>
          r in s.tables.updates || Supplied(s, actions, UpdateMessage(r.update)))
    && (forall k :: k in end.tables.announcements ==>
          || (k in s.tables.announcements && end.tables.announcements[k] == s.tables.announcements[k])
          || Supplied(s, actions, AnnouncementMessage(end.tables.announcements[k].announcement)))
    && (forall x :: x in end.nodes ==> x in s.nodes || Supplied(s, actions, NodeMessage(x.0, x.1, x.2)))
  }

  lemma {:induction false} RunIsAccounted(s: State, actions: seq<Action>)
    requires Feasible(s, actions)
    ensures Accounted(s, actions, Execute(s, actions))
    decreases actions
  {
    hide Do, Enabled, InFlight;
    if actions != [] {
      var s' := Do(s, actions[0]);
      RunIsAccounted(s', actions[1..]);
      StepStoresFlying(s, actions[0]);
      var end := Execute(s, actions);
      hide Execute, Feasible;
      forall m | Supplied(s', actions[1..], m)
        ensures Supplied(s, actions, m)
      {
        SuppliedEarlier(s, actions, m);
      }
      assert forall m :: InFlight(s, m) ==> Supplied(s, actions, m);
      hide Supplied;
    }
  }

  /**
   * From the start, under every interleaving and with any failures: every stored update, announcement and node
   * announcement was stored before, or is one that was received, unchanged.
   */
  lemma StoredAsReceived(s: State, actions: seq<Action>)
    requires Initial(s) && Feasible(s, actions)
    ensures var end := Execute(s, actions);
      && (forall r :: r in end.tables.updates ==>
            r in s.tables.updates || Receive(UpdateMessage(r.update)) in actions)
      && (forall k :: k in end.tables.announcements ==>
            || (k in s.tables.announcements && end.tables.announcements[k] == s.tables.announcements[k])
            || Receive(AnnouncementMessage(end.tables.announcements[k].announcement)) in actions)
      && (forall x :: x in end.nodes ==> x in s.nodes || Receive(NodeMessage(x.0, x.1, x.2)) in actions)
  {
    RunIsAccounted(s, actions);
    assert forall m :: !InFlight(s, m);
    hide Execute, Feasible, InFlight;
  }

  lemma InitialInv(s: State)
    requires Initial(s) && Valid(s.tables) && forall r :: r in s.tables.updates ==> r.id < s.nextId
    ensures Inv(s) && forall m :: !InFlight(s, m)
  {
  }

  ghost predicate AnnouncementReceived(actions: seq<Action>, k: U64) {
    exists a: ChannelAnnouncement :: a.scid == k && Receive(AnnouncementMessage(a)) in actions
  }

  /**
   * Once every task has finished, the stored keys are the initial ones and those of all received updates, and the
   * announced channels the initial and all received ones, whatever the order of completion.
   */
  lemma AllReceivedKeysStored(s: State, actions: seq<Action>)
    requires Initial(s) && Valid(s.tables) && (forall r :: r in s.tables.updates ==> r.id < s.nextId)
    requires Feasible(s, actions) && NothingLost(actions)
    requires Execute(s, actions).receiver.Idle? && Execute(s, actions).tasks == map[]
    ensures forall key :: key in KeysOf(Execute(s, actions).tables) <==>
      key in KeysOf(s.tables) || exists u :: KeyOf(u) == key && Receive(UpdateMessage(u)) in actions
    ensures forall k :: k in Execute(s, actions).tables.announcements <==>
      k in s.tables.announcements || AnnouncementReceived(actions, k)
    ensures Valid(Execute(s, actions).tables) && GrownFrom(s, Execute(s, actions))
  {
    InitialInv(s);
    RunKeepsInv(s, actions);
    StoredAsReceived(s, actions);
    AllAnnouncementsStored(s, actions);
    var end := Execute(s, actions);
    assert forall m :: !InFlight(end, m);
    assert Valid(end.tables);
    hide Execute, Feasible, Inv, InFlight, GrownFrom, Initial;
    forall key
      ensures key in KeysOf(end.tables) <==>
        key in KeysOf(s.tables) || exists u :: KeyOf(u) == key && Receive(UpdateMessage(u)) in actions
    {
      if key in KeysOf(end.tables) {
        var r :| r in end.tables.updates && RowKey(r) == key;
        RowKeyIsOwn(end.tables, r);
        if r in s.tables.updates {
          assert RowKey(r) in KeysOf(s.tables);
        } else {
          assert KeyOf(r.update) == key && Receive(UpdateMessage(r.update)) in actions;
        }
      }
      if u :| KeyOf(u) == key && Receive(UpdateMessage(u)) in actions {
        RunAccounts(s, actions, UpdateMessage(u));
      }
      if key in KeysOf(s.tables) {
        var r :| r in s.tables.updates && RowKey(r) == key;
        assert r in end.tables.updates by {
          GrownKeeps(s, end, r);
        }
      }
    }
  }

  lemma AllAnnouncementsStored(s: State, actions: seq<Action>)
    requires Inv(s) && Feasible(s, actions) && NothingLost(actions)
    requires Inv(Execute(s, actions)) && GrownFrom(s, Execute(s, actions))
    requires forall m :: !InFlight(s, m) && !InFlight(Execute(s, actions), m)
    ensures forall k :: k in Execute(s, actions).tables.announcements <==>
      k in s.tables.announcements || AnnouncementReceived(actions, k)
  {
    var end := Execute(s, actions);
    RunIsAccounted(s, actions);
    hide Execute, Feasible, InFlight;
    forall k
      ensures k in end.tables.announcements <==>
        k in s.tables.announcements || AnnouncementReceived(actions, k)
    {
      if k in end.tables.announcements && k !in s.tables.announcements {
        var a := end.tables.announcements[k].announcement;
        assert a.scid == k && Supplied(s, actions, AnnouncementMessage(a));
      }
      if AnnouncementReceived(actions, k) {
        var a: ChannelAnnouncement :| a.scid == k && Receive(AnnouncementMessage(a)) in actions;
        RunAccounts(s, actions, AnnouncementMessage(a));
      }
    }
  }

  lemma RowKeyIsOwn(db: Tables, r: UpdateRow)
    requires Valid(db) && r in db.updates
    ensures KeyOf(r.update) == RowKey(r)
  {
  }

  lemma GrownKeeps(s: State, end: State, r: UpdateRow)
    requires GrownFrom(s, end) && r in s.tables.updates
    ensures r in end.tables.updates
  {
  }

  // ---------------------------------------------------------------------------------------------
  // Conservation of node announcements
  // ---------------------------------------------------------------------------------------------

  /** Whether task `t` has still to insert `m`. */
  function Owed(tasks: map<nat, Task>, t: nat, m: Message): nat {
    Num(t in tasks && !tasks[t].inserted && tasks[t].message == m)
  }

  /** How many of the first `n` tasks have still to insert `m`. */
  function OwedBelow(tasks: map<nat, Task>, n: nat, m: Message): nat {
    if n == 0 then 0 else OwedBelow(tasks, n - 1, m) + Owed(tasks, n - 1, m)
  }

  /** How often `m` is on its way. */
  function Flying(s: State, m: Message): nat {
    OwedBelow(s.tasks, s.nextTask, m) + Num(!s.receiver.Idle? && s.receiver.message == m)
  }

  function ReceivedCount(actions: seq<Action>, m: Message): nat {
    if actions == [] then 0 else Num(actions[0] == Receive(m)) + ReceivedCount(actions[1..], m)
  }

  /** How often a task fails before it has inserted `m`. */
  function LostCount(s: State, actions: seq<Action>, m: Message): nat
    requires Feasible(s, actions)
    decreases actions
  {
    if actions == [] then 0
    else Num(LosesNow(s, actions[0], m)) + LostCount(Do(s, actions[0]), actions[1..], m)
  }

  predicate LosesNow(s: State, a: Action, m: Message)
    requires Enabled(s, a)
  {
    a.FailBefore? && s.tasks[a.task].message == m
  }

  lemma {:induction false} OwedChanges(before: map<nat, Task>, after: map<nat, Task>, t: nat, n: nat, m: Message)
    requires forall u: nat :: u != t ==> Owed(before, u, m) == Owed(after, u, m)
    ensures OwedBelow(after, n, m) - OwedBelow(before, n, m)
         == if t < n then Owed(after, t, m) - Owed(before, t, m) else 0
  {
    if n > 0 {
      OwedChanges(before, after, t, n - 1, m);
    }
  }

  function NodeCount(s: State, m: Message): nat
    requires m.NodeMessage?
  {
    s.nodes[(m.node, m.nodeTimestamp, m.info)]
  }

  lemma StoreCountsNode(s: State, stored: Message, at: U32, m: Message)
    requires m.NodeMessage?
    ensures NodeCount(Store(s, stored, at), m) == NodeCount(s, m) + Num(stored == m)
  {
  }

  lemma TaskConserves(s: State, a: Action, m: Message)
    requires ResourcesInv(s) && Enabled(s, a) && m.NodeMessage?
    requires a.Insert? || a.ReturnConnection? || a.FailBefore? || a.FailAfter?
    ensures NodeCount(Do(s, a), m) + Flying(Do(s, a), m) + Num(LosesNow(s, a, m)) == NodeCount(s, m) + Flying(s, m)
  {
    hide Store, ConnectionsDistinct, OwedBelow, Holders, LiveConnections;
    if a.Insert? || a.FailAfter? {
      StoreKeepsResources(s, s.tasks[a.task].message, a.at);
      StoreCountsNode(s, s.tasks[a.task].message, a.at, m);
    }
    OwedChanges(s.tasks, Do(s, a).tasks, a.task, s.nextTask, m);
  }

  lemma ReceiverConserves(s: State, a: Action, m: Message)
    requires ResourcesInv(s) && Enabled(s, a) && m.NodeMessage?
    requires a.Receive? || a.Acquire? || a.Connect? || a.Spawn? || a.ReleasePermit?
    ensures NodeCount(Do(s, a), m) + Flying(Do(s, a), m) == NodeCount(s, m) + Flying(s, m) + Num(a == Receive(m))
  {
    hide Store, ConnectionsDistinct, Holders, LiveConnections;
    if a.Spawn? {
      OwedChanges(s.tasks, Do(s, a).tasks, s.nextTask, s.nextTask, m);
    }
  }

  lemma {:induction false} RunConserves(s: State, actions: seq<Action>, m: Message)
    requires ResourcesInv(s) && Feasible(s, actions) && m.NodeMessage?
    ensures var end := Execute(s, actions);
      NodeCount(end, m) + Flying(end, m) + LostCount(s, actions, m)
      == NodeCount(s, m) + Flying(s, m) + ReceivedCount(actions, m)
    decreases actions
  {
    hide ResourcesInv, Do, Enabled, Flying, NodeCount, LosesNow;
    if actions != [] {
      var a := actions[0];
      StepKeepsResources(s, a);
      RunConserves(Do(s, a), actions[1..], m);
      if a.Insert? || a.ReturnConnection? || a.FailBefore? || a.FailAfter? {
        TaskConserves(s, a, m);
      } else {
        ReceiverConserves(s, a, m);
        assert !LosesNow(s, a, m) by {
          OnlyFailuresLose(s, a, m);
        }
      }
    }
  }

  lemma OnlyFailuresLose(s: State, a: Action, m: Message)
    requires Enabled(s, a)
    ensures LosesNow(s, a, m) ==> a.FailBefore?
  {
  }

  /**
   * Node rows never conflict: from the start, under every interleaving, a node announcement is stored once for each
   * time it is received, but for the copies still on their way and those whose task failed before its insert.
   */
  lemma NodesConserved(s: State, actions: seq<Action>, node: NodeId, t: U32, info: NodeInfo)
    requires Initial(s) && Feasible(s, actions)
    ensures var end, m := Execute(s, actions), NodeMessage(node, t, info);
      end.nodes[(node, t, info)] + Flying(end, m) + LostCount(s, actions, m)
      == s.nodes[(node, t, info)] + ReceivedCount(actions, m)
  {
    assert ResourcesInv(s) && Flying(s, NodeMessage(node, t, info)) == 0;
    RunConserves(s, actions, NodeMessage(node, t, info));
  }

  // ---------------------------------------------------------------------------------------------
  // Progress
  // ---------------------------------------------------------------------------------------------

  predicate Progresses(a: Action) {
    !a.Receive? && !a.FailBefore? && !a.FailAfter?
  }

  /** With a message waiting, something other than a failure can happen exactly while a permit has not leaked. */
  lemma WaitingMessageProgresses(s: State)
    requires ResourcesInv(s) && s.receiver.Received?
    ensures (exists a :: Progresses(a) && Enabled(s, a)) <==> s.leaked < INSERT_PARALLELISM
  {
    if s.leaked < INSERT_PARALLELISM {
      if s.permits > 0 {
        assert Progresses(Acquire) && Enabled(s, Acquire);
      } else if s.returning > 0 {
        assert Progresses(ReleasePermit) && Enabled(s, ReleasePermit);
      } else {
        assert |s.tasks| > 0;
        assert s.tasks.Keys != {};
        var t :| t in s.tasks;
        var a := if s.tasks[t].inserted then ReturnConnection(t) else Insert(t, s.clock);
        assert Progresses(a) && Enabled(s, a);
      }
    } else {
      assert |s.tasks| == 0 && s.tasks.Keys == {};
    }
  }

  lemma Before(s: State, a: Action, actions: seq<Action>) returns (longer: seq<Action>)
    requires Enabled(s, a) && Feasible(Do(s, a), actions)
    ensures Feasible(s, longer) && Execute(s, longer) == Execute(Do(s, a), actions)
  {
    longer := [a] + actions;
    assert longer[1..] == actions;
  }

  /** One message whose insert fails: the permit it took never comes back. */
  lemma FailedInsert(s: State, m: Message, rest: seq<Action>) returns (actions: seq<Action>)
    requires s.receiver.Idle? && s.permits > 0 && s.pool == [] && s.tasks == map[] && ValidMessage(m)
    requires var s' := s.(permits := s.permits - 1, connectionCount := s.connectionCount + 1,
                       nextTask := s.nextTask + 1,
                         leaked := s.leaked + 1);
      Feasible(s', rest)
    ensures var s' := s.(permits := s.permits - 1, connectionCount := s.connectionCount + 1, nextTask := s.nextTask + 1,
                        leaked := s.leaked + 1);
      Feasible(s, actions) && Execute(s, actions) == Execute(s', rest)
  {
    var s1 := Do(s, Receive(m));
    var s2 := Do(s1, Acquire);
    var s3 := Do(s2, Connect);
    var s4 := Do(s3, Spawn);
    var s5 := Do(s4, FailBefore(s.nextTask));
    assert s5.tasks == map[];
    assert s5 == s.(permits := s.permits - 1, connectionCount := s.connectionCount + 1, nextTask := s.nextTask + 1,
                    leaked := s.leaked + 1);
    hide Do, Enabled;
    actions := Before(s4, FailBefore(s.nextTask), rest);
    actions := Before(s3, Spawn, actions);
    actions := Before(s2, Connect, actions);
    actions := Before(s1, Acquire, actions);
    actions := Before(s, Receive(m), actions);
  }

  /** Failing inserts can use up all permits that are left. */
  lemma {:induction false} PermitsCanAllLeak(s: State, m: Message) returns (actions: seq<Action>)
    requires s.receiver.Idle? && s.pool == [] && s.tasks == map[] && ValidMessage(m)
    ensures Feasible(s, actions) && Execute(s, actions).leaked == s.leaked + s.permits
    decreases s.permits
  {
    if s.permits == 0 {
      actions := [];
    } else {
      hide Feasible, Execute;
      var s' := s.(permits := s.permits - 1, connectionCount := s.connectionCount + 1, nextTask := s.nextTask + 1,
                   leaked := s.leaked + 1);
      actions := PermitsCanAllLeak(s', m);
      actions := FailedInsert(s, m, actions);
    }
  }

  /** Once sixteen permits have leaked, nothing is ever stored again. */
  lemma {:induction false} StoppedForGood(s: State, actions: seq<Action>)
    requires ResourcesInv(s) && s.leaked == INSERT_PARALLELISM && Feasible(s, actions)
    ensures var end := Execute(s, actions);
      end.leaked == INSERT_PARALLELISM && end.tables == s.tables && end.nodes == s.nodes
    decreases actions
  {
    if actions != [] {
      assert |s.tasks| == 0 && s.tasks.Keys == {};
      assert actions[0].Receive?;
      StepKeepsResources(s, actions[0]);
      hide ResourcesInv;
      StoppedForGood(Do(s, actions[0]), actions[1..]);
    }
  }

  /** From the initial state a run of sixteen failing inserts stops the persister for good. */
  lemma PersisterCanStop(s: State, m: Message) returns (actions: seq<Action>)
    requires Initial(s) && Valid(s.tables) && (forall r :: r in s.tables.updates ==> r.id < s.nextId) && ValidMessage(m)
    ensures Feasible(s, actions)
    ensures var end := Execute(s, actions);
      forall more :: Feasible(end, more) ==>
        Execute(end, more).tables == end.tables && Execute(end, more).nodes == end.nodes
  {
    InitialInv(s);
    actions := PermitsCanAllLeak(s, m);
    RunKeepsInv(s, actions);
    var end := Execute(s, actions);
    hide Feasible, Execute, DataInv, Initial;
    forall more | Feasible(end, more)
      ensures Execute(end, more).tables == end.tables && Execute(end, more).nodes == end.nodes
    {
      StoppedForGood(end, more);
    }
  }
}
