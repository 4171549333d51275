/** The ladder of snapshot scopes, and the links from client timestamps to snapshots. */
module Snapshots {
  import opened Wrappers
  import opened GossipTypes
  import opened Rounding

  const SYMLINK_GRANULARITY_INTERVAL: nat := 3600 * 3
  const MAX_SNAPSHOT_SCOPE: nat := 3600 * 24 * 21

  /** January 1, 2022: links reach back to here. */
  const EARLIEST: nat := 1640995200

  /** What `snapshot_generation_interval` lets through. */
  predicate ValidInterval(interval: U32) {
    interval > 0 && interval % SYMLINK_GRANULARITY_INTERVAL == 0
  }

  // ---------------------------------------------------------------------------------------------
  // Scopes
  // ---------------------------------------------------------------------------------------------

  /** Doubling scopes up to the first that reaches the maximum, then the unlimited one. */
  function Ladder(scope: U64): (scopes: seq<U64>)
    requires 0 < scope < 0x1_0000_0000
    ensures |scopes| >= 2 && scopes[0] == scope
    decreases MAX_SNAPSHOT_SCOPE - scope
  {
    if scope >= MAX_SNAPSHOT_SCOPE then [scope, U64_MAX] else [scope] + Ladder(2 * scope)
  }

  /** The largest limited scope. */
  function LargestFinite(scope: U64): (r: U64)
    requires 0 < scope < 0x1_0000_0000
    ensures scope <= r < 0x1_0000_0000 && r >= MAX_SNAPSHOT_SCOPE
    decreases MAX_SNAPSHOT_SCOPE - scope
  {
    if scope >= MAX_SNAPSHOT_SCOPE then scope else LargestFinite(2 * scope)
  }

  /** The loop that builds the ladder. */
  method SnapshotScopes(interval: U32) returns (scopes: seq<U64>)
    requires ValidInterval(interval)
    ensures scopes == Ladder(interval)
  {
    scopes := [];
    var current: U64 := interval;
    while true
      invariant 0 < current < 0x1_0000_0000
      invariant scopes + Ladder(current) == Ladder(interval)
      decreases MAX_SNAPSHOT_SCOPE - current
    {
      scopes := scopes + [current];
      if current >= MAX_SNAPSHOT_SCOPE {
        scopes := scopes + [U64_MAX];
        break;
      }
      current := current * 2;
    }
  }

  predicate StrictlyAscending(s: seq<U64>) {
    forall i, j :: 0 <= i < j < |s| ==> s[i] < s[j]
  }

  /** Each scope doubles its predecessor until one has reached three weeks; the unlimited scope follows. */
  predicate Doubling(s: seq<U64>) {
    && |s| >= 2 && s[|s| - 1] == U64_MAX && s[|s| - 2] >= 1_814_400
    && forall i :: 0 <= i < |s| - 2 ==> s[i] < 1_814_400 && s[i + 1] == 2 * s[i]
  }

  lemma Prepend(scope: U64, rest: seq<U64>)
    requires StrictlyAscending(rest) && rest != [] && scope < rest[0]
    ensures StrictlyAscending([scope] + rest)
  {
  }

  /** The ladder ascends strictly, doubles until it has passed the maximum, and ends unlimited. */
  lemma {:induction false} LadderAscends(scope: U64)
    requires 0 < scope < 0x1_0000_0000
    ensures var s := Ladder(scope);
      StrictlyAscending(s) && Doubling(s) && s[|s| - 1] == U64_MAX && s[|s| - 2] == LargestFinite(scope)
    decreases MAX_SNAPSHOT_SCOPE - scope
  {
    if scope < MAX_SNAPSHOT_SCOPE {
      hide StrictlyAscending;
      LadderAscends(2 * scope);
      Prepend(scope, Ladder(2 * scope));
    }
  }

  /** The scopes of the default interval: three hours, doubled until three weeks are covered. */
  lemma ProductionLadder()
    ensures Ladder(10_800)
         == [10_800, 21_600, 43_200, 86_400, 172_800, 345_600, 691_200, 1_382_400, 2_764_800, 0xFFFF_FFFF_FFFF_FFFF]
  {
    assert Ladder(1_382_400) == [1_382_400, 2_764_800, U64_MAX];
    assert Ladder(345_600) == [345_600, 691_200] + Ladder(1_382_400);
    assert Ladder(86_400) == [86_400, 172_800] + Ladder(345_600);
    assert Ladder(21_600) == [21_600, 43_200] + Ladder(86_400);
    assert Ladder(10_800) == [10_800] + Ladder(21_600);
  }

  /** The first scope that reaches back far enough. */
  function FirstFit(scopes: seq<U64>, age: nat): (scope: U64)
    requires scopes != [] && age <= scopes[|scopes| - 1]
    ensures scope in scopes && age <= scope
    ensures exists i :: 0 <= i < |scopes| && scopes[i] == scope && forall j :: 0 <= j < i ==> scopes[j] < age
  {
    if age <= scopes[0] then
      assert scopes[0] == scopes[0];
      scopes[0]
    else
      var rest := scopes[1..];
      var scope := FirstFit(rest, age);
      assert exists i :: 0 <= i < |scopes| && scopes[i] == scope && forall j :: 0 <= j < i ==> scopes[j] < age by {
        var i :| 0 <= i < |rest| && rest[i] == scope && forall j :: 0 <= j < i ==> rest[j] < age;
        assert scopes[i + 1] == scope;
        assert forall j :: 0 < j < i + 1 ==> scopes[j] == rest[j - 1];
      }
      scope
  }

  /** Above the smallest scope and up to the largest limited one, a client never gets twice what it asked for. */
  lemma {:induction false} FirstFitIsTight(scope: U64, age: nat)
    requires 0 < scope < 0x1_0000_0000 && scope < age <= LargestFinite(scope)
    ensures age <= Ladder(scope)[|Ladder(scope)| - 1] && FirstFit(Ladder(scope), age) < 2 * age
    decreases MAX_SNAPSHOT_SCOPE - scope
  {
    LadderAscends(scope);
    var rest := Ladder(2 * scope);
    assert Ladder(scope)[1..] == rest;
    if age <= 2 * scope {
      assert FirstFit(rest, age) == 2 * scope;
    } else {
      FirstFitIsTight(2 * scope, age);
    }
  }

  /** The last sync of the snapshot with the given scope. */
  function LastSync(reference: U32, scope: U64): U32 {
    if reference >= scope then reference - scope else 0
  }

  // ---------------------------------------------------------------------------------------------
  // Links
  // ---------------------------------------------------------------------------------------------

  datatype Link = Dummy | Snapshot(scope: U64)

  function LinkName(reference: U32, granularity: nat, i: nat): nat {
    if i == 0 then 0 else if reference >= granularity * i then reference - granularity * i else 0
  }

  function LinkCount(reference: U32, granularity: nat): nat
    requires granularity > 0 && reference >= EARLIEST
  {
    (reference - EARLIEST) / granularity
  }

  function LinkScope(scopes: seq<U64>, granularity: nat, i: nat): U64
    requires scopes != [] && scopes[|scopes| - 1] == U64_MAX && granularity * i <= U32_MAX
  {
    if i == 0 then U64_MAX else FirstFit(scopes, granularity * i)
  }

  lemma NamesApart(reference: U32, granularity: nat, i: nat, j: nat)
    requires granularity > 0 && reference >= EARLIEST && i < j < LinkCount(reference, granularity)
    ensures LinkName(reference, granularity, i) != LinkName(reference, granularity, j)
    ensures LinkName(reference, granularity, j) != reference && granularity * j <= reference
    ensures i > 0 ==> LinkName(reference, granularity, i) > 0
    ensures reference != LinkName(reference, granularity, i)
  {
    var n := LinkCount(reference, granularity);
    assert granularity * n <= reference - EARLIEST;
    MultiplesApart(i, j, granularity);
    MultiplesApart(j, n, granularity);
    if i > 0 {
      MultiplesApart(0, i, granularity);
    }
    MultiplesApart(0, j, granularity);
  }

  /** The link of each step, and no other. */
  ghost predicate LinksUpTo(reference: U32, granularity: nat, scopes: seq<U64>, n: nat, links: map<nat, Link>)
    requires scopes != [] && scopes[|scopes| - 1] == U64_MAX
  {
    && (forall i :: 0 <= i < n ==>
          granularity * i <= U32_MAX && LinkName(reference, granularity, i) in links
          && links[LinkName(reference, granularity, i)] == Snapshot(LinkScope(scopes, granularity, i)))
    && (forall name :: name in links ==> exists i :: 0 <= i < n && name == LinkName(reference, granularity, i))
  }

  /** Creating a link whose name is taken fails, and the source panics; so each name must be new. */
  method Symlink(links: map<nat, Link>, name: nat, target: Link) returns (links': map<nat, Link>)
    requires name !in links
    ensures links' == links[name := target]
  {
    links' := links[name := target];
  }

  /** The links of both versions; the dummy for the reference timestamp exists in version 1 only. */
  method GenerateLinks(reference: U32, granularity: nat, scopes: seq<U64>, maxCount: Option<nat>)
    returns (v1: map<nat, Link>, v2: map<nat, Link>)
    requires granularity > 0 && reference >= EARLIEST
    requires scopes != [] && scopes[|scopes| - 1] == U64_MAX
    ensures var count := LinkCount(reference, granularity);
      LinksUpTo(reference, granularity, scopes,
        if maxCount.Some? && maxCount.value < count then maxCount.value else count, v2)
    ensures v1 == v2[reference := Dummy] && reference !in v2
  {
    hide LinksUpTo, LinkName, LinkScope, LinkCount;
    NoLinks(reference, granularity, scopes);
    v1 := Symlink(map[], reference, Dummy);
    v2 := map[];
    var total := LinkCount(reference, granularity);
    var count := total;
    if maxCount.Some? && maxCount.value < count {
      count := maxCount.value;
    }
    var n := 0;
    while n < count
      invariant n <= count
      invariant LinksUpTo(reference, granularity, scopes, n, v2)
      invariant v1 == v2[reference := Dummy] && reference !in v2
    {
      var name := LinkName(reference, granularity, n);
      assert name !in v2 && name != reference && granularity * n <= reference by {
        NameIsNew(reference, granularity, scopes, n, v2);
      }
      var scope := LinkScope(scopes, granularity, n);
      v1 := Symlink(v1, name, Snapshot(scope));
      ghost var before := v2;
      v2 := Symlink(v2, name, Snapshot(scope));
      LinksStep(reference, granularity, scopes, n, before);
      n := n + 1;
    }
  }

  lemma NoLinks(reference: U32, granularity: nat, scopes: seq<U64>)
    requires scopes != [] && scopes[|scopes| - 1] == U64_MAX
    ensures LinksUpTo(reference, granularity, scopes, 0, map[])
  {
  }

  lemma NameIsNew(reference: U32, granularity: nat, scopes: seq<U64>, n: nat, links: map<nat, Link>)
    requires granularity > 0 && reference >= EARLIEST && n < LinkCount(reference, granularity)
    requires scopes != [] && scopes[|scopes| - 1] == U64_MAX && LinksUpTo(reference, granularity, scopes, n, links)
    ensures LinkName(reference, granularity, n) !in links && LinkName(reference, granularity, n) != reference
    ensures granularity * n <= reference
  {
    hide LinkName, LinkCount;
    var name := LinkName(reference, granularity, n);
    if n > 0 {
      NamesApart(reference, granularity, 0, n);
    } else {
      ZeroName(reference, granularity);
    }
    if name in links {
      var i :| 0 <= i < n && name == LinkName(reference, granularity, i);
      NamesApart(reference, granularity, i, n);
      assert false;
    }
  }

  lemma ZeroName(reference: U32, granularity: nat)
    ensures LinkName(reference, granularity, 0) == 0 && granularity * 0 == 0
  {
  }

  lemma LinksStep(reference: U32, granularity: nat, scopes: seq<U64>, n: nat, links: map<nat, Link>)
    requires scopes != [] && scopes[|scopes| - 1] == U64_MAX && granularity * n <= U32_MAX
    requires LinksUpTo(reference, granularity, scopes, n, links) && LinkName(reference, granularity, n) !in links
    ensures LinksUpTo(reference, granularity, scopes, n + 1,
      links[LinkName(reference, granularity, n) := Snapshot(LinkScope(scopes, granularity, n))])
  {
    hide LinkName, LinkScope;
  }

  // ---------------------------------------------------------------------------------------------
  // Which timestamps resolve, and to what
  // ---------------------------------------------------------------------------------------------

  lemma LadderTop(interval: U32)
    requires interval > 0
    ensures Ladder(interval) != [] && Ladder(interval)[|Ladder(interval)| - 1] == U64_MAX
  {
    LadderAscends(interval);
  }

  /** The version 2 links of a generation; version 1 adds the dummy for the reference itself. */
  ghost predicate IsLinkMap(reference: U32, interval: U32, links: map<nat, Link>)
    requires interval > 0 && reference >= EARLIEST
  {
    LadderTop(interval);
    LinksUpTo(reference, SYMLINK_GRANULARITY_INTERVAL, Ladder(interval),
      LinkCount(reference, SYMLINK_GRANULARITY_INTERVAL), links)
  }

  predicate IsStep(reference: U32, name: nat) {
    name % SYMLINK_GRANULARITY_INTERVAL == 0 && EARLIEST < name < reference
  }

  lemma NameOfStep(reference: U32, i: nat)
    requires reference > EARLIEST && reference % SYMLINK_GRANULARITY_INTERVAL == 0
    requires 0 < i < LinkCount(reference, SYMLINK_GRANULARITY_INTERVAL)
    ensures IsStep(reference, LinkName(reference, SYMLINK_GRANULARITY_INTERVAL, i))
  {
  }

  lemma StepOfName(reference: U32, name: nat) returns (i: nat)
    requires reference > EARLIEST && reference % SYMLINK_GRANULARITY_INTERVAL == 0 && IsStep(reference, name)
    ensures 0 < i < LinkCount(reference, SYMLINK_GRANULARITY_INTERVAL)
    ensures LinkName(reference, SYMLINK_GRANULARITY_INTERVAL, i) == name
  {
    i := (reference - name) / SYMLINK_GRANULARITY_INTERVAL;
    assert reference - name == i * SYMLINK_GRANULARITY_INTERVAL;
  }

  predicate PointsTo(links: map<nat, Link>, name: nat, scopes: seq<U64>, i: nat) {
    && scopes != [] && scopes[|scopes| - 1] == U64_MAX && SYMLINK_GRANULARITY_INTERVAL * i <= U32_MAX
    && name in links && links[name] == Snapshot(LinkScope(scopes, SYMLINK_GRANULARITY_INTERVAL, i))
  }

  /** The name of every link comes from one step, and every step has its link. */
  lemma LinkOfStep(reference: U32, interval: U32, links: map<nat, Link>, i: nat)
    requires interval > 0 && reference >= EARLIEST && IsLinkMap(reference, interval, links)
    requires i < LinkCount(reference, SYMLINK_GRANULARITY_INTERVAL)
    ensures PointsTo(links, LinkName(reference, SYMLINK_GRANULARITY_INTERVAL, i), Ladder(interval), i)
  {
    hide Ladder, LinkName, LinkScope, LinkCount;
    LadderTop(interval);
  }

  lemma StepOfLink(reference: U32, interval: U32, links: map<nat, Link>, name: nat) returns (i: nat)
    requires interval > 0 && reference >= EARLIEST && IsLinkMap(reference, interval, links) && name in links
    ensures i < LinkCount(reference, SYMLINK_GRANULARITY_INTERVAL)
    ensures name == LinkName(reference, SYMLINK_GRANULARITY_INTERVAL, i)
  {
    hide Ladder, LinkName, LinkScope, LinkCount;
    LadderTop(interval);
    i :| 0 <= i < LinkCount(reference, SYMLINK_GRANULARITY_INTERVAL)
         && name == LinkName(reference, SYMLINK_GRANULARITY_INTERVAL, i);
  }

  /** With production settings the names are 0 and every step strictly between the epoch and the reference. */
  lemma LinkedTimestamps(reference: U32, interval: U32, links: map<nat, Link>, name: nat)
    requires interval > 0 && reference > EARLIEST && reference % SYMLINK_GRANULARITY_INTERVAL == 0
    requires IsLinkMap(reference, interval, links)
    ensures name in links <==> name == 0 || (name % 10_800 == 0 && 1_640_995_200 < name < reference)
  {
    assert LinkCount(reference, SYMLINK_GRANULARITY_INTERVAL) > 0;
    ZeroName(reference, SYMLINK_GRANULARITY_INTERVAL);
    hide IsLinkMap, IsStep, LinkCount, LinkName;
    if name in links {
      var i := StepOfLink(reference, interval, links, name);
      if i > 0 {
        NameOfStep(reference, i);
      }
    }
    if IsStep(reference, name) {
      var i := StepOfName(reference, name);
      LinkOfStep(reference, interval, links, i);
    }
    if name == 0 {
      LinkOfStep(reference, interval, links, 0);
    }
  }

  lemma FittingScopeReachesBack(reference: U32, scopes: seq<U64>, granularity: nat, i: nat)
    requires scopes != [] && scopes[|scopes| - 1] == U64_MAX && granularity * i <= U32_MAX
    ensures LinkScope(scopes, granularity, i) in scopes
    ensures LastSync(reference, LinkScope(scopes, granularity, i)) <= LinkName(reference, granularity, i)
  {
    assert scopes[|scopes| - 1] in scopes;
  }

  /** A linked client is pointed to a snapshot that goes back at least to its timestamp. */
  lemma LinkIsSound(reference: U32, interval: U32, links: map<nat, Link>, name: nat)
    requires interval > 0 && reference >= EARLIEST && IsLinkMap(reference, interval, links) && name in links
    ensures links[name].Snapshot? && links[name].scope in Ladder(interval)
    ensures LastSync(reference, links[name].scope) <= name
  {
    hide IsLinkMap, LinkCount, LinkName, LinkScope, LastSync, Ladder;
    var i := StepOfLink(reference, interval, links, name);
    LinkOfStep(reference, interval, links, i);
    FittingScopeReachesBack(reference, Ladder(interval), SYMLINK_GRANULARITY_INTERVAL, i);
  }

  /** The least scope of the ladder that is at least `age`. */
  predicate LeastFit(interval: U32, age: nat, scope: U64)
    requires 0 < interval
  {
    scope in Ladder(interval) && age <= scope && forall s :: s in Ladder(interval) && age <= s ==> scope <= s
  }

  lemma FirstIsLeast(scopes: seq<U64>, age: nat, s: U64)
    requires StrictlyAscending(scopes) && scopes != [] && age <= scopes[|scopes| - 1] && s in scopes && age <= s
    ensures FirstFit(scopes, age) <= s
  {
    hide FirstFit;
    var scope := FirstFit(scopes, age);
    var i :| 0 <= i < |scopes| && scopes[i] == scope && forall j :: 0 <= j < i ==> scopes[j] < age;
    var j :| 0 <= j < |scopes| && scopes[j] == s;
  }

  lemma FirstFitIsLeast(interval: U32, age: nat)
    requires 0 < interval && age <= U64_MAX
    ensures age <= Ladder(interval)[|Ladder(interval)| - 1]
    ensures LeastFit(interval, age, FirstFit(Ladder(interval), age))
  {
    hide Ladder, FirstFit, StrictlyAscending, Doubling;
    LadderAscends(interval);
    forall s | s in Ladder(interval) && age <= s
      ensures FirstFit(Ladder(interval), age) <= s
    {
      FirstIsLeast(Ladder(interval), age, s);
    }
  }

  lemma NameBack(reference: U32, granularity: nat, i: nat)
    requires granularity > 0 && reference >= EARLIEST && i < LinkCount(reference, granularity)
    ensures var name := LinkName(reference, granularity, i);
      name <= reference && (name == 0 <==> i == 0) && (i > 0 ==> granularity * i == reference - name)
  {
    hide LinkCount;
    if i > 0 {
      NamesApart(reference, granularity, 0, i);
    }
  }

  /** Zero is linked to everything, and every other name to the least scope that reaches back to it. */
  lemma LinkExactly(reference: U32, interval: U32, links: map<nat, Link>, name: nat)
    requires interval > 0 && reference >= EARLIEST && IsLinkMap(reference, interval, links) && name in links
    ensures name <= reference && links[name].Snapshot?
    ensures if name == 0 then links[name].scope == U64_MAX else LeastFit(interval, reference - name, links[name].scope)
  {
    hide Ladder, FirstFit, LeastFit, IsLinkMap, LinkCount, LinkName;
    LadderTop(interval);
    var i := StepOfLink(reference, interval, links, name);
    LinkOfStep(reference, interval, links, i);
    NameBack(reference, SYMLINK_GRANULARITY_INTERVAL, i);
    FirstFitIsLeast(interval, SYMLINK_GRANULARITY_INTERVAL * i);
  }

  /** Between the interval and the largest limited scope, the snapshot spans less than twice the client's age. */
  lemma LinkIsTight(reference: U32, interval: U32, links: map<nat, Link>, name: nat)
    requires interval > 0 && reference > EARLIEST && IsLinkMap(reference, interval, links) && name in links && name != 0
    requires name <= reference && interval < reference - name <= LargestFinite(interval)
    ensures links[name].Snapshot? && links[name].scope < 2 * (reference - name)
  {
    LadderTop(interval);
    var g := SYMLINK_GRANULARITY_INTERVAL;
    var i :| 0 <= i < LinkCount(reference, g) && name == LinkName(reference, g, i);
    assert reference - name == g * i;
    FirstFitIsTight(interval, g * i);
  }
}
