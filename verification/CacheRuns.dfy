/** A root cache and its children over whole runs: every value a child returns was fetched recently enough. */
module CacheRuns {
  import opened Wrappers
  import opened CacheChain
  import opened CacheLaws

  ghost predicate Monotone(env: Env) {
    && (forall i: nat, j: nat :: i <= j ==> env.readings(i) <= env.readings(j))
    && (forall i: nat :: env.readings(i) < FOREVER)
  }

  /** A response that arrived: of the whole root, or of one entry of it. */
  datatype Record = Record(entry: Option<string>, at: Time, response: Json)

  /** A root, its children, and the history of responses. Several children may have the same path. */
  datatype Tree = Tree(root: Node, kids: seq<Node>, net: Net, log: seq<Record>)

  function Planted(path: string, duration: int64, initial: Json, now: Reading): Tree {
    if initial == Null then Tree(Node(path, duration, 0, Null), [], Net(0, []), [])
    else Tree(Node(path, duration, now, initial), [], Net(0, []), [Record(None, now, initial)])
  }

  datatype Op =
    | RefreshRoot
    | RefreshKid(i: nat)
    | ReadRoot
    | ReadKid(i: nat)
    | AddKid(path: string, duration: int64)
    | SetRootDuration(duration: int64)
    | SetKidDuration(i: nat, duration: int64)

  function LogOf(entry: string, f: Fetch): seq<Record> {
    if !f.Fetched? then [] else [Record(if f.level == 0 then Some(entry) else None, f.at, f.response)]
  }

  function RootLog(f: Fetch): seq<Record> {
    if !f.Fetched? then [] else [Record(None, f.at, f.response)]
  }

  function Family(t: Tree, i: nat): Chain
    requires i < |t.kids|
  {
    [t.kids[i], t.root]
  }

  /** The tree after a refresh or read of child i. */
  function WithKid(t: Tree, i: nat, c: Chain, net: Net, f: Option<Fetch>): Tree
    requires i < |t.kids| && |c| == 2
  {
    Tree(c[1], t.kids[i := c[0]], net, t.log + if f.Some? then LogOf(t.kids[i].path, f.value) else [])
  }

  function WithRoot(t: Tree, c: Chain, net: Net, f: Option<Fetch>): Tree
    requires |c| == 1
  {
    t.(root := c[0], net := net, log := t.log + if f.Some? then RootLog(f.value) else [])
  }

  function Step(env: Env, t: Tree, op: Op): Tree {
    match op
    case RefreshRoot => var r := Refresh(env, [t.root], t.net); WithRoot(t, r.chain, r.net, Some(r.fetch))
    case ReadRoot => var g := GetValue(env, [t.root], t.net); WithRoot(t, g.chain, g.net, g.fetch)
    case RefreshKid(i) =>
      if i >= |t.kids| then t
      else var r := Refresh(env, Family(t, i), t.net); WithKid(t, i, r.chain, r.net, Some(r.fetch))
    case ReadKid(i) =>
      if i >= |t.kids| then t
      else var g := GetValue(env, Family(t, i), t.net); WithKid(t, i, g.chain, g.net, g.fetch)
    case AddKid(path, duration) => t.(kids := t.kids + [Node(path, duration, t.root.last, Null)])
    case SetRootDuration(duration) => t.(root := t.root.(duration := duration))
    case SetKidDuration(i, duration) =>
      if i >= |t.kids| then t else t.(kids := t.kids[i := t.kids[i].(duration := duration)])
  }

  function Run(env: Env, t: Tree, ops: seq<Op>): Tree
    decreases |ops|
  {
    if ops == [] then t else Run(env, Step(env, t, ops[0]), ops[1..])
  }

  // --- What every run keeps ---

  /** The response says that this entry has this value. */
  predicate Provides(r: Record, entry: string, value: Json) {
    match r.entry
    case None => r.response.Object? && entry in r.response.members && r.response.members[entry] == value
    case Some(e) => e == entry && r.response == value
  }

  /** The k-th response provided the entry, no earlier than any cache that serves the entry was stamped. */
  predicate Backs(t: Tree, k: nat, entry: string, value: Json) {
    && k < |t.log| && Provides(t.log[k], entry, value) && t.log[k].at >= t.root.last
    && forall i | 0 <= i < |t.kids| && t.kids[i].path == entry :: t.log[k].at >= t.kids[i].last
  }

  ghost predicate Backed(t: Tree) {
    t.root.value.Object? ==>
      forall entry | entry in t.root.value.members :: exists k :: Backs(t, k, entry, t.root.value.members[entry])
  }

  predicate NotAhead(env: Env, t: Tree) {
    var now := env.readings(t.net.ticks);
    && t.root.last <= now
    && (forall i | 0 <= i < |t.kids| :: t.kids[i].last <= now)
    && (forall k | 0 <= k < |t.log| :: t.log[k].at <= now)
  }

  predicate LoadedTogether(t: Tree) {
    forall i | 0 <= i < |t.kids| && t.kids[i].last != 0 :: t.root.last != 0
  }

  ghost predicate Inv(env: Env, t: Tree) {
    NotAhead(env, t) && LoadedTogether(t) && Backed(t)
  }

  lemma PlantedInv(env: Env, path: string, duration: int64, initial: Json, now: Reading)
    requires Monotone(env) && now <= env.readings(0)
    ensures Inv(env, Planted(path, duration, initial, now))
  {
    var t := Planted(path, duration, initial, now);
    if t.root.value.Object? {
      forall entry | entry in t.root.value.members
        ensures Backs(t, 0, entry, t.root.value.members[entry])
      {
      }
    }
  }

  /** The response of a refresh arrives during the refresh. */
  lemma {:induction false} ArrivesInTime(env: Env, c: Chain, net: Net)
    requires c != [] && Monotone(env)
    ensures var r := Refresh(env, c, net);
            && net.ticks <= r.net.ticks
            && (!r.fetch.GetFailed? ==> env.readings(net.ticks) <= r.fetch.at <= env.readings(r.net.ticks))
    decreases |c|
  {
    if |c| > 1 && Stale(env, c[1..], net.ticks) {
      ArrivesInTime(env, Synced(c[1..]), net.(ticks := TicksAfter(c[1..], net.ticks)));
    }
  }

  /** A child and its root after a refresh, case by case. */
  lemma FamilyRefreshed(env: Env, kid: Node, root: Node, net: Net)
    requires Monotone(env)
    ensures var r := Refresh(env, [kid, root], net);
            var kid', root' := r.chain[0], r.chain[1];
            && |r.chain| == 2
            && kid' == kid.(last := kid'.last) && root' == root.(last := root'.last, value := root'.value)
            && match r.fetch
               case GetFailed(_) => kid'.last == kid.last && root' == root
               case TypeError(_, at) => kid'.last == at && root' == root && root.value.Leaf? && root.last != 0
               case Fetched(level, at, response) =>
                 if level == 0 then
                   kid'.last == at && root'.last == root.last && root.last != 0
                   && Stored(root.value, kid.path, response) == Some(root'.value)
                 else kid'.last == kid.last && root'.last == at && root'.value == response
  {
    var c := [kid, root];
    RefreshChangesOneSlot(env, c, net);
    assert c[1..] == [root];
    assert Refresh(env, c, net).chain[0].value == kid.value;
  }

  lemma {:induction false} StillBacked(t: Tree, t': Tree)
    requires Backed(t) && t.log <= t'.log && t'.root.value == t.root.value && t'.root.last == t.root.last
    requires |t'.kids| == |t.kids|
    requires forall i | 0 <= i < |t.kids| ::
               t'.kids[i].path == t.kids[i].path && t'.kids[i].last <= Max(t.kids[i].last, t.root.last)
    ensures Backed(t')
  {
    if t.root.value.Object? {
      forall entry | entry in t'.root.value.members
        ensures exists k :: Backs(t', k, entry, t'.root.value.members[entry])
      {
        var k :| Backs(t, k, entry, t.root.value.members[entry]);
        assert Backs(t', k, entry, t'.root.value.members[entry]);
      }
    }
  }

  /** One entry arrived from the bridge and was stored in the root. */
  lemma EntryBacked(t: Tree, t': Tree, i: nat, at: Time, response: Json)
    requires Backed(t) && i < |t.kids| && t'.kids == t.kids[i := t.kids[i].(last := at)]
    requires t'.root.last == t.root.last <= at && forall j | 0 <= j < |t.kids| :: t.kids[j].last <= at
    requires Stored(t.root.value, t.kids[i].path, response) == Some(t'.root.value)
    requires t'.log == t.log + [Record(Some(t.kids[i].path), at, response)]
    ensures Backed(t')
  {
    var latest := |t.log|;
    forall entry | entry in t'.root.value.members
      ensures exists k :: Backs(t', k, entry, t'.root.value.members[entry])
    {
      if entry == t.kids[i].path {
        assert Backs(t', latest, entry, t'.root.value.members[entry]);
      } else {
        var k :| Backs(t, k, entry, t.root.value.members[entry]);
        assert Backs(t', k, entry, t'.root.value.members[entry]);
      }
    }
  }

  /** The whole root arrived. */
  lemma RootBacked(t': Tree, log: seq<Record>, at: Time)
    requires t'.log == log + [Record(None, at, t'.root.value)] && t'.root.last <= at
    requires forall j | 0 <= j < |t'.kids| :: t'.kids[j].last <= at
    ensures Backed(t')
  {
    if t'.root.value.Object? {
      forall entry | entry in t'.root.value.members
        ensures exists k :: Backs(t', k, entry, t'.root.value.members[entry])
      {
        assert Backs(t', |log|, entry, t'.root.value.members[entry]);
      }
    }
  }

  lemma KidRefreshKeepsInv(env: Env, t: Tree, i: nat)
    requires Monotone(env) && Inv(env, t) && i < |t.kids|
    ensures var r := Refresh(env, Family(t, i), t.net);
            Inv(env, WithKid(t, i, r.chain, r.net, Some(r.fetch)))
  {
    var r := Refresh(env, Family(t, i), t.net);
    var t' := WithKid(t, i, r.chain, r.net, Some(r.fetch));
    FamilyRefreshed(env, t.kids[i], t.root, t.net);
    ArrivesInTime(env, Family(t, i), t.net);
    assert env.readings(t.net.ticks) <= env.readings(t'.net.ticks);
    match r.fetch
    case GetFailed(_) => StillBacked(t, t');
    case TypeError(_, _) =>
    case Fetched(level, at, response) =>
      if level == 0 {
        EntryBacked(t, t', i, at, response);
      } else {
        RootBacked(t', t.log, at);
      }
  }

  lemma RootRefreshKeepsInv(env: Env, t: Tree)
    requires Monotone(env) && Inv(env, t)
    ensures var r := Refresh(env, [t.root], t.net);
            Inv(env, WithRoot(t, r.chain, r.net, Some(r.fetch)))
  {
    var r := Refresh(env, [t.root], t.net);
    var t' := WithRoot(t, r.chain, r.net, Some(r.fetch));
    ArrivesInTime(env, [t.root], t.net);
    assert env.readings(t.net.ticks) <= env.readings(t'.net.ticks);
    if r.fetch.Fetched? {
      RootBacked(t', t.log, r.fetch.at);
    } else {
      StillBacked(t, t');
    }
  }

  /** Asking whether a child is stale: it takes over the root's stamp, and the clock may have been read. */
  lemma AskKeepsInv(env: Env, t: Tree, i: nat, ticks: nat)
    requires Monotone(env) && Inv(env, t) && i < |t.kids| && t.net.ticks <= ticks
    ensures Inv(env, t.(kids := t.kids[i := t.kids[i].(last := SyncedLast(Family(t, i)))],
                        net := t.net.(ticks := ticks)))
  {
    var t' := t.(kids := t.kids[i := t.kids[i].(last := SyncedLast(Family(t, i)))], net := t.net.(ticks := ticks));
    assert env.readings(t.net.ticks) <= env.readings(ticks);
    StillBacked(t, t');
  }

  lemma KidReadKeepsInv(env: Env, t: Tree, i: nat)
    requires Monotone(env) && Inv(env, t) && i < |t.kids|
    ensures Inv(env, Step(env, t, ReadKid(i)))
  {
    var c := Family(t, i);
    var asked := t.(kids := t.kids[i := Synced(c)[0]], net := t.net.(ticks := TicksAfter(c, t.net.ticks)));
    AskKeepsInv(env, t, i, TicksAfter(c, t.net.ticks));
    assert Family(asked, i) == Synced(c);
    if Stale(env, c, t.net.ticks) {
      KidRefreshKeepsInv(env, asked, i);
      var r := Refresh(env, Synced(c), asked.net);
      assert Step(env, t, ReadKid(i)) == WithKid(asked, i, r.chain, r.net, Some(r.fetch));
    } else {
      assert Step(env, t, ReadKid(i)) == asked;
    }
  }

  lemma RootReadKeepsInv(env: Env, t: Tree)
    requires Monotone(env) && Inv(env, t)
    ensures Inv(env, Step(env, t, ReadRoot))
  {
    var ticks := TicksAfter([t.root], t.net.ticks);
    var asked := t.(net := t.net.(ticks := ticks));
    assert env.readings(t.net.ticks) <= env.readings(ticks);
    StillBacked(t, asked);
    assert Synced([t.root]) == [t.root];
    if Stale(env, [t.root], t.net.ticks) {
      RootRefreshKeepsInv(env, asked);
      var r := Refresh(env, [t.root], asked.net);
      assert Step(env, t, ReadRoot) == WithRoot(asked, r.chain, r.net, Some(r.fetch));
    } else {
      assert Step(env, t, ReadRoot) == asked;
    }
  }

  lemma AddKidKeepsInv(env: Env, t: Tree, path: string, duration: int64)
    requires Inv(env, t)
    ensures Inv(env, Step(env, t, AddKid(path, duration)))
  {
    var t' := Step(env, t, AddKid(path, duration));
    if t.root.value.Object? {
      forall entry | entry in t'.root.value.members
        ensures exists k :: Backs(t', k, entry, t'.root.value.members[entry])
      {
        var k :| Backs(t, k, entry, t.root.value.members[entry]);
        assert Backs(t', k, entry, t'.root.value.members[entry]);
      }
    }
  }

  lemma StepKeepsInv(env: Env, t: Tree, op: Op)
    requires Monotone(env) && Inv(env, t)
    ensures Inv(env, Step(env, t, op))
  {
    match op
    case RefreshRoot => RootRefreshKeepsInv(env, t);
    case ReadRoot => RootReadKeepsInv(env, t);
    case RefreshKid(i) => if i < |t.kids| { KidRefreshKeepsInv(env, t, i); }
    case ReadKid(i) => if i < |t.kids| { KidReadKeepsInv(env, t, i); }
    case AddKid(path, duration) => AddKidKeepsInv(env, t, path, duration);
    case SetRootDuration(duration) => StillBacked(t, Step(env, t, op));
    case SetKidDuration(i, duration) => StillBacked(t, Step(env, t, op));
  }

  lemma {:induction false} RunKeepsInv(env: Env, t: Tree, ops: seq<Op>)
    requires Monotone(env) && Inv(env, t)
    ensures Inv(env, Run(env, t, ops))
    decreases |ops|
  {
    if ops != [] {
      StepKeepsInv(env, t, ops[0]);
      RunKeepsInv(env, Step(env, t, ops[0]), ops[1..]);
    }
  }

  // --- What a read returns ---

  /** The value is in a response that arrived during the call, or less than `duration` before it. */
  ghost predicate RecentlyFetched(env: Env, start: nat, log: seq<Record>, entry: string, duration: int64, value: Json) {
    exists k :: 0 <= k < |log| && Provides(log[k], entry, value)
             && (log[k].at >= env.readings(start)
                 || env.readings(start) as int < log[k].at as int + duration as int)
  }

  /** After a successful read, the cache or its root was stamped during the call, or the cache had not expired. */
  lemma ReadStamps(env: Env, kid: Node, root: Node, net: Net)
    requires Monotone(env) && (kid.last != 0 ==> root.last != 0)
    requires GetValue(env, [kid, root], net).result.Found?
    ensures var g := GetValue(env, [kid, root], net);
            var stamp := Max(g.chain[0].last, g.chain[1].last);
            && (stamp >= env.readings(net.ticks)
                || env.readings(net.ticks) as int < stamp as int + kid.duration as int)
            && g.chain[1].last != 0
            && g.chain[0].path == kid.path
  {
    var c := [kid, root];
    var synced := [kid.(last := SyncedLast(c)), root];
    assert Synced(c) == synced;
    if Stale(env, c, net.ticks) {
      FamilyRefreshed(env, synced[0], root, net.(ticks := TicksAfter(c, net.ticks)));
      ArrivesInTime(env, synced, net.(ticks := TicksAfter(c, net.ticks)));
    }
  }

  lemma BackedIsRecent(env: Env, start: nat, t: Tree, i: nat, duration: int64, value: Json)
    requires Backed(t) && i < |t.kids| && Peek(Family(t, i)) == Found(value)
    requires var stamp := Max(t.kids[i].last, t.root.last);
             stamp >= env.readings(start) || env.readings(start) as int < stamp as int + duration as int
    ensures RecentlyFetched(env, start, t.log, t.kids[i].path, duration, value)
  {
    var k: nat :| Backs(t, k, t.kids[i].path, value);
    assert t.log[k].at >= Max(t.kids[i].last, t.root.last);
  }

  /** In every run, a value that a child's non-const read returns was fetched in this call, or less than the child's
      refresh duration ago. */
  lemma ReadsAreFresh(env: Env, start: Tree, ops: seq<Op>, i: nat)
    requires Monotone(env) && Inv(env, start) && i < |Run(env, start, ops).kids|
    requires var t := Run(env, start, ops); GetValue(env, Family(t, i), t.net).result.Found?
    ensures var t := Run(env, start, ops);
            RecentlyFetched(env, t.net.ticks, Step(env, t, ReadKid(i)).log, t.kids[i].path, t.kids[i].duration,
                            GetValue(env, Family(t, i), t.net).result.value)
  {
    RunKeepsInv(env, start, ops);
    var t := Run(env, start, ops);
    var t' := Step(env, t, ReadKid(i));
    var g := GetValue(env, Family(t, i), t.net);
    StepKeepsInv(env, t, ReadKid(i));
    ReadStamps(env, t.kids[i], t.root, t.net);
    assert Family(t', i) == g.chain;
    BackedIsRecent(env, t.net.ticks, t', i, t.kids[i].duration, g.result.value);
  }

  /** In every run, each entry of an object that the root's own non-const read returns was fetched in this call, or
      less than the root's refresh duration ago. */
  lemma RootReadsAreFresh(env: Env, start: Tree, ops: seq<Op>, entry: string)
    requires Monotone(env) && Inv(env, start)
    requires var t := Run(env, start, ops);
             var read := GetValue(env, [t.root], t.net).result;
             read.Found? && read.value.Object? && entry in read.value.members
    ensures var t := Run(env, start, ops);
            RecentlyFetched(env, t.net.ticks, Step(env, t, ReadRoot).log, entry, t.root.duration,
                            GetValue(env, [t.root], t.net).result.value.members[entry])
  {
    RunKeepsInv(env, start, ops);
    var t := Run(env, start, ops);
    var t' := Step(env, t, ReadRoot);
    StepKeepsInv(env, t, ReadRoot);
    RootStamps(env, t.root, t.net);
    assert [t'.root] == GetValue(env, [t.root], t.net).chain;
    var k: nat :| Backs(t', k, entry, t'.root.value.members[entry]);
    assert t'.log[k].at >= t'.root.last;
  }

  /** After a successful read, the root was stamped during the call, or had not expired. */
  lemma RootStamps(env: Env, root: Node, net: Net)
    requires Monotone(env) && GetValue(env, [root], net).result.Found?
    ensures var stamp := GetValue(env, [root], net).chain[0].last;
            stamp >= env.readings(net.ticks) || env.readings(net.ticks) as int < stamp as int + root.duration as int
  {
    assert Synced([root]) == [root];
    ArrivesInTime(env, [root], net.(ticks := TicksAfter([root], net.ticks)));
    assert env.readings(net.ticks) <= env.readings(TicksAfter([root], net.ticks));
  }

  /** What a step changes that makes no request: nothing that a const read looks at. */
  predicate SameView(t: Tree, t': Tree) {
    && t'.root.path == t.root.path && t'.root.value == t.root.value && t'.root.last == t.root.last
    && |t.kids| <= |t'.kids| && forall i | 0 <= i < |t.kids| :: t'.kids[i].path == t.kids[i].path
  }

  lemma StepIsSeenOrAsks(env: Env, t: Tree, op: Op)
    ensures t.net.gets <= Step(env, t, op).net.gets
    ensures Step(env, t, op).net.gets == t.net.gets ==> SameView(t, Step(env, t, op))
  {
    match op
    case RefreshRoot => OneRequest(env, [t.root], t.net);
    case ReadRoot => OneRequest(env, [t.root], t.net.(ticks := TicksAfter([t.root], t.net.ticks)));
    case RefreshKid(i) => if i < |t.kids| { OneRequest(env, Family(t, i), t.net); }
    case ReadKid(i) =>
      if i < |t.kids| {
        var c := Family(t, i);
        OneRequest(env, Synced(c), t.net.(ticks := TicksAfter(c, t.net.ticks)));
      }
    case _ =>
  }

  lemma {:induction false} RunIsSeenOrAsks(env: Env, t: Tree, ops: seq<Op>)
    ensures t.net.gets <= Run(env, t, ops).net.gets
    ensures Run(env, t, ops).net.gets == t.net.gets ==> SameView(t, Run(env, t, ops))
    decreases |ops|
  {
    if ops != [] {
      StepIsSeenOrAsks(env, t, ops[0]);
      RunIsSeenOrAsks(env, Step(env, t, ops[0]), ops[1..]);
    }
  }

  lemma ReadIsSeen(env: Env, t: Tree, i: nat)
    requires Monotone(env) && Inv(env, t) && i < |t.kids|
    requires GetValue(env, Family(t, i), t.net).result.Found?
    ensures ConstValue(Family(Step(env, t, ReadKid(i)), i)) == GetValue(env, Family(t, i), t.net).result
  {
    ReadStamps(env, t.kids[i], t.root, t.net);
    var g := GetValue(env, Family(t, i), t.net);
    assert Family(Step(env, t, ReadKid(i)), i) == g.chain;
    assert g.chain[1..] == [g.chain[1]];
  }

  /** In every run, once a child's non-const read has returned a value, its const read returns the same, until the
      next request to the bridge, whatever happens before. */
  lemma ViewsAgree(env: Env, start: Tree, ops: seq<Op>, i: nat, later: seq<Op>)
    requires Monotone(env) && Inv(env, start) && i < |Run(env, start, ops).kids|
    requires var t := Run(env, start, ops); GetValue(env, Family(t, i), t.net).result.Found?
    requires var t' := Step(env, Run(env, start, ops), ReadKid(i)); Run(env, t', later).net.gets == t'.net.gets
    ensures var t := Run(env, start, ops);
            var t' := Run(env, Step(env, t, ReadKid(i)), later);
            i < |t'.kids| && ConstValue(Family(t', i)) == GetValue(env, Family(t, i), t.net).result
  {
    RunKeepsInv(env, start, ops);
    var t := Run(env, start, ops);
    ReadIsSeen(env, t, i);
    var seen := Step(env, t, ReadKid(i));
    var t' := Run(env, seen, later);
    RunIsSeenOrAsks(env, seen, later);
    ConstViewIsTheRoots(Family(t', i), Family(seen, i));
  }

  // --- How often the bridge is asked ---

  /** With refresh durations that never end, and a bridge that answers the first request: a new root and a new child
      on it make one request, for the root, for any two reads of the child. */
  lemma TwoReadsMakeOneRequest(env: Env, path: string, now: Reading, entry: string, response: Json)
    requires Monotone(env) && env.serve(0, path) == Some(response)
    ensures var ops := [AddKid(entry, FOREVER), ReadKid(0), ReadKid(0)];
            Run(env, Planted(path, FOREVER, Null, now), ops).net.gets == [path]
  {
    var t0 := Planted(path, FOREVER, Null, now);
    var t1 := Step(env, t0, AddKid(entry, FOREVER));
    assert Family(t1, 0) == [Node(entry, FOREVER, 0, Null), Node(path, FOREVER, 0, Null)];
    FirstReadAsksTheRoot(env, t1, path, entry, response);
    var t2 := Step(env, t1, ReadKid(0));
    SecondReadAsksNobody(env, t2, 0);
    var t3 := Step(env, t2, ReadKid(0));
    ThreeStepsRun(env, t0, AddKid(entry, FOREVER), ReadKid(0), ReadKid(0));
  }

  lemma ThreeStepsRun(env: Env, t: Tree, a: Op, b: Op, c: Op)
    ensures Run(env, t, [a, b, c]) == Step(env, Step(env, Step(env, t, a), b), c)
  {
    assert [a, b, c][1..] == [b, c] && [b, c][1..] == [c] && [c][1..] == [];
    var t1 := Step(env, t, a);
    assert Run(env, t, [a, b, c]) == Run(env, t1, [b, c]);
    var t2 := Step(env, t1, b);
    assert Run(env, t1, [b, c]) == Run(env, t2, [c]);
    assert Run(env, t2, [c]) == Run(env, Step(env, t2, c), []);
  }

  lemma FirstReadAsksTheRoot(env: Env, t: Tree, path: string, entry: string, response: Json)
    requires t.kids == [Node(entry, FOREVER, 0, Null)] && t.root == Node(path, FOREVER, 0, Null) && t.net == Net(0, [])
    requires env.serve(0, path) == Some(response)
    ensures var t' := Step(env, t, ReadKid(0));
            t'.net.gets == [path] && t'.root.last > 0 && |t'.kids| == 1 && t'.kids[0].duration == FOREVER
  {
    var c := Family(t, 0);
    assert Synced(c) == c && c[1..] == [t.root] && Synced([t.root]) == [t.root];
    assert RequestPath([t.root]) == path;
    assert Stale(env, c, 0) && Stale(env, [t.root], 0);
    Climbs(env, c, t.net);
    var inner := Refresh(env, [t.root], t.net);
    assert inner == FetchHere(env, [t.root], t.net) && inner.net.gets == [path];
    assert inner.fetch == Fetched(0, env.readings(0), response) && inner.chain[0].last == env.readings(0);
    var r := Refresh(env, c, t.net);
    assert r.chain == [c[0]] + inner.chain && GetValue(env, c, t.net).chain == r.chain;
  }

  lemma SecondReadAsksNobody(env: Env, t: Tree, i: nat)
    requires i < |t.kids| && t.root.last > 0 && t.kids[i].duration == FOREVER
    ensures Step(env, t, ReadKid(i)).net.gets == t.net.gets
  {
    ReadsWithoutRequestIff(env, Family(t, i), t.net);
  }
}
