/** Bridge, list and lights with shared state, over whole runs: three caches in a chain, where the one in the middle
    never fills its own value. */
module SharedStateRuns {
  import opened Wrappers
  import opened CacheChain
  import opened CacheLaws

  /** `own` is the history that matters: for each path the last response to a request for one leaf alone. */
  datatype Family = Family(leaves: seq<Node>, list: Node, root: Node, net: Net, own: map<string, Json>)

  datatype Op =
    | RefreshRoot
    | ReadRoot
    | RefreshList
    | ReadList
    | RefreshLeaf(i: nat)
    | ReadLeaf(i: nat)
    | AddLeaf(path: string, duration: int64)
    | SetDurations(root: int64, list: int64)
    | SetLeafDuration(i: nat, duration: int64)

  function LeafChain(f: Family, i: nat): Chain
    requires i < |f.leaves|
  {
    [f.leaves[i], f.list, f.root]
  }

  function ListChain(f: Family): Chain {
    [f.list, f.root]
  }

  /** A request that stopped at the leaf itself. */
  function OwnAfter(own: map<string, Json>, path: string, fetch: Option<Fetch>): map<string, Json> {
    if fetch.Some? && fetch.value.Fetched? && fetch.value.level == 0 then own[path := fetch.value.response] else own
  }

  function WithLeaf(f: Family, i: nat, c: Chain, net: Net, fetch: Option<Fetch>): Family
    requires i < |f.leaves| && |c| == 3
  {
    Family(f.leaves[i := c[0]], c[1], c[2], net, OwnAfter(f.own, f.leaves[i].path, fetch))
  }

  function Step(env: Env, f: Family, op: Op): Family {
    match op
    case RefreshRoot => var r := Refresh(env, [f.root], f.net); f.(root := r.chain[0], net := r.net)
    case ReadRoot => var g := GetValue(env, [f.root], f.net); f.(root := g.chain[0], net := g.net)
    case RefreshList =>
      var r := Refresh(env, ListChain(f), f.net); f.(list := r.chain[0], root := r.chain[1], net := r.net)
    case ReadList =>
      var g := GetValue(env, ListChain(f), f.net); f.(list := g.chain[0], root := g.chain[1], net := g.net)
    case RefreshLeaf(i) =>
      if i >= |f.leaves| then f
      else var r := Refresh(env, LeafChain(f, i), f.net); WithLeaf(f, i, r.chain, r.net, Some(r.fetch))
    case ReadLeaf(i) =>
      if i >= |f.leaves| then f
      else var g := GetValue(env, LeafChain(f, i), f.net); WithLeaf(f, i, g.chain, g.net, g.fetch)
    case AddLeaf(path, duration) => f.(leaves := f.leaves + [Node(path, duration, f.list.last, Null)])
    case SetDurations(root, list) => f.(root := f.root.(duration := root), list := f.list.(duration := list))
    case SetLeafDuration(i, duration) =>
      if i >= |f.leaves| then f else f.(leaves := f.leaves[i := f.leaves[i].(duration := duration)])
  }

  function Run(env: Env, f: Family, ops: seq<Op>): Family
    decreases |ops|
  {
    if ops == [] then f else Run(env, Step(env, f, ops[0]), ops[1..])
  }

  /** The list's value consists of its leaves' own responses, and is null as long as there are none. */
  predicate ListIsOwn(f: Family) {
    f.list.value == if f.own == map[] then Null else Object(f.own)
  }

  /** A list as its constructor leaves it, whatever the root already holds. */
  lemma NewListIsOwn(root: Node, path: string, duration: int64, net: Net)
    ensures ListIsOwn(Family([], Node(path, duration, root.last, Null), root, net, map[]))
  {
  }

  lemma LeafRefreshKeeps(env: Env, f: Family, i: nat)
    requires ListIsOwn(f) && i < |f.leaves|
    ensures var r := Refresh(env, LeafChain(f, i), f.net);
            ListIsOwn(WithLeaf(f, i, r.chain, r.net, Some(r.fetch)))
            && r.chain[0].path == f.leaves[i].path
  {
    var c := LeafChain(f, i);
    var r := Refresh(env, c, f.net);
    RefreshChangesOneSlot(env, c, f.net);
    if r.fetch.Fetched? && r.fetch.level == 0 {
      var path, response := c[0].path, r.fetch.response;
      assert Stored(c[1].value, path, response) == Some(r.chain[1].value);
      assert path in f.own[path := response];
      assert f.own == map[] ==> f.own[path := response] == map[path := response];
    } else {
      assert r.chain[1].value == c[1].value;
    }
  }

  lemma ListRefreshKeeps(env: Env, list: Node, root: Node, net: Net)
    ensures Refresh(env, [list, root], net).chain[0].value == list.value
  {
    RefreshChangesOneSlot(env, [list, root], net);
  }

  lemma LeafReadKeeps(env: Env, f: Family, i: nat)
    requires ListIsOwn(f) && i < |f.leaves|
    ensures ListIsOwn(Step(env, f, ReadLeaf(i)))
    ensures Step(env, f, ReadLeaf(i)).leaves[i].path == f.leaves[i].path
  {
    var c := LeafChain(f, i);
    if Stale(env, c, f.net.ticks) {
      var asked := f.(leaves := f.leaves[i := Synced(c)[0]], net := f.net.(ticks := TicksAfter(c, f.net.ticks)));
      assert LeafChain(asked, i) == Synced(c);
      LeafRefreshKeeps(env, asked, i);
    }
  }

  lemma StepKeeps(env: Env, f: Family, op: Op)
    requires ListIsOwn(f)
    ensures ListIsOwn(Step(env, f, op))
  {
    match op
    case RefreshList => ListRefreshKeeps(env, f.list, f.root, f.net);
    case ReadList =>
      var c := ListChain(f);
      assert Synced(c) == [Synced(c)[0], f.root];
      ListRefreshKeeps(env, Synced(c)[0], f.root, f.net.(ticks := TicksAfter(c, f.net.ticks)));
    case RefreshLeaf(i) => if i < |f.leaves| { LeafRefreshKeeps(env, f, i); }
    case ReadLeaf(i) => if i < |f.leaves| { LeafReadKeeps(env, f, i); }
    case _ =>
  }

  lemma {:induction false} RunKeeps(env: Env, f: Family, ops: seq<Op>)
    requires ListIsOwn(f)
    ensures ListIsOwn(Run(env, f, ops))
    decreases |ops|
  {
    if ops != [] {
      StepKeeps(env, f, ops[0]);
      RunKeeps(env, Step(env, f, ops[0]), ops[1..]);
    }
  }

  /** In every run, a leaf's non-const read that does not fail finds exactly the last response to a request for that
      leaf alone: what a refresh of the list or the bridge brought is not found. */
  lemma LeafReadsFindTheirOwn(env: Env, start: Family, ops: seq<Op>, i: nat)
    requires ListIsOwn(start) && i < |Run(env, start, ops).leaves|
    ensures var f := Run(env, start, ops);
            var read, own := GetValue(env, LeafChain(f, i), f.net).result, Step(env, f, ReadLeaf(i)).own;
            var path := f.leaves[i].path;
            read != RefreshFailed ==> read == if path in own then Found(own[path]) else NotPresent
  {
    RunKeeps(env, start, ops);
    var f := Run(env, start, ops);
    LeafReadKeeps(env, f, i);
    assert LeafChain(Step(env, f, ReadLeaf(i)), i) == GetValue(env, LeafChain(f, i), f.net).chain;
  }

  /** So while the list or the bridge is fresh, and the leaf has made no request of its own, reading it throws. */
  lemma FreshListHidesItsLeaves(env: Env, start: Family, ops: seq<Op>, i: nat)
    requires ListIsOwn(start) && i < |Run(env, start, ops).leaves|
    requires var f := Run(env, start, ops);
             !Stale(env, LeafChain(f, i), f.net.ticks) && f.leaves[i].path !in f.own
    ensures var f := Run(env, start, ops);
            var g := GetValue(env, LeafChain(f, i), f.net);
            g.result == NotPresent && g.net.gets == f.net.gets
  {
    LeafReadsFindTheirOwn(env, start, ops, i);
  }

  /** Such runs happen: below a loaded bridge with the light `x`, a new list, and a new leaf on it that is not stale.
      The first non-const read of the leaf throws without a request, though its const read finds the light. */
  lemma LoadedLightIsHidden(env: Env, root: Node, net: Net, list: string, listDuration: int64,
                            leaf: string, leafDuration: int64, lights: map<string, Json>, x: Json)
    requires root.last != 0 && root.value == Object(map[list := Object(lights)])
    requires leaf in lights && lights[leaf] == x
    requires !Expired(leafDuration, root.last, env.readings(net.ticks))
    ensures var start := Family([], Node(list, listDuration, root.last, Null), root, net, map[]);
            var f := Run(env, start, [AddLeaf(leaf, leafDuration)]);
            && |f.leaves| == 1
            && GetValue(env, LeafChain(f, 0), f.net).result == NotPresent
            && GetValue(env, LeafChain(f, 0), f.net).net.gets == f.net.gets
            && ConstValue(LeafChain(f, 0)) == Found(x)
  {
    var start := Family([], Node(list, listDuration, root.last, Null), root, net, map[]);
    var ops := [AddLeaf(leaf, leafDuration)];
    var f := Run(env, start, ops);
    var added := Step(env, start, ops[0]);
    assert ops[1..] == [] && Run(env, added, ops[1..]) == added;
    assert f == added;
    NewListIsOwn(root, list, listDuration, net);
    FreshListHidesItsLeaves(env, start, ops, 0);
    var c := LeafChain(f, 0);
    assert c[1..] == ListChain(f) && ListChain(f)[1..] == [root];
    assert ConstValue(ListChain(f)) == Found(Object(lights));
  }

  /** A refresh duration that never ends satisfies the conditions, whatever the clock and the bridge do. */
  lemma NeverStale(last: Time, now: Time)
    requires last != 0
    ensures !Expired(FOREVER, last, now)
  {
  }
}
