/** Chains of any depth: one refresh is one request and one change; and which reads see it. */
module CacheLaws {
  import opened Wrappers
  import opened CacheChain

  // --- The request ---

  function JoinSlash(parts: seq<string>): string
    requires parts != []
  {
    if |parts| == 1 then parts[0] else parts[0] + "/" + JoinSlash(parts[1..])
  }

  lemma {:induction false} JoinAppend(parts: seq<string>, last: string)
    requires parts != []
    ensures JoinSlash(parts + [last]) == JoinSlash(parts) + "/" + last
  {
    if |parts| == 1 {
      assert (parts + [last])[1..] == [last];
    } else {
      JoinAppend(parts[1..], last);
      assert (parts + [last])[1..] == parts[1..] + [last];
      assert JoinSlash(parts + [last]) == parts[0] + "/" + JoinSlash(parts[1..] + [last]);
    }
  }

  function RootFirst(c: Chain): seq<string> {
    seq(|c|, i requires 0 <= i < |c| => c[|c| - 1 - i].path)
  }

  /** The request path lists the caches from the root, joined by slashes. */
  lemma {:induction false} PathIsJoined(c: Chain)
    requires c != []
    ensures RequestPath(c) == JoinSlash(RootFirst(c))
  {
    if |c| > 1 {
      PathIsJoined(c[1..]);
      JoinAppend(RootFirst(c[1..]), c[0].path);
      assert RootFirst(c) == RootFirst(c[1..]) + [c[0].path];
    }
  }

  // --- One refresh, one request ---

  /** Refreshing a chain whose base is stale is refreshing the base. */
  lemma Climbs(env: Env, c: Chain, net: Net)
    requires |c| > 1 && Stale(env, c[1..], net.ticks)
    ensures var base, after := Synced(c[1..]), net.(ticks := TicksAfter(c[1..], net.ticks));
            var r, inner := Refresh(env, c, net), Refresh(env, base, after);
            && r.chain == [c[0]] + inner.chain && r.net == inner.net && r.fetch == OneUp(inner.fetch)
            && |base| == |c| - 1 && base[0] == c[1].(last := SyncedLast(c[1..]))
            && forall i | 2 <= i < |c| :: base[i - 1] == c[i] && base[i - 1..] == c[i..]
  {
    var base := Synced(c[1..]);
    forall i | 2 <= i < |c|
      ensures base[i - 1] == c[i] && base[i - 1..] == c[i..]
    {
      assert base[i - 1..] == c[1..][1..][i - 2..] == c[i..];
    }
  }

  /** A refresh makes exactly one request, for the path of the cache it stops at. */
  lemma {:induction false} OneRequest(env: Env, c: Chain, net: Net)
    requires c != []
    ensures var r := Refresh(env, c, net);
            && r.fetch.level < |c| && net.ticks <= r.net.ticks
            && r.net.gets == net.gets + [RequestPath(c[r.fetch.level..])]
    decreases |c|
  {
    assert c[0..] == c;
    if |c| > 1 && Stale(env, c[1..], net.ticks) {
      var base, after := Synced(c[1..]), net.(ticks := TicksAfter(c[1..], net.ticks));
      Climbs(env, c, net);
      OneRequest(env, base, after);
      SamePathAbove(c, base, Refresh(env, base, after).fetch.level);
    } else if |c| > 1 {
      RequestsHere(env, c, net);
    }
  }

  lemma RequestsHere(env: Env, c: Chain, net: Net)
    requires |c| > 1 && !Stale(env, c[1..], net.ticks)
    ensures var r := Refresh(env, c, net);
            r.fetch.level == 0 && net.ticks <= r.net.ticks && r.net.gets == net.gets + [RequestPath(c)]
  {
    SamePath(c, [c[0]] + Synced(c[1..]));
  }

  lemma SamePathAbove(c: Chain, base: Chain, j: nat)
    requires |c| == |base| + 1 && j < |base| && base[0] == c[1].(last := base[0].last)
    requires forall i | 2 <= i < |c| :: base[i - 1] == c[i]
    ensures RequestPath(base[j..]) == RequestPath(c[j + 1..])
  {
    forall i | 0 <= i < |base[j..]|
      ensures base[j..][i].path == c[j + 1..][i].path
    {
    }
    SamePath(base[j..], c[j + 1..]);
  }

  /** Asked at some reading of the clock during the refresh, the cache was stale, or was not. */
  ghost predicate Answered(env: Env, c: Chain, stale: bool, from: nat, to: nat)
    requires c != []
  {
    exists t: nat :: from <= t <= to && Stale(env, c, t) == stale
  }

  /** All bases up to level j were found stale, and the next one, if any, fresh. */
  ghost predicate StopsAt(env: Env, c: Chain, j: nat, from: nat, to: nat) {
    && j < |c|
    && (forall i | 1 <= i <= j :: Answered(env, c[i..], true, from, to))
    && (j + 1 < |c| ==> Answered(env, c[j + 1..], false, from, to))
  }

  lemma StopsOneHigher(env: Env, c: Chain, base: Chain, j: nat, late: nat, from: nat, to: nat)
    requires |c| == |base| + 1 && from <= late && StopsAt(env, base, j, late, to)
    requires Answered(env, c[1..], true, from, to)
    requires forall i | 2 <= i < |c| :: base[i - 1..] == c[i..]
    ensures StopsAt(env, c, j + 1, from, to)
  {
    forall i | 1 <= i <= j + 1
      ensures Answered(env, c[i..], true, from, to)
    {
      if i > 1 {
        assert Answered(env, base[i - 1..], true, late, to);
      }
    }
    if j + 2 < |c| {
      assert Answered(env, base[j + 1..], false, late, to);
    }
  }

  /** A refresh stops at the first cache, going up, whose base is absent or found fresh. */
  lemma {:induction false} StopsBelowTheFirstFreshBase(env: Env, c: Chain, net: Net)
    requires c != []
    ensures StopsAt(env, c, Refresh(env, c, net).fetch.level, net.ticks, Refresh(env, c, net).net.ticks)
    decreases |c|
  {
    OneRequest(env, c, net);
    if |c| > 1 {
      assert Answered(env, c[1..], Stale(env, c[1..], net.ticks), net.ticks, Refresh(env, c, net).net.ticks);
      if Stale(env, c[1..], net.ticks) {
        var base, after := Synced(c[1..]), net.(ticks := TicksAfter(c[1..], net.ticks));
        Climbs(env, c, net);
        StopsBelowTheFirstFreshBase(env, base, after);
        StopsOneHigher(env, c, base, Refresh(env, base, after).fetch.level, after.ticks, net.ticks,
                       Refresh(env, base, after).net.ticks);
      }
    }
  }

  lemma {:induction false} SamePath(a: Chain, b: Chain)
    requires a != [] && |a| == |b| && forall i | 0 <= i < |a| :: a[i].path == b[i].path
    ensures RequestPath(a) == RequestPath(b)
  {
    if |a| > 1 {
      SamePath(a[1..], b[1..]);
    }
  }

  /** What a refresh changes besides lastRefresh: the one slot that the response belongs in. */
  predicate ValuesAfter(c: Chain, r: Refreshed)
    requires |r.chain| == |c|
  {
    && (forall i | 0 <= i < |c| :: r.chain[i].path == c[i].path && r.chain[i].duration == c[i].duration)
    && match r.fetch
       case GetFailed(_) => forall i | 0 <= i < |c| :: r.chain[i].value == c[i].value
       case TypeError(j, _) =>
         && j + 1 < |c| && c[j + 1].value.Leaf?
         && forall i | 0 <= i < |c| :: r.chain[i].value == c[i].value
       case Fetched(j, _, response) =>
         var slot := if j + 1 < |c| then j + 1 else j;
         && j < |c| && (forall i | 0 <= i < |c| && i != slot :: r.chain[i].value == c[i].value)
         && (j + 1 < |c| ==> Stored(c[j + 1].value, c[j].path, response) == Some(r.chain[j + 1].value))
         && (j + 1 == |c| ==> r.chain[j].value == response)
  }

  /** The time stamps: synchronised with the base on the way up, set to the time of the response where it arrived. */
  predicate StampsAfter(c: Chain, r: Refreshed)
    requires |r.chain| == |c|
  {
    forall i | 0 <= i < |c| ::
      if i == r.fetch.level then
        match r.fetch
        case Fetched(_, at, _) => r.chain[i].last == at
        case TypeError(_, at) => r.chain[i].last == at
        case GetFailed(_) => r.chain[i].last == if i == 0 then c[i].last else SyncedLast(c[i..])
      else if 1 <= i <= r.fetch.level + 1 then r.chain[i].last == SyncedLast(c[i..])
      else r.chain[i].last == c[i].last
  }

  lemma {:induction false} RefreshChangesOneSlot(env: Env, c: Chain, net: Net)
    requires c != []
    ensures ValuesAfter(c, Refresh(env, c, net)) && StampsAfter(c, Refresh(env, c, net))
    decreases |c|
  {
    if |c| > 1 && Stale(env, c[1..], net.ticks) {
      var base, after := Synced(c[1..]), net.(ticks := TicksAfter(c[1..], net.ticks));
      Climbs(env, c, net);
      RefreshChangesOneSlot(env, base, after);
      OneSlotHigher(c, base, Refresh(env, base, after), Refresh(env, c, net));
    } else if |c| > 1 {
      var c' := [c[0]] + Synced(c[1..]);
      assert forall i | 2 <= i < |c| :: c'[i] == c[i];
      FetchHereChangesOneSlot(env, c, c', net.(ticks := TicksAfter(c[1..], net.ticks)));
    }
  }

  lemma FetchHereChangesOneSlot(env: Env, c: Chain, c': Chain, net: Net)
    requires |c| > 1 && |c'| == |c| && c'[0] == c[0] && c'[1] == c[1].(last := SyncedLast(c[1..]))
    requires forall i | 2 <= i < |c| :: c'[i] == c[i]
    ensures var r := FetchHere(env, c', net);
            |r.chain| == |c| && ValuesAfter(c, r) && StampsAfter(c, r)
  {
    var r := FetchHere(env, c', net);
    assert forall i | 2 <= i < |c| :: r.chain[i] == c'[i];
  }

  lemma OneSlotHigher(c: Chain, base: Chain, inner: Refreshed, r: Refreshed)
    requires |base| > 0 && |c| == |base| + 1 && |inner.chain| == |base|
    requires ValuesAfter(base, inner) && StampsAfter(base, inner)
    requires base[0] == c[1].(last := SyncedLast(c[1..]))
    requires forall i | 2 <= i < |c| :: base[i - 1] == c[i] && base[i - 1..] == c[i..]
    requires r.chain == [c[0]] + inner.chain && r.fetch == OneUp(inner.fetch)
    ensures ValuesAfter(c, r) && StampsAfter(c, r)
  {
    ValuesOneHigher(c, base, inner, r);
    StampsOneHigher(c, base, inner, r);
  }

  lemma ValuesOneHigher(c: Chain, base: Chain, inner: Refreshed, r: Refreshed)
    requires |base| > 0 && |c| == |base| + 1 && |inner.chain| == |base| && ValuesAfter(base, inner)
    requires forall i | 1 <= i < |c| :: base[i - 1] == c[i].(last := base[i - 1].last)
    requires r.chain == [c[0]] + inner.chain && r.fetch == OneUp(inner.fetch)
    ensures ValuesAfter(c, r)
  {
    assert forall i | 1 <= i < |c| :: r.chain[i] == inner.chain[i - 1];
  }

  lemma StampsOneHigher(c: Chain, base: Chain, inner: Refreshed, r: Refreshed)
    requires |base| > 0 && |c| == |base| + 1 && |inner.chain| == |base| && StampsAfter(base, inner)
    requires base[0].last == SyncedLast(c[1..])
    requires forall i | 2 <= i < |c| :: base[i - 1].last == c[i].last && base[i - 1..] == c[i..]
    requires r.chain == [c[0]] + inner.chain && r.fetch == OneUp(inner.fetch)
    ensures StampsAfter(c, r)
  {
    assert base[0..] == base;
    assert SyncedLast(base) == SyncedLast(c[1..]) by {
      if |base| > 1 { assert base[1] == base[1..][0] == c[2..][0]; }
    }
    forall i | 1 <= i < |c|
      ensures r.chain[i] == inner.chain[i - 1]
    {
    }
  }

  // --- Const and non-const reads ---

  /** The const view depends on the root's value alone. */
  lemma {:induction false} ConstViewIsTheRoots(a: Chain, b: Chain)
    requires a != [] && |a| == |b| && forall i | 0 <= i < |a| :: a[i].path == b[i].path
    requires a[|a| - 1].value == b[|b| - 1].value
    requires a[|a| - 1].last == 0 <==> b[|b| - 1].last == 0
    ensures ConstValue(a) == ConstValue(b)
  {
    if |a| > 1 {
      ConstViewIsTheRoots(a[1..], b[1..]);
    }
  }

  /** At depth three and more, a refresh that reaches the leaf's own slot changes what the leaf's non-const read
      finds, to the new response, and nothing of what its const read finds; every other refresh leaves the
      non-const read alone. So no refresh is seen by both. */
  lemma NoRefreshIsSeenByBothViews(env: Env, c: Chain, net: Net)
    requires |c| >= 3
    ensures var r := Refresh(env, c, net);
            && (r.fetch.level == 0 && r.fetch.Fetched? ==> Peek(r.chain) == Found(r.fetch.response))
            && (r.fetch.level == 0 && c[|c| - 1].last != 0 ==> ConstValue(r.chain) == ConstValue(c))
            && (r.fetch.level > 0 || !r.fetch.Fetched? ==> Peek(r.chain) == Peek(c))
  {
    RefreshChangesOneSlot(env, c, net);
    var r := Refresh(env, c, net);
    if r.fetch.level == 0 && c[|c| - 1].last != 0 {
      SameRoot(c, r);
    } else if r.fetch.level > 0 || !r.fetch.Fetched? {
      assert r.chain[1].value == c[1].value && r.chain[0].path == c[0].path;
    }
  }

  lemma SameRoot(c: Chain, r: Refreshed)
    requires |c| >= 3 && |r.chain| == |c| && ValuesAfter(c, r) && StampsAfter(c, r)
    requires r.fetch.level == 0 && c[|c| - 1].last != 0
    ensures ConstValue(r.chain) == ConstValue(c)
  {
    var root := |c| - 1;
    assert r.chain[root].value == c[root].value && r.chain[root].last == c[root].last;
    ConstViewIsTheRoots(r.chain, c);
  }

  /** A forced refresh of a leaf whose list and bridge are fresh: its const view does not move, whatever came back. */
  lemma LeafRefreshIsInvisible(env: Env, leaf: Node, list: Node, root: Node, net: Net, response: Json)
    requires root.last != 0 && !Stale(env, [list, root], net.ticks)
    requires env.serve(|net.gets|, RequestPath([leaf, list, root])) == Some(response)
    requires list.value.Null? || list.value.Object?
    ensures var r := Refresh(env, [leaf, list, root], net);
            && r.fetch.Fetched?
            && Peek(r.chain) == Found(response)
            && ConstValue(r.chain) == ConstValue([leaf, list, root])
  {
    var c := [leaf, list, root];
    assert c[1..] == [list, root];
    SamePath(c, [leaf] + Synced([list, root]));
    NoRefreshIsSeenByBothViews(env, c, net);
  }

  // --- A cache without base ---

  /** A non-const read of a cache of its own does one of three things: it keeps the value without a request exactly
      when it is not stale, or makes one request, and returns the response or throws and keeps the old value. */
  lemma OwnReadKeepsReloadsOrFails(env: Env, c: Node, net: Net)
    ensures var g := GetValue(env, [c], net);
            if !Stale(env, [c], net.ticks) then
              g.result == Found(c.value) && g.net.gets == net.gets && g.chain == [c]
            else
              && g.net.gets == net.gets + [c.path]
              && match env.serve(|net.gets|, c.path)
                 case Some(response) => g.result == Found(response) && g.chain[0].value == response
                 case None => g.result == RefreshFailed && g.chain == [c]
  {
    assert Synced([c]) == [c];
    assert RequestPath([c]) == c.path;
  }

  // --- When a read asks the bridge, in plain numbers ---

  /** A non-const read of a cache with or without base makes no request exactly when the cache or its base was ever
      loaded, its refresh duration is not negative, and the duration since the later of the two loads is not over, or
      would end beyond the clock's maximum. */
  lemma ReadsWithoutRequestIff(env: Env, c: Chain, net: Net)
    requires c != []
    ensures var own, base := c[0].last as int, if |c| > 1 then c[1].last as int else 0;
            var loaded, duration := if own > base then own else base, c[0].duration as int;
            GetValue(env, c, net).net.gets == net.gets
            <==> loaded > 0 && duration >= 0
                 && (env.readings(net.ticks) as int < loaded + duration || loaded + duration >= 9223372036854775807)
  {
    var m := SyncedLast(c);
    if c[0].duration >= 0 {
      assert FOREVER - c[0].duration > m <==> m as int + c[0].duration as int < 9223372036854775807;
    }
    OneRequest(env, Synced(c), net.(ticks := TicksAfter(c, net.ticks)));
  }

  /** A read that makes no request looks at the clock once, or not at all if the duration would end beyond the
      clock's maximum. */
  lemma ReadsLookAtTheClockIff(env: Env, c: Chain, net: Net)
    requires c != [] && GetValue(env, c, net).net.gets == net.gets
    ensures var own, base := c[0].last as int, if |c| > 1 then c[1].last as int else 0;
            var loaded, duration := if own > base then own else base, c[0].duration as int;
            GetValue(env, c, net).net.ticks == net.ticks + if loaded + duration < 9223372036854775807 then 1 else 0
  {
    ReadsWithoutRequestIff(env, c, net);
    OneRequest(env, Synced(c), net.(ticks := TicksAfter(c, net.ticks)));
    if c[0].duration >= 0 {
      assert FOREVER - c[0].duration > SyncedLast(c)
        <==> SyncedLast(c) as int + c[0].duration as int < 9223372036854775807;
    }
  }

  /** What storing a response under a name does to a value: null becomes an object with that one member, an object
      gets or replaces the member and keeps the others, and anything else throws. */
  lemma StoringKeepsOtherMembers(value: Json, key: string, child: Json)
    ensures Stored(value, key, child).None? <==> value.Leaf?
    ensures !value.Leaf? ==>
              var stored := Stored(value, key, child).value;
              && stored.Object? && key in stored.members && stored.members[key] == child
              && (forall other | other != key ::
                    (other in stored.members <==> value.Object? && other in value.members)
                    && (value.Object? && other in value.members ==> stored.members[other] == value.members[other]))
  {
  }

  // --- The const read, from the root ---

  /** The value found by following names down from a value. */
  function Walk(value: Json, names: seq<string>): Lookup {
    if names == [] then Found(value)
    else if value.Object? && names[0] in value.members then Walk(value.members[names[0]], names[1..])
    else NotPresent
  }

  function Down(value: Lookup, name: string): Lookup {
    if !value.Found? then value
    else if value.value.Object? && name in value.value.members then Found(value.value.members[name])
    else NotPresent
  }

  lemma {:induction false} WalkOneMore(value: Json, names: seq<string>, name: string)
    ensures Walk(value, names + [name]) == Down(Walk(value, names), name)
  {
    if names == [] {
      assert names + [name] == [name] && [name][1..] == [];
    } else {
      assert (names + [name])[1..] == names[1..] + [name];
      if value.Object? && names[0] in value.members {
        WalkOneMore(value.members[names[0]], names[1..], name);
      }
    }
  }

  function NamesBelowRoot(c: Chain): seq<string>
    requires c != []
  {
    if |c| == 1 then [] else NamesBelowRoot(c[1..]) + [c[0].path]
  }

  /** The const read throws if the root was never loaded, and else follows the paths of the caches down from the
      root's value, for chains of any length. */
  lemma {:induction false} ConstReadWalksTheRoot(c: Chain)
    requires c != []
    ensures ConstValue(c) == if c[|c| - 1].last == 0 then NeverCached else Walk(c[|c| - 1].value, NamesBelowRoot(c))
  {
    if |c| > 1 {
      ConstReadWalksTheRoot(c[1..]);
      assert c[1..][|c| - 2] == c[|c| - 1];
      if c[|c| - 1].last != 0 {
        WalkOneMore(c[|c| - 1].value, NamesBelowRoot(c[1..]), c[0].path);
      }
    }
  }
}
