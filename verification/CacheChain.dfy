/** Chains of cached GET requests as values: what staleness, refresh and both kinds of read mean
    (src/APICache.cpp). */
module CacheChain {
  import opened Wrappers

  newtype int64 = x: int | -0x8000_0000_0000_0000 <= x <= 0x7fff_ffff_ffff_ffff

  const FOREVER: int64 := 0x7fff_ffff_ffff_ffff

  /** Points in time count from the start of the clock; zero stands for "never". */
  type Time = t: int64 | t >= 0

  type Reading = t: int64 | t > 0 witness 1

  datatype Json = Null | Leaf(text: string) | Object(members: map<string, Json>)

  function Max(a: Time, b: Time): Time {
    if a < b then b else a
  }

  // --- Staleness ---

  /** Whether the decision depends on the clock at all. */
  predicate AsksClock(duration: int64, last: Time)
  {
    last != 0 && duration >= 0 && FOREVER - duration > last
  }

  /** The test as the code makes it, in 64-bit arithmetic. */
  predicate Expired(duration: int64, last: Time, now: Time)
  {
    last == 0 || duration < 0 || (AsksClock(duration, last) && now >= last + duration)
  }

  /** The test as one would like to write it, in unbounded integers. */
  predicate ExpiredPlainly(duration: int64, last: Time, now: Time) {
    last == 0 || duration < 0 || now as int >= last as int + duration as int
  }

  /** They differ in one point only: at the very last instant the clock can show. */
  lemma ExpiredIsPlain(duration: int64, last: Time, now: Time)
    ensures Expired(duration, last, now) == ExpiredPlainly(duration, last, now)
       <==> !(last != 0 && now == FOREVER && last as int + duration as int == FOREVER as int)
  {
    if duration >= 0 {
      assert FOREVER - duration > last <==> last as int + duration as int < FOREVER as int;
    }
  }

  // --- The chain of caches ---

  /** One cache. A chain lists a cache, its base, the base of that, up to the root. */
  datatype Node = Node(path: string, duration: int64, last: Time, value: Json)

  type Chain = seq<Node>

  /** The clock's successive readings, and the answer to the n-th GET: None when it throws. Both are arbitrary. */
  datatype Env = Env(readings: nat -> Reading, serve: (nat, string) -> Option<Json>)

  /** How often the clock was read, and the paths requested so far. */
  datatype Net = Net(ticks: nat, gets: seq<string>)

  function RequestPath(c: Chain): string
    requires c != []
  {
    if |c| == 1 then c[0].path else RequestPath(c[1..]) + "/" + c[0].path
  }

  /** lastRefresh after taking the base's into account. */
  function SyncedLast(c: Chain): Time
    requires c != []
  {
    if |c| > 1 then Max(c[0].last, c[1].last) else c[0].last
  }

  function Synced(c: Chain): Chain
    requires c != []
  {
    [c[0].(last := SyncedLast(c))] + c[1..]
  }

  predicate Stale(env: Env, c: Chain, ticks: nat)
    requires c != []
  {
    Expired(c[0].duration, SyncedLast(c), env.readings(ticks))
  }

  function TicksAfter(c: Chain, ticks: nat): nat
    requires c != []
  {
    if AsksClock(c[0].duration, SyncedLast(c)) then ticks + 1 else ticks
  }

  /** level: how far up the chain the request was made. TypeError: the value to store into is no object. */
  datatype Fetch =
    | Fetched(level: nat, at: Time, response: Json)
    | GetFailed(level: nat)
    | TypeError(level: nat, at: Time)

  datatype Refreshed = Refreshed(chain: Chain, net: Net, fetch: Fetch)

  /** Stores a child into the base's value, like operator[] on the JSON value. */
  function Stored(value: Json, key: string, child: Json): Option<Json> {
    match value
    case Null => Some(Object(map[key := child]))
    case Object(members) => Some(Object(members[key := child]))
    case Leaf(_) => None
  }

  /** Where the response to a cache's request belongs: in the root itself, else in the base's value. */
  function Placed(c: Chain, response: Json): (r: Option<Chain>)
    requires c != []
    ensures r.Some? ==> |r.value| == |c|
  {
    if |c| == 1 then Some([c[0].(value := response)])
    else match Stored(c[1].value, c[0].path, response)
      case None => None
      case Some(v) => Some([c[0], c[1].(value := v)] + c[2..])
  }

  function FetchHere(env: Env, c: Chain, net: Net): (r: Refreshed)
    requires c != []
    ensures |r.chain| == |c|
  {
    var path := RequestPath(c);
    var gets := net.gets + [path];
    match env.serve(|net.gets|, path)
    case None => Refreshed(c, Net(net.ticks, gets), GetFailed(0))
    case Some(response) =>
      var at := env.readings(net.ticks);
      var stamped, after := [c[0].(last := at)] + c[1..], Net(net.ticks + 1, gets);
      match Placed(stamped, response)
      case None => Refreshed(stamped, after, TypeError(0, at))
      case Some(placed) => Refreshed(placed, after, Fetched(0, at, response))
  }

  function OneUp(f: Fetch): Fetch {
    f.(level := f.level + 1)
  }

  function Refresh(env: Env, c: Chain, net: Net): (r: Refreshed)
    requires c != []
    ensures |r.chain| == |c|
    decreases |c|
  {
    if |c| == 1 then FetchHere(env, c, net)
    else
      var base, after := Synced(c[1..]), net.(ticks := TicksAfter(c[1..], net.ticks));
      if Stale(env, c[1..], net.ticks) then
        var r := Refresh(env, base, after);
        Refreshed([c[0]] + r.chain, r.net, OneUp(r.fetch))
      else FetchHere(env, [c[0]] + base, after)
  }

  datatype Lookup = Found(value: Json) | NotPresent | NeverCached | RefreshFailed

  /** Where a non-const read finds the value: one step up. */
  function Peek(c: Chain): Lookup
    requires c != []
  {
    if |c| == 1 then Found(c[0].value)
    else if c[1].value.Object? && c[0].path in c[1].value.members then Found(c[1].value.members[c[0].path])
    else NotPresent
  }

  /** Where a const read finds the value: all the way up, then down again. */
  function ConstValue(c: Chain): Lookup
    requires c != []
  {
    if |c| == 1 then (if c[0].last == 0 then NeverCached else Found(c[0].value))
    else
      var b := ConstValue(c[1..]);
      if !b.Found? then b
      else if b.value.Object? && c[0].path in b.value.members then Found(b.value.members[c[0].path])
      else NotPresent
  }

  datatype Got = Got(chain: Chain, net: Net, fetch: Option<Fetch>, result: Lookup)

  function GetValue(env: Env, c: Chain, net: Net): (g: Got)
    requires c != []
    ensures |g.chain| == |c|
  {
    var synced, after := Synced(c), net.(ticks := TicksAfter(c, net.ticks));
    if Stale(env, c, net.ticks) then
      var r := Refresh(env, synced, after);
      Got(r.chain, r.net, Some(r.fetch), if r.fetch.Fetched? then Peek(r.chain) else RefreshFailed)
    else Got(synced, after, None, Peek(synced))
  }
}
