/** Cached GET requests, chained through base caches (src/APICache.cpp). */
module ApiCache {
  import opened Wrappers
  import opened CacheChain

  class Api {
    const readings: nat -> Reading
    const serve: (nat, string) -> Option<Json>
    var ticks: nat
    var gets: seq<string>

    constructor (readings: nat -> Reading, serve: (nat, string) -> Option<Json>)
      ensures this.readings == readings && this.serve == serve && ticks == 0 && gets == []
    {
      this.readings, this.serve, ticks, gets := readings, serve, 0, [];
    }

    ghost function Surroundings(): Env {
      Env(readings, serve)
    }

    ghost function View(): Net
      reads this
    {
      Net(ticks, gets)
    }

    method Now() returns (t: Reading)
      modifies this`ticks
      ensures t == readings(old(ticks)) && ticks == old(ticks) + 1
    {
      t := readings(ticks);
      ticks := ticks + 1;
    }

    method Get(path: string) returns (response: Option<Json>)
      modifies this`gets
      ensures response == serve(|old(gets)|, path) && gets == old(gets) + [path]
    {
      response := serve(|gets|, path);
      gets := gets + [path];
    }
  }

  class APICache {
    const base: APICache?
    const path: string
    const api: Api
    /** This cache and all caches below it, down to the root. */
    ghost const chain: set<APICache>
    var refreshDuration: int64
    var lastRefresh: Time
    var value: Json

    /** The chain of bases is finite and uses one API; it never changes. */
    ghost predicate Linked()
      decreases chain
    {
      if base == null then chain == {this}
      else chain == {this} + base.chain && this !in base.chain && base.api == api && base.Linked()
    }

    ghost function View(): (c: Chain)
      requires Linked()
      reads chain
      ensures c != [] && c[0] == Node(path, refreshDuration, lastRefresh, value)
      decreases chain
    {
      [Node(path, refreshDuration, lastRefresh, value)] + if base == null then [] else base.View()
    }

    lemma BaseIsApart()
      requires Linked() && base != null
      ensures base in base.chain
      ensures View()[1..] == base.View() && View()[1] == base.View()[0]
    {
    }

    constructor Root(path: string, api: Api, refresh: int64, initial: Json, now: Reading)
      ensures Linked() && chain == {this} && this.api == api
      ensures View() == [Node(path, refresh, if initial == Null then 0 else now, initial)]
    {
      base, this.path, this.api, chain := null, path, api, {this};
      refreshDuration, lastRefresh, value := refresh, if initial == Null then 0 else now, initial;
    }

    constructor Child(baseCache: APICache, subEntry: string, refresh: int64)
      requires baseCache.Linked()
      ensures Linked() && chain == {this} + baseCache.chain && api == baseCache.api
      ensures View() == [Node(subEntry, refresh, baseCache.lastRefresh, Null)] + baseCache.View()
    {
      base, path, api, chain := baseCache, subEntry, baseCache.api, {this} + baseCache.chain;
      refreshDuration, lastRefresh, value := refresh, baseCache.lastRefresh, Null;
    }

    function GetRequestPath(): (p: string)
      requires Linked()
      reads chain
      ensures p == RequestPath(View())
      decreases chain
    {
      if base == null then path else base.GetRequestPath() + "/" + path
    }

    method NeedsRefresh() returns (stale: bool)
      requires Linked()
      modifies this`lastRefresh, api`ticks
      ensures View() == Synced(old(View()))
      ensures stale == Stale(api.Surroundings(), old(View()), old(api.ticks))
      ensures api.ticks == TicksAfter(old(View()), old(api.ticks))
    {
      if base != null {
        BaseIsApart();
        lastRefresh := Max(lastRefresh, base.lastRefresh);
        BaseIsApart();
      }
      if lastRefresh == 0 || refreshDuration < 0 {
        return true;
      } else if FOREVER - refreshDuration > lastRefresh {
        var nextRefresh := lastRefresh + refreshDuration;
        var now := api.Now();
        if now >= nextRefresh {
          return true;
        }
      }
      return false;
    }

    /** value[key] = child, as a child cache does it to its base. */
    method StoreEntry(key: string, child: Json) returns (ok: bool)
      requires Linked()
      modifies this`value
      ensures ok <==> Stored(old(value), key, child).Some?
      ensures View() == [old(View())[0].(value := if ok then Stored(old(value), key, child).value else old(value))]
                        + old(View())[1..]
    {
      if base != null { BaseIsApart(); }
      var stored := Stored(value, key, child);
      ok := stored.Some?;
      if ok {
        value := stored.value;
        if base != null { BaseIsApart(); }
      }
    }

    method Place(response: Json) returns (ok: bool)
      requires Linked()
      modifies chain
      ensures ok <==> Placed(old(View()), response).Some?
      ensures View() == if ok then Placed(old(View()), response).value else old(View())
      ensures lastRefresh == old(lastRefresh)
    {
      if base != null {
        BaseIsApart();
        ghost var c := View();
        ok := base.StoreEntry(path, response);
        BaseIsApart();
        assert c[1..][1..] == c[2..];
      } else {
        value := response;
        ok := true;
      }
    }

    /** The GET of refresh(), and storing its result. */
    method FetchHere() returns (fetch: Fetch)
      requires Linked()
      modifies chain, api
      ensures Refreshed(View(), api.View(), fetch)
           == CacheChain.FetchHere(api.Surroundings(), old(View()), old(api.View()))
    {
      var result := api.Get(GetRequestPath());
      if result == None {
        return GetFailed(0);
      }
      lastRefresh := api.Now();
      assert View() == [old(View())[0].(last := lastRefresh)] + old(View())[1..] by {
        if base != null { BaseIsApart(); }
      }
      var ok := Place(result.value);
      fetch := if ok then Fetched(0, lastRefresh, result.value) else TypeError(0, lastRefresh);
    }

    method Refresh() returns (fetch: Fetch)
      requires Linked()
      modifies chain, api
      ensures Refreshed(View(), api.View(), fetch)
           == CacheChain.Refresh(api.Surroundings(), old(View()), old(api.View()))
      decreases chain
    {
      var baseStale := false;
      if base != null {
        BaseIsApart();
        baseStale := base.NeedsRefresh();
      }
      if baseStale {
        fetch := base.Refresh();
        fetch := OneUp(fetch);
      } else {
        fetch := FetchHere();
      }
    }

    /** Non-const getValue(). */
    method GetValue() returns (result: Lookup)
      requires Linked()
      modifies chain, api
      ensures var g := CacheChain.GetValue(api.Surroundings(), old(View()), old(api.View()));
              View() == g.chain && api.View() == g.net && result == g.result
    {
      var stale := NeedsRefresh();
      if stale {
        var fetch := Refresh();
        if !fetch.Fetched? {
          return RefreshFailed;
        }
      }
      if base != null {
        if base.value.Object? && path in base.value.members {
          return Found(base.value.members[path]);
        }
        return NotPresent;
      }
      return Found(value);
    }

    /** Const getValue(). */
    method GetConstValue() returns (result: Lookup)
      requires Linked()
      ensures result == ConstValue(View())
      decreases chain
    {
      if base != null {
        var b := base.GetConstValue();
        if !b.Found? {
          return b;
        }
        if b.value.Object? && path in b.value.members {
          return Found(b.value.members[path]);
        }
        return NotPresent;
      }
      if lastRefresh == 0 {
        return NeverCached;
      }
      return Found(value);
    }
  }
}
