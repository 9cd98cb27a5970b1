/**
 * The process-wide TTL cache (pkg/common/hs_cache.go, pkg/common/utils.go) and
 * the export lookup that reads through it (pkg/driver/utils.go). Times are in
 * seconds on the process clock, which never goes back.
 */
module TtlCache {
  import opened Wrappers

  const DEFAULT_TTL := 60
  const EXPORTS_TTL := 30
  const ALL_EXPORTS_TTL := 60 * 60

  /** What a caller did: a Set with its expiration, or a Get, at a time. */
  datatype Op<V> = Put(key: string, value: V, expiration: int, at: int) | Read(key: string, at: int)

  /** The answer of an ideal cache that never deletes: the latest Put, unless its time is past. */
  ghost function Ideal<V>(history: seq<Op<V>>, key: string, now: int): Option<V> {
    if history == [] then None
    else
      var last := history[|history| - 1];
      if last.Put? && last.key == key then (if now > last.expiration then None else Some(last.value))
      else Ideal(history[..|history| - 1], key, now)
  }

  class Cache<V> {
    var data: map<string, (V, int)>
    ghost var history: seq<Op<V>>
    ghost var clock: int

    /** Every entry is the ideal one until it expires, and what is missing is missing ideally. */
    ghost predicate Valid()
      reads this
    {
      forall key: string, now: int :: clock <= now ==>
        Ideal(history, key, now) == if key in data && now <= data[key].1 then Some(data[key].0) else None
    }

    constructor (ghost start: int)
      ensures Valid() && history == [] && clock == start
    {
      data, history, clock := map[], [], start;
    }

    method Set(key: string, value: V, ttl: int, now: int)
      requires Valid() && clock <= now
      modifies this
      ensures Valid() && clock == now
      ensures history == old(history) + [Put(key, value, now + ttl, now)]
    {
      data := data[key := (value, now + ttl)];
      history, clock := history + [Put(key, value, now + ttl, now)], now;
      assert history[..|history| - 1] == old(history);
    }

    /** Get drops an expired entry; nothing a caller can see depends on that. */
    method Get(key: string, now: int) returns (found: Option<V>)
      requires Valid() && clock <= now
      modifies this
      ensures Valid() && clock == now
      ensures history == old(history) + [Read(key, now)]
      ensures found == Ideal(old(history), key, now)
    {
      found := None;
      if key !in data || now > data[key].1 {
        data := data - {key};
      } else {
        found := Some(data[key].0);
      }
      history, clock := history + [Read(key, now)], now;
      assert history[..|history| - 1] == old(history);
    }

    /** SetCacheData: a TTL of zero means a minute. */
    method SetData(key: string, value: V, seconds: int, now: int)
      requires Valid() && clock <= now
      modifies this
      ensures Valid() && clock == now
      ensures history == old(history) + [Put(key, value, now + (if seconds == 0 then DEFAULT_TTL else seconds), now)]
    {
      var ttl := seconds;
      if ttl == 0 {
        ttl := 60;
      }
      Set(key, value, ttl, now);
    }
  }

  /** A request to the cache: a Put with its TTL, or a Read. */
  datatype Request<V> = Store(key: string, value: V, ttl: int, at: int) | Fetch(key: string, at: int)

  function Logged<V>(requests: seq<Request<V>>): (log: seq<Op<V>>)
    ensures |log| == |requests|
  {
    seq(|requests|, i requires 0 <= i < |requests| =>
      match requests[i]
      case Store(key, value, ttl, at) => Put(key, value, at + ttl, at)
      case Fetch(key, at) => Read(key, at))
  }

  /**
   * Any history, served by the cache that deletes on read, gets at every
   * request the answer of the ideal cache that never deletes.
   */
  method Serve<V>(requests: seq<Request<V>>) returns (answers: seq<Option<V>>)
    requires forall i, j :: 0 <= i < j < |requests| ==> requests[i].at <= requests[j].at
    ensures |answers| == |requests|
    ensures forall i :: 0 <= i < |requests| && requests[i].Fetch? ==>
      answers[i] == Ideal(Logged(requests[..i]), requests[i].key, requests[i].at)
  {
    var cache := new Cache<V>(if requests == [] then 0 else requests[0].at);
    answers := [];
    assert Logged(requests[..0]) == [];
    for i := 0 to |requests|
      invariant cache.Valid() && cache.history == Logged(requests[..i]) && fresh(cache)
      invariant |answers| == i && (i < |requests| ==> cache.clock <= requests[i].at)
      invariant forall j :: 0 <= j < i && requests[j].Fetch? ==>
        answers[j] == Ideal(Logged(requests[..j]), requests[j].key, requests[j].at)
    {
      assert Logged(requests[..i + 1]) == Logged(requests[..i]) + [Logged(requests[..i + 1])[i]];
      match requests[i] {
        case Store(key, value, ttl, at) =>
          cache.Set(key, value, ttl, at);
          answers := answers + [None];
        case Fetch(key, at) =>
          var found := cache.Get(key, at);
          answers := answers + [found];
      }
    }
  }

  /** The latest Put decides: its value exactly until its expiration, then nothing. */
  lemma {:induction false} LatestPutDecides<V>(before: seq<Op<V>>, put: Op<V>, after: seq<Op<V>>, now: int)
    requires put.Put? && forall i :: 0 <= i < |after| ==> !(after[i].Put? && after[i].key == put.key)
    ensures Ideal(before + [put] + after, put.key, now) == if now <= put.expiration then Some(put.value) else None
  {
    var history := before + [put] + after;
    if after == [] {
      assert history == before + [put];
    } else {
      assert history[|history| - 1] == after[|after| - 1];
      assert history[..|history| - 1] == before + [put] + after[..|after| - 1];
      LatestPutDecides(before, put, after[..|after| - 1], now);
    }
  }

  /** What was never put is not there. */
  lemma {:induction false} NeverPutIsMissing<V>(history: seq<Op<V>>, key: string, now: int)
    requires forall i :: 0 <= i < |history| ==> !(history[i].Put? && history[i].key == key)
    ensures Ideal(history, key, now).None?
  {
    if history != [] { NeverPutIsMissing(history[..|history| - 1], key, now); }
  }

  // ---------------------------------------------------------- export lookup

  const PREFIXES := ["/", "/mnt/data-portal", ""]

  type Exports = seq<string>

  /** Prefix i is the first under which the share is exported. */
  predicate FirstPrefix(exports: Exports, share: string, i: nat) {
    i < |PREFIXES| && PREFIXES[i] + share in exports && forall j :: 0 <= j < i ==> PREFIXES[j] + share !in exports
  }

  predicate Exported(exports: Exports, share: string) {
    exists i :: 0 <= i < |PREFIXES| && PREFIXES[i] + share in exports
  }

  method MatchExport(exports: Exports, addr: string, share: string, subPath: string) returns (source: Option<string>)
    ensures source.Some? <==> Exported(exports, share)
    ensures source ==
      if "/" + share in exports then Some(addr + ":" + "/" + share + subPath)
      else if "/mnt/data-portal" + share in exports then Some(addr + ":" + "/mnt/data-portal" + share + subPath)
      else if share in exports then Some(addr + ":" + share + subPath)
      else None
    ensures source.Some? ==>
      exists i: nat :: FirstPrefix(exports, share, i) && source.value == addr + ":" + PREFIXES[i] + share + subPath
  {
    assert PREFIXES[0] == "/" && PREFIXES[1] == "/mnt/data-portal" && PREFIXES[2] == "";
    assert "" + share == share && addr + ":" + "" == addr + ":";
    for i := 0 to |PREFIXES|
      invariant forall j :: 0 <= j < i ==> PREFIXES[j] + share !in exports
    {
      for n := 0 to |exports|
        invariant PREFIXES[i] + share !in exports[..n]
      {
        assert exports[..n + 1] == exports[..n] + [exports[n]];
        if exports[n] == PREFIXES[i] + share {
          assert FirstPrefix(exports, share, i);
          return Some(addr + ":" + PREFIXES[i] + share + subPath);
        }
      }
      assert exports[..|exports|] == exports;
    }
    return None;
  }

  /** cachedNFSExports; `shown` is what showmount answers if it is asked. */
  method CachedExports(cache: Cache<Exports>, addr: string, fresh_: bool, shown: Option<Exports>, now: int)
    returns (exports: Option<Exports>, cached: bool)
    requires cache.Valid() && cache.clock <= now
    modifies cache
    ensures cache.Valid() && cache.clock <= now
    ensures cached <==> !fresh_ && Ideal(old(cache.history), "NFS_EXPORTS:" + addr, now).Some?
    ensures exports == if cached then Ideal(old(cache.history), "NFS_EXPORTS:" + addr, now) else shown
    ensures !cached && shown.Some? ==>
      forall later: int ::
        && Ideal(cache.history, "NFS_EXPORTS:" + addr, later) == (if later <= now + 30 then shown else None)
        && Ideal(cache.history, "NFS_EXPORTS", later) == (if later <= now + 3600 then shown else None)
    ensures cached || shown.None? ==>
      forall key, later: int :: Ideal(cache.history, key, later) == Ideal(old(cache.history), key, later)
    ensures !cached && shown.Some? ==>
      Ideal(cache.history, "NFS_EXPORTS:" + addr, now) == shown && Ideal(cache.history, "NFS_EXPORTS", now) == shown
  {
    var key := "NFS_EXPORTS:" + addr;
    if !fresh_ {
      ghost var before := cache.history;
      var hit := cache.Get(key, now);
      assert cache.history[..|cache.history| - 1] == before;
      if hit.Some? {
        return hit, true;
      }
    }
    if shown.None? {
      return None, false;
    }
    ghost var h := cache.history;
    cache.SetData(key, shown.value, EXPORTS_TTL, now);
    ghost var h1 := cache.history;
    cache.SetData("NFS_EXPORTS", shown.value, ALL_EXPORTS_TTL, now);
    assert |key| > |"NFS_EXPORTS"|;
    ghost var h2 := cache.history;
    assert h2[..|h2| - 1] == h1 && h1[..|h1| - 1] == h;
    forall later: int
      ensures Ideal(h2, key, later) == (if later <= now + 30 then shown else None)
      ensures Ideal(h2, "NFS_EXPORTS", later) == (if later <= now + 3600 then shown else None)
    {
      assert Ideal(h2, key, later) == Ideal(h1, key, later);
    }
    return shown, false;
  }

  /**
   * The lookup of one try. It asks showmount at most once, and reports no
   * match only when a list fetched by this very call lacks the share or that
   * fetch failed: a stale cached list alone never hides a share.
   */
  method FindExport(cache: Cache<Exports>, addr: string, share: string, subPath: string, shown: Option<Exports>,
      now: int)
    returns (source: Option<string>, fetches: nat)
    requires cache.Valid() && cache.clock <= now
    modifies cache
    ensures cache.Valid() && cache.clock <= now && fetches <= 1
    ensures source.None? ==> fetches == 1 && (shown.None? || !Exported(shown.value, share))
    ensures source.Some? ==>
      var exports := if fetches == 0 then Ideal(old(cache.history), "NFS_EXPORTS:" + addr, now) else shown;
      exports.Some? && exists i: nat ::
        FirstPrefix(exports.value, share, i) && source.value == addr + ":" + PREFIXES[i] + share + subPath
  {
    var exports, cached := CachedExports(cache, addr, false, shown, now);
    fetches := if cached then 0 else 1;
    if exports.None? {
      return None, fetches;
    }
    source := MatchExport(exports.value, addr, share, subPath);
    if source.None? && cached {
      exports, cached := CachedExports(cache, addr, true, shown, now);
      fetches := 1;
      if exports.Some? {
        source := MatchExport(exports.value, addr, share, subPath);
      }
    }
  }
}
