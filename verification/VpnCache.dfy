/**
 check_vpn_ip on one replica: its own dictionary, the Redis keys it shares with the others, and the
 pruning of the dictionary in place. One call is one step of VpnLookups.
 */
module VpnCaches {
  import opened VpnLookups

  /** The vpn:{ip} keys in Redis. */
  class VpnRedis {
    var verdicts: Cache

    constructor ()
      ensures verdicts == map[]
    {
      verdicts := map[];
    }
  }

  /** ip-api.com, with what it has said so far. */
  class LookupService {
    ghost var log: seq<Lookup>

    constructor ()
      ensures log == []
    {
      log := [];
    }
  }

  // sorted(cache.items(), key=_ts)[:n]
  method Oldest(cache: Cache, n: nat) returns (oldest: seq<string>, rest: Cache)
    requires n <= |cache|
    ensures |oldest| == n && forall ip :: ip in oldest ==> ip in cache && ip !in rest
    ensures forall ip :: ip in cache ==> ip in oldest || ip in rest
    ensures rest.Keys <= cache.Keys && |rest| == |cache| - n
    ensures forall a, b :: a in oldest && b in rest ==> cache[a].at <= cache[b].at
    ensures forall ip :: ip in rest ==> rest[ip] == cache[ip]
  {
    oldest, rest := [], cache;
    while |oldest| < n
      invariant |oldest| <= n && |rest| == |cache| - |oldest|
      invariant rest.Keys <= cache.Keys
      invariant forall ip :: ip in oldest ==> ip in cache && ip !in rest
      invariant forall ip :: ip in cache ==> ip in oldest || ip in rest
      invariant forall a, b :: a in oldest && b in rest ==> cache[a].at <= cache[b].at
      invariant forall ip :: ip in rest ==> rest[ip] == cache[ip]
    {
      var next := Smallest(rest);
      assert |rest| == |rest.Keys| && (rest - {next}).Keys == rest.Keys - {next};
      assert |rest - {next}| == |(rest - {next}).Keys|;
      oldest, rest := oldest + [next], rest - {next};
    }
  }

  method Smallest(cache: Cache) returns (least: string)
    requires |cache| > 0
    ensures least in cache && forall ip :: ip in cache ==> cache[least].at <= cache[ip].at
  {
    assert |cache| == |cache.Keys|;
    least :| least in cache;
    var todo := cache.Keys - {least};
    while todo != {}
      invariant least in cache && todo <= cache.Keys
      invariant forall ip :: ip in cache && ip !in todo ==> cache[least].at <= cache[ip].at
      decreases |todo|
    {
      var ip :| ip in todo;
      if cache[ip].at < cache[least].at {
        least := ip;
      }
      todo := todo - {ip};
    }
  }

  class VpnReplica {
    var vpnCache: Cache
    const redis: VpnRedis?
    const service: LookupService

    constructor (redis: VpnRedis?, service: LookupService)
      ensures vpnCache == map[] && this.redis == redis && this.service == service
    {
      vpnCache := map[];
      this.redis, this.service := redis, service;
    }

    ghost function Seen(): Scope
      reads this, service, redis
    {
      Scope(vpnCache, if redis != null then redis.verdicts else map[], service.log)
    }

    // Deletes the hundred oldest entries, one by one.
    method Prune()
      modifies this`vpnCache
      ensures Limited(old(vpnCache), vpnCache)
    {
      if |vpnCache| > L1_LIMIT {
        var oldest, rest := Oldest(vpnCache, L1_PRUNED);
        for k := 0 to |oldest|
          invariant rest.Keys <= vpnCache.Keys <= old(vpnCache).Keys
          invariant forall ip :: ip in vpnCache ==> vpnCache[ip] == old(vpnCache)[ip]
          invariant forall ip :: ip in vpnCache ==> ip in rest || ip in oldest[k..]
        {
          vpnCache := vpnCache - {oldest[k]};
        }
        assert vpnCache.Keys == rest.Keys;
        assert vpnCache == rest;
      }
    }

    method CheckVpnIp(c: Call) returns (r: Reply)
      modifies this`vpnCache, redis, service
      ensures Serve(redis != null, old(Seen()), Seen(), c, r)
    {
      if StartsWithAny(c.ip, PRIVATE_PREFIXES) {
        return Reply(PRIVATE, PrivateRange);
      }
      if c.ip in vpnCache && c.now - vpnCache[c.ip].at < TTL {
        return Reply(vpnCache[c.ip].verdict, FromL1);
      }
      if redis != null && c.getOk && c.ip in redis.verdicts && c.now - redis.verdicts[c.ip].at < TTL {
        var result := Entry(redis.verdicts[c.ip].verdict, c.now);
        vpnCache := vpnCache[c.ip := result];
        return Reply(result.verdict, FromL2);
      }
      match c.live
      case Raised =>
        return Reply(Unknown(StartsWithAny(c.ip, LEGACY_VPN_PREFIXES)), Fallback);
      case Refused =>
        return Reply(Unknown(false), Fallback);
      case Found(verdict) =>
        service.log := service.log + [Lookup(c.ip, verdict, c.now)];
        vpnCache := vpnCache[c.ip := Entry(verdict, c.now)];
        Prune();
        if redis != null && c.setOk {
          redis.verdicts := redis.verdicts[c.ip := Entry(verdict, c.now)];
        }
        return Reply(verdict, FromService);
    }
  }
}
