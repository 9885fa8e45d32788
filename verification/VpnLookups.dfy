/**
 check_vpn_ip of backend/app/routes/auth.py: a verdict per address, cached in every replica (L1) and
 in Redis for all of them (L2). Each layer keeps a verdict for ten minutes, but an L2 hit is stamped
 anew when it enters L1, so the two lifetimes add up.
 */
module VpnLookups {
  datatype Verdict = Verdict(isVpn: bool, isp: string, country: string, city: string, region: string)

  datatype Entry = Entry(verdict: Verdict, at: real)

  type Cache = map<string, Entry>

  /** A successful answer of the lookup service. */
  datatype Lookup = Lookup(ip: string, verdict: Verdict, at: real)

  /** What the lookup service would answer now: a verdict, a status other than success, or an exception. */
  datatype Live = Found(verdict: Verdict) | Refused | Raised

  datatype Source = PrivateRange | FromL1 | FromL2 | FromService | Fallback

  datatype Reply = Reply(verdict: Verdict, source: Source)

  /** One call of check_vpn_ip on a replica, with the outcome of everything outside of it. */
  datatype Call = Call(replica: nat, ip: string, now: real, live: Live, getOk: bool, setOk: bool)

  const TTL := 600.0
  const L1_LIMIT := 500
  const L1_PRUNED := 100

  const PRIVATE := Verdict(false, "Private Network", "Local", "Local", "Local")

  function Unknown(isVpn: bool): Verdict {
    Verdict(isVpn, "Unknown", "Unknown", "Unknown", "Unknown")
  }

  const PRIVATE_PREFIXES := ["10.", "172.", "192.168.", "127.", "0."]
  const LEGACY_VPN_PREFIXES := ["45.", "82.", "185.", "104.", "198."]

  predicate StartsWithAny(ip: string, prefixes: seq<string>) {
    exists p :: p in prefixes && p <= ip
  }

  predicate Fresh(cache: Cache, ip: string, now: real) {
    ip in cache && now - cache[ip].at < TTL
  }

  /** What is left of an L1 cache after the hundred entries with the oldest stamps are deleted. The
      order among equal stamps is left open. */
  ghost predicate Pruned(full: Cache, kept: Cache) {
    && kept.Keys <= full.Keys
    && (forall ip :: ip in kept ==> kept[ip] == full[ip])
    && |kept| == |full| - L1_PRUNED
    && (forall gone, ip :: gone in full && gone !in kept && ip in kept ==> full[gone].at <= full[ip].at)
  }

  ghost predicate Limited(full: Cache, kept: Cache) {
    if |full| > L1_LIMIT then Pruned(full, kept) else kept == full
  }

  /** What one call can see and change; `log` lists the successful lookups of all replicas so far. */
  datatype Scope = Scope(l1: Cache, l2: Cache, log: seq<Lookup>)

  ghost predicate Serve(redisUp: bool, s: Scope, t: Scope, c: Call, r: Reply) {
    if StartsWithAny(c.ip, PRIVATE_PREFIXES) then
      t == s && r == Reply(PRIVATE, PrivateRange)
    else if Fresh(s.l1, c.ip, c.now) then
      t == s && r == Reply(s.l1[c.ip].verdict, FromL1)
    else if redisUp && c.getOk && Fresh(s.l2, c.ip, c.now) then
      t == s.(l1 := s.l1[c.ip := Entry(s.l2[c.ip].verdict, c.now)]) && r == Reply(s.l2[c.ip].verdict, FromL2)
    else
      match c.live
      case Found(v) =>
        && Limited(s.l1[c.ip := Entry(v, c.now)], t.l1)
        && t.l2 == (if redisUp && c.setOk then s.l2[c.ip := Entry(v, c.now)] else s.l2)
        && t.log == s.log + [Lookup(c.ip, v, c.now)]
        && r == Reply(v, FromService)
      case Refused => t == s && r == Reply(Unknown(false), Fallback)
      case Raised => t == s && r == Reply(Unknown(StartsWithAny(c.ip, LEGACY_VPN_PREFIXES)), Fallback)
  }

  // ---- All replicas ----

  datatype System = System(replicas: map<nat, Cache>, l2: Cache, log: seq<Lookup>)

  const START := System(map[], map[], [])

  function L1Of(s: System, i: nat): Cache {
    if i in s.replicas then s.replicas[i] else map[]
  }

  function ScopeOf(s: System, i: nat): Scope {
    Scope(L1Of(s, i), s.l2, s.log)
  }

  ghost predicate Next(redisUp: bool, s: System, t: System, c: Call, r: Reply) {
    && Serve(redisUp, ScopeOf(s, c.replica), ScopeOf(t, c.replica), c, r)
    && forall i: nat :: i != c.replica ==> L1Of(t, i) == L1Of(s, i)
  }

  /** A run of calls in order of time: states[i] is the system before calls[i]. */
  datatype Run = Run(states: seq<System>, calls: seq<Call>, replies: seq<Reply>)

  ghost predicate IsRun(redisUp: bool, run: Run) {
    && |run.states| == |run.calls| + 1 && |run.replies| == |run.calls|
    && run.states[0] == START
    && (forall i :: 0 <= i < |run.calls| ==>
          Next(redisUp, run.states[i], run.states[i + 1], run.calls[i], run.replies[i]))
    && (forall i :: 0 < i < |run.calls| ==> run.calls[i - 1].now <= run.calls[i].now)
  }

  /** The service said `verdict` about `ip` after `since`, and no later than `until`. */
  predicate WasSaid(log: seq<Lookup>, ip: string, verdict: Verdict, since: real, until: real) {
    exists l :: l in log && l.ip == ip && l.verdict == verdict && since < l.at <= until
  }

  // ---- How old a cached verdict can be ----

  predicate L1Backed(log: seq<Lookup>, ip: string, e: Entry, clock: real) {
    e.at <= clock && WasSaid(log, ip, e.verdict, e.at - TTL, e.at)
  }

  predicate L2Backed(log: seq<Lookup>, ip: string, e: Entry, clock: real) {
    e.at <= clock && Lookup(ip, e.verdict, e.at) in log
  }

  /** Every L1 entry rests on a lookup made less than TTL before its stamp, every L2 entry on one made
      when it was stored. */
  predicate Backed(s: Scope, clock: real) {
    && (forall ip :: ip in s.l1 ==> L1Backed(s.log, ip, s.l1[ip], clock))
    && (forall ip :: ip in s.l2 ==> L2Backed(s.log, ip, s.l2[ip], clock))
  }

  ghost predicate AllBacked(s: System, clock: real) {
    forall i: nat :: Backed(ScopeOf(s, i), clock)
  }

  lemma LaterBacked(s: Scope, log: seq<Lookup>, clock: real, now: real)
    requires Backed(s, clock) && clock <= now && s.log <= log
    ensures Backed(s.(log := log), now)
  {
    forall ip | ip in s.l1 ensures L1Backed(log, ip, s.l1[ip], now) {
      var e := s.l1[ip];
      assert L1Backed(s.log, ip, e, clock);
      var l :| l in s.log && l.ip == ip && l.verdict == e.verdict && e.at - TTL < l.at <= e.at;
      assert l in log;
    }
    forall ip | ip in s.l2 ensures L2Backed(log, ip, s.l2[ip], now) {
      assert L2Backed(s.log, ip, s.l2[ip], clock);
    }
  }

  lemma ServeOnlyAddsToLog(redisUp: bool, s: Scope, t: Scope, c: Call, r: Reply)
    requires Serve(redisUp, s, t, c, r)
    ensures s.log <= t.log
  {
  }

  lemma ServeKeepsBacked(redisUp: bool, s: Scope, t: Scope, c: Call, r: Reply, clock: real)
    requires Backed(s, clock) && clock <= c.now && Serve(redisUp, s, t, c, r)
    ensures Backed(t, c.now)
  {
    ServeOnlyAddsToLog(redisUp, s, t, c, r);
    LaterBacked(s, t.log, clock, c.now);
    var before := s.(log := t.log);
    if t.log != s.log {
      var l := Lookup(c.ip, c.live.verdict, c.now);
      assert l in t.log;
      forall ip | ip in t.l1 ensures L1Backed(t.log, ip, t.l1[ip], c.now) {
        assert ip != c.ip ==> L1Backed(t.log, ip, before.l1[ip], c.now);
      }
      forall ip | ip in t.l2 ensures L2Backed(t.log, ip, t.l2[ip], c.now) {
        assert ip != c.ip ==> L2Backed(t.log, ip, before.l2[ip], c.now);
      }
    } else if r.source == FromL2 {
      assert L2Backed(t.log, c.ip, s.l2[c.ip], c.now);
      forall ip | ip in t.l1 ensures L1Backed(t.log, ip, t.l1[ip], c.now) {
        assert ip != c.ip ==> L1Backed(t.log, ip, before.l1[ip], c.now);
      }
    }
  }

  lemma NextKeepsBacked(redisUp: bool, s: System, t: System, c: Call, r: Reply, clock: real)
    requires AllBacked(s, clock) && clock <= c.now && Next(redisUp, s, t, c, r)
    ensures AllBacked(t, c.now)
  {
    var mine := ScopeOf(t, c.replica);
    assert Backed(ScopeOf(s, c.replica), clock);
    ServeKeepsBacked(redisUp, ScopeOf(s, c.replica), mine, c, r, clock);
    ServeOnlyAddsToLog(redisUp, ScopeOf(s, c.replica), mine, c, r);
    forall i: nat ensures Backed(ScopeOf(t, i), c.now) {
      if i != c.replica {
        LaterBacked(ScopeOf(s, i), t.log, clock, c.now);
        var theirs := ScopeOf(s, i).(log := t.log);
        assert ScopeOf(t, i).l1 == theirs.l1 && mine.l2 == ScopeOf(t, i).l2;
        forall ip | ip in t.l2 ensures L2Backed(t.log, ip, t.l2[ip], c.now) {
          assert ip in mine.l2;
        }
        forall ip | ip in theirs.l1 ensures L1Backed(t.log, ip, theirs.l1[ip], c.now) {
        }
      }
    }
  }

  lemma {:induction false} RunIsBacked(redisUp: bool, run: Run, i: nat)
    requires IsRun(redisUp, run) && i < |run.calls|
    ensures AllBacked(run.states[i], run.calls[i].now)
  {
    if i > 0 {
      RunIsBacked(redisUp, run, i - 1);
      NextKeepsBacked(redisUp, run.states[i - 1], run.states[i], run.calls[i - 1], run.replies[i - 1],
                      run.calls[i - 1].now);
      forall j: nat ensures Backed(ScopeOf(run.states[i], j), run.calls[i].now) {
        LaterBacked(ScopeOf(run.states[i], j), run.states[i].log, run.calls[i - 1].now, run.calls[i].now);
      }
    }
  }

  // ---- Without Redis ----

  /** Every L1 entry bears the time of its lookup. */
  ghost predicate AllStamped(s: System) {
    forall i: nat, ip :: ip in L1Of(s, i) ==> Lookup(ip, L1Of(s, i)[ip].verdict, L1Of(s, i)[ip].at) in s.log
  }

  lemma ServeStamps(s: Scope, t: Scope, c: Call, r: Reply, ip: string)
    requires Serve(false, s, t, c, r) && ip in t.l1
    requires ip in s.l1 ==> Lookup(ip, s.l1[ip].verdict, s.l1[ip].at) in s.log
    ensures Lookup(ip, t.l1[ip].verdict, t.l1[ip].at) in t.log
  {
    ServeOnlyAddsToLog(false, s, t, c, r);
    if r.source == FromService {
      assert Limited(s.l1[c.ip := Entry(r.verdict, c.now)], t.l1);
      assert t.log[|s.log|] == Lookup(c.ip, r.verdict, c.now);
    }
  }

  lemma {:induction false} StampedWithoutRedis(run: Run, i: nat)
    requires IsRun(false, run) && i < |run.states|
    ensures AllStamped(run.states[i])
  {
    if i > 0 {
      StampedWithoutRedis(run, i - 1);
      var s, t, c, r := run.states[i - 1], run.states[i], run.calls[i - 1], run.replies[i - 1];
      assert Next(false, s, t, c, r);
      ServeOnlyAddsToLog(false, ScopeOf(s, c.replica), ScopeOf(t, c.replica), c, r);
      forall j: nat, ip | ip in L1Of(t, j) ensures Lookup(ip, L1Of(t, j)[ip].verdict, L1Of(t, j)[ip].at) in t.log {
        if j == c.replica {
          ServeStamps(ScopeOf(s, j), ScopeOf(t, j), c, r, ip);
        }
      }
    }
  }

  /** The longest a verdict in L1 lives. */
  function Lifetime(redisUp: bool): real {
    if redisUp then 2.0 * TTL else TTL
  }

  /** With any number of replicas and over every run: a verdict served from Redis is what the service
      said about that address less than 600 s before; one served from memory less than 1200 s before,
      and less than 600 s if there is no Redis. */
  lemma CachedVerdictsAreRecent(redisUp: bool, run: Run, i: nat)
    requires IsRun(redisUp, run) && i < |run.calls|
    ensures var c, r := run.calls[i], run.replies[i];
            && (r.source == FromL2 ==> WasSaid(run.states[i].log, c.ip, r.verdict, c.now - TTL, c.now))
            && (r.source == FromL1 ==> WasSaid(run.states[i].log, c.ip, r.verdict, c.now - Lifetime(redisUp), c.now))
  {
    var c, r, s := run.calls[i], run.replies[i], ScopeOf(run.states[i], run.calls[i].replica);
    RunIsBacked(redisUp, run, i);
    assert Backed(s, c.now);
    assert Next(redisUp, run.states[i], run.states[i + 1], c, r);
    if r.source == FromL1 {
      var e := s.l1[c.ip];
      assert L1Backed(s.log, c.ip, e, c.now);
      if redisUp {
        var l :| l in s.log && l.ip == c.ip && l.verdict == e.verdict && e.at - TTL < l.at <= e.at;
        assert l in run.states[i].log;
      } else {
        StampedWithoutRedis(run, i);
        assert Lookup(c.ip, e.verdict, e.at) in s.log;
      }
    } else if r.source == FromL2 {
      assert L2Backed(s.log, c.ip, s.l2[c.ip], c.now);
    }
  }

  // ---- The bound is tight ----

  /** A lookup on one replica, a visit to a second and, `age` after the lookup, another visit there:
      although the service has changed its mind, the first verdict is served. */
  lemma AnyAgeBelowBothLifetimes(ip: string, v: Verdict, w: Verdict, age: real) returns (run: Run)
    requires !StartsWithAny(ip, PRIVATE_PREFIXES) && 0.0 <= age < 2.0 * TTL
    ensures IsRun(true, run) && |run.calls| == 3
    ensures run.states[2].log == [Lookup(ip, v, 0.0)]
    ensures run.calls[2] == Call(1, ip, age, Found(w), true, true) && run.replies[2].verdict == v
    ensures run.replies[2].source == FromL1
  {
    var half := age / 2.0;
    var calls := [Call(0, ip, 0.0, Found(v), true, true), Call(1, ip, half, Found(w), true, true),
                  Call(1, ip, age, Found(w), true, true)];
    var looked := System(map[0 := map[ip := Entry(v, 0.0)]], map[ip := Entry(v, 0.0)], [Lookup(ip, v, 0.0)]);
    var restamped := looked.(replicas := looked.replicas[1 := map[ip := Entry(v, half)]]);
    var replies := [Reply(v, FromService), Reply(v, FromL2), Reply(v, FromL1)];
    FirstLookup(ip, v);
    assert Next(true, looked, restamped, calls[1], replies[1]);
    assert Next(true, restamped, restamped, calls[2], replies[2]);
    run := Run([START, looked, restamped, restamped], calls, replies);
  }

  lemma FirstLookup(ip: string, v: Verdict)
    requires !StartsWithAny(ip, PRIVATE_PREFIXES)
    ensures Next(true, START,
                 System(map[0 := map[ip := Entry(v, 0.0)]], map[ip := Entry(v, 0.0)], [Lookup(ip, v, 0.0)]),
                 Call(0, ip, 0.0, Found(v), true, true), Reply(v, FromService))
  {
    var full := (map[])[ip := Entry(v, 0.0)];
    assert full == map[ip := Entry(v, 0.0)];
    assert full.Keys == {ip} && |full| == 1;
    assert [] + [Lookup(ip, v, 0.0)] == [Lookup(ip, v, 0.0)];
  }

  // ---- Exactly when ten minutes is the limit ----

  predicate SaidLately(log: seq<Lookup>, ip: string, verdict: Verdict, now: real) {
    WasSaid(log, ip, verdict, now - TTL, now)
  }

  ghost predicate UnderTenMinutes(run: Run, i: nat)
    requires i < |run.calls| == |run.replies| < |run.states|
  {
    run.replies[i].source == FromL1 ==>
      SaidLately(run.states[i].log, run.calls[i].ip, run.replies[i].verdict, run.calls[i].now)
  }

  /** Every verdict served from memory in every run is less than ten minutes old if and only if there is
      no Redis. */
  lemma TenMinutesExactly(redisUp: bool)
    ensures (forall run: Run, i: nat :: IsRun(redisUp, run) && i < |run.calls| ==> UnderTenMinutes(run, i))
            <==> !redisUp
  {
    if redisUp {
      EightsArePublic("8.8.8.8");
      var v, w := Unknown(true), Unknown(false);
      var run := AnyAgeBelowBothLifetimes("8.8.8.8", v, w, 900.0);
      assert !SaidLately(run.states[2].log, "8.8.8.8", v, 900.0);
      assert !UnderTenMinutes(run, 2);
    } else {
      forall run: Run, i: nat | IsRun(redisUp, run) && i < |run.calls| ensures UnderTenMinutes(run, i) {
        CachedVerdictsAreRecent(redisUp, run, i);
      }
    }
  }

  /** For as long as the entry is served, its verdict was said less than ten minutes before. */
  ghost predicate KeepsTenMinutes(log: seq<Lookup>, ip: string, e: Entry) {
    forall now: real :: e.at <= now < e.at + TTL ==> SaidLately(log, ip, e.verdict, now)
  }

  // The time of the latest lookup with this answer, if there was one.
  lemma {:induction false} LatestSaid(log: seq<Lookup>, ip: string, verdict: Verdict, before: real) returns (at: real)
    requires forall l <- log :: l.ip == ip && l.verdict == verdict ==> l.at < before
    ensures at < before && forall l <- log :: l.ip == ip && l.verdict == verdict ==> l.at <= at
  {
    at := before - 1.0;
    if log != [] {
      at := LatestSaid(log[1..], ip, verdict, before);
      var first := log[0];
      if first.ip == ip && first.verdict == verdict && first.at > at {
        at := first.at;
      }
      assert log == [first] + log[1..];
    }
  }

  /** An entry keeps to ten minutes if and only if its stamp is the time of a lookup, given the log when
      it was stamped. */
  lemma StampDecides(log: seq<Lookup>, ip: string, e: Entry)
    requires forall l <- log :: l.at <= e.at
    ensures KeepsTenMinutes(log, ip, e) <==> Lookup(ip, e.verdict, e.at) in log
  {
    if Lookup(ip, e.verdict, e.at) !in log {
      forall l <- log | l.ip == ip && l.verdict == e.verdict ensures l.at < e.at {
        assert l == Lookup(l.ip, l.verdict, l.at);
      }
      var latest := LatestSaid(log, ip, e.verdict, e.at);
      var now := if latest + TTL < e.at then e.at else latest + TTL;
      assert e.at <= now < e.at + TTL && !SaidLately(log, ip, e.verdict, now);
    }
  }

  lemma ServeLogsNow(redisUp: bool, s: Scope, t: Scope, c: Call, r: Reply)
    requires Serve(redisUp, s, t, c, r)
    ensures forall l <- t.log :: l in s.log || l.at == c.now
  {
  }

  lemma {:induction false} LogIsPast(redisUp: bool, run: Run, i: nat)
    requires IsRun(redisUp, run) && i < |run.calls|
    ensures forall l <- run.states[i + 1].log :: l.at <= run.calls[i].now
  {
    var s, t, c, r := run.states[i], run.states[i + 1], run.calls[i], run.replies[i];
    assert Next(redisUp, s, t, c, r);
    ServeLogsNow(redisUp, ScopeOf(s, c.replica), ScopeOf(t, c.replica), c, r);
    if i > 0 {
      LogIsPast(redisUp, run, i - 1);
    }
  }

  /** So, for the entry a call leaves in L1: one written after a lookup keeps to ten minutes, and one
      restamped from Redis does if and only if the address was looked up at that very moment. */
  lemma RestampingDecides(redisUp: bool, run: Run, i: nat)
    requires IsRun(redisUp, run) && i < |run.calls|
    requires run.replies[i].source == FromService || run.replies[i].source == FromL2
    requires run.calls[i].ip in L1Of(run.states[i + 1], run.calls[i].replica)
    ensures var c, r, log := run.calls[i], run.replies[i], run.states[i + 1].log;
            var e := L1Of(run.states[i + 1], c.replica)[c.ip];
            && e == Entry(r.verdict, c.now)
            && (r.source == FromService ==> KeepsTenMinutes(log, c.ip, e))
            && (r.source == FromL2 ==> (KeepsTenMinutes(log, c.ip, e) <==> Lookup(c.ip, r.verdict, c.now) in log))
  {
    var c, r, s, t := run.calls[i], run.replies[i], run.states[i], run.states[i + 1];
    assert Next(redisUp, s, t, c, r);
    LogIsPast(redisUp, run, i);
    StampDecides(t.log, c.ip, Entry(r.verdict, c.now));
    if r.source == FromService {
      assert Limited(L1Of(s, c.replica)[c.ip := Entry(r.verdict, c.now)], L1Of(t, c.replica));
      assert t.log[|s.log|] == Lookup(c.ip, r.verdict, c.now);
    }
  }

  // ---- The size of L1 ----

  lemma ServeLimitsL1(s: Scope, t: Scope, c: Call, r: Reply)
    requires |s.l1| <= L1_LIMIT && Serve(false, s, t, c, r)
    ensures |t.l1| <= L1_LIMIT
  {
    if r.source == FromService {
      var full := s.l1[c.ip := Entry(r.verdict, c.now)];
      assert full.Keys == s.l1.Keys + {c.ip};
      assert |full| == |full.Keys| && |s.l1| == |s.l1.Keys|;
      assert Limited(full, t.l1);
    }
  }

  /** Without Redis no replica ever holds more than 500 verdicts after a call. */
  lemma {:induction false} L1StaysSmallWithoutRedis(run: Run, i: nat, replica: nat)
    requires IsRun(false, run) && i < |run.states|
    ensures |L1Of(run.states[i], replica)| <= L1_LIMIT
  {
    if i > 0 {
      L1StaysSmallWithoutRedis(run, i - 1, replica);
      var s, t, c := run.states[i - 1], run.states[i], run.calls[i - 1];
      assert Next(false, s, t, c, run.replies[i - 1]);
      if replica == c.replica {
        ServeLimitsL1(ScopeOf(s, replica), ScopeOf(t, replica), c, run.replies[i - 1]);
      }
    }
  }

  lemma {:induction false} OldestCanGo(full: Cache, n: nat) returns (kept: Cache)
    requires n <= |full|
    ensures kept.Keys <= full.Keys && |kept| == |full| - n
    ensures forall ip :: ip in kept ==> kept[ip] == full[ip]
    ensures forall gone, ip :: gone in full && gone !in kept && ip in kept ==> full[gone].at <= full[ip].at
  {
    kept := full;
    if n > 0 {
      kept := OldestCanGo(full, n - 1);
      var oldest := OldestOf(kept);
      assert (kept - {oldest}).Keys == kept.Keys - {oldest};
      assert |kept - {oldest}| == |(kept - {oldest}).Keys| && |kept| == |kept.Keys|;
      kept := kept - {oldest};
    }
  }

  lemma {:induction false} OldestOf(cache: Cache) returns (oldest: string)
    requires |cache| > 0
    ensures oldest in cache && forall ip :: ip in cache ==> cache[oldest].at <= cache[ip].at
    decreases |cache|
  {
    assert |cache| == |cache.Keys|;
    oldest :| oldest in cache;
    var rest := cache - {oldest};
    assert rest.Keys == cache.Keys - {oldest} && |rest| == |rest.Keys|;
    assert forall ip :: ip in cache ==> ip == oldest || ip in rest;
    if |rest| > 0 {
      var other := OldestOf(rest);
      if cache[other].at <= cache[oldest].at {
        oldest := other;
      }
    }
  }

  lemma Extended(redisUp: bool, run: Run, t: System, c: Call, r: Reply) returns (longer: Run)
    requires IsRun(redisUp, run)
    requires |run.calls| > 0 ==> run.calls[|run.calls| - 1].now <= c.now
    requires Next(redisUp, run.states[|run.calls|], t, c, r)
    ensures IsRun(redisUp, longer) && longer.states[|longer.calls|] == t
    ensures longer.calls == run.calls + [c]
  {
    longer := Run(run.states + [t], run.calls + [c], run.replies + [r]);
    forall i | 0 <= i < |longer.calls|
      ensures Next(redisUp, longer.states[i], longer.states[i + 1], longer.calls[i], longer.replies[i])
    {
      if i < |run.calls| {
        assert Next(redisUp, run.states[i], run.states[i + 1], run.calls[i], run.replies[i]);
      }
    }
  }

  predicate Distinct(ips: seq<string>) {
    forall i, j :: 0 <= i < j < |ips| ==> ips[i] != ips[j]
  }

  // A lookup on replica 0 that nothing cached could answer.
  lemma LookedUpOnFirst(s: System, ip: string, v: Verdict) returns (t: System)
    requires !StartsWithAny(ip, PRIVATE_PREFIXES) && ip !in L1Of(s, 0) && ip !in s.l2
    ensures Next(true, s, t, Call(0, ip, 0.0, Found(v), true, true), Reply(v, FromService))
    ensures t.l2 == s.l2[ip := Entry(v, 0.0)] && L1Of(t, 1) == L1Of(s, 1)
    ensures L1Of(t, 0).Keys <= L1Of(s, 0).Keys + {ip}
  {
    var full := L1Of(s, 0)[ip := Entry(v, 0.0)];
    var kept := full;
    if |full| > L1_LIMIT {
      kept := OldestCanGo(full, L1_PRUNED);
    }
    t := System(s.replicas[0 := kept], s.l2[ip := Entry(v, 0.0)], s.log + [Lookup(ip, v, 0.0)]);
    assert ScopeOf(t, 0) == Scope(kept, t.l2, t.log) && Limited(full, kept);
    assert Serve(true, ScopeOf(s, 0), ScopeOf(t, 0), Call(0, ip, 0.0, Found(v), true, true), Reply(v, FromService));
  }

  // And a visit to replica 1 that finds it in Redis.
  lemma FoundOnSecond(s: System, ip: string, v: Verdict) returns (t: System)
    requires !StartsWithAny(ip, PRIVATE_PREFIXES) && ip !in L1Of(s, 1) && ip in s.l2 && s.l2[ip] == Entry(v, 0.0)
    ensures Next(true, s, t, Call(1, ip, 0.0, Raised, true, true), Reply(v, FromL2))
    ensures t.l2 == s.l2 && L1Of(t, 0) == L1Of(s, 0)
    ensures L1Of(t, 1).Keys == L1Of(s, 1).Keys + {ip}
  {
    t := s.(replicas := s.replicas[1 := L1Of(s, 1)[ip := Entry(v, 0.0)]]);
  }

  function Elements(ips: seq<string>): set<string> {
    set ip | ip in ips
  }

  /** With Redis nothing bounds it: a replica can come to hold any set of public addresses, for each was
      looked up on another replica and found in Redis here, where a hit never prunes. */
  lemma {:induction false} AnySizeWithRedis(ips: seq<string>, v: Verdict) returns (run: Run)
    requires Distinct(ips) && forall ip :: ip in ips ==> !StartsWithAny(ip, PRIVATE_PREFIXES)
    ensures IsRun(true, run) && forall c :: c in run.calls ==> c.now == 0.0
    ensures var last := run.states[|run.calls|];
            && L1Of(last, 1).Keys == Elements(ips)
            && L1Of(last, 0).Keys <= Elements(ips) && last.l2.Keys <= Elements(ips)
  {
    if ips == [] {
      return Run([START], [], []);
    }
    var n := |ips| - 1;
    var ip := ips[n];
    run := AnySizeWithRedis(ips[..n], v);
    assert ip !in Elements(ips[..n]) && Elements(ips) == Elements(ips[..n]) + {ip};
    var looked := LookedUpOnFirst(run.states[|run.calls|], ip, v);
    run := Extended(true, run, looked, Call(0, ip, 0.0, Found(v), true, true), Reply(v, FromService));
    var found := FoundOnSecond(looked, ip, v);
    run := Extended(true, run, found, Call(1, ip, 0.0, Raised, true, true), Reply(v, FromL2));
  }

  // Public addresses, one of each length.
  function Eights(n: nat): (ips: seq<string>)
    ensures |ips| == n && forall i :: 0 <= i < n ==> |ips[i]| == i + 1 && ips[i][0] == '8'
  {
    if n == 0 then [] else Eights(n - 1) + [seq(n, i => '8')]
  }

  lemma EightsArePublic(ip: string)
    requires ip != "" && ip[0] == '8'
    ensures !StartsWithAny(ip, PRIVATE_PREFIXES)
  {
    forall p <- PRIVATE_PREFIXES ensures !(p <= ip) {
      assert p[0] in "170";
    }
  }

  lemma {:induction false} HowManyElements(ips: seq<string>)
    requires Distinct(ips)
    ensures |Elements(ips)| == |ips|
  {
    if ips != [] {
      var init, last := ips[..|ips| - 1], ips[|ips| - 1];
      HowManyElements(init);
      assert Elements(ips) == Elements(init) + {last} && last !in Elements(init);
    }
  }

  ghost predicate StaysSmall(run: Run, i: nat, replica: nat)
    requires i < |run.states|
  {
    |L1Of(run.states[i], replica)| <= L1_LIMIT
  }

  /** The limit of 500 entries holds in every run if and only if there is no Redis. */
  lemma LimitHoldsExactly(redisUp: bool)
    ensures (forall run: Run, i: nat, replica: nat ::
               IsRun(redisUp, run) && i < |run.states| ==> StaysSmall(run, i, replica))
            <==> !redisUp
  {
    if redisUp {
      var ips := Eights(L1_LIMIT + 1);
      assert Distinct(ips);
      forall ip <- ips ensures !StartsWithAny(ip, PRIVATE_PREFIXES) {
        EightsArePublic(ip);
      }
      var run := AnySizeWithRedis(ips, Unknown(false));
      HowManyElements(ips);
      var l1 := L1Of(run.states[|run.calls|], 1);
      assert |l1| == |l1.Keys| == L1_LIMIT + 1;
      assert !StaysSmall(run, |run.calls|, 1);
    } else {
      forall run: Run, i: nat, replica: nat | IsRun(redisUp, run) && i < |run.states|
        ensures StaysSmall(run, i, replica)
      {
        L1StaysSmallWithoutRedis(run, i, replica);
      }
    }
  }
}
