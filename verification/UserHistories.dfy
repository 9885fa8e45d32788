/**
 The rolling behaviour counters of backend/app/inference.py: what one event does to a user's history,
 and where that history lives between events.

 With Redis up, a history is saved in Redis for an hour. A read that misses falls back to the
 process-local dictionary, which hands out the stored object itself; the update then changes that
 object in place although the result is saved in Redis. So a miss leaves a copy behind, and the next
 miss starts from that copy rather than from an empty history.
 */
module UserHistories {
  import opened Counting
  import opened Options

  datatype History = History(firstSeenIp: Option<string>, prevIp: Option<string>, prevRegion: Option<string>,
                             lastEventTime: Option<real>, ipHops30m: nat, adminActions15m: nat,
                             failed30m: nat, events1h: nat)

  /** An event of the user; `at` is its timestamp in seconds. */
  datatype Event = Event(at: real, ip: string, region: string, isAdmin: bool, success: bool)

  const FRESH := History(None, None, None, None, 0, 0, 0, 0)

  const EXPIRY := 3600.0

  /** int(count * max(0, 1 - elapsed / window)), with the window in minutes. */
  function Decay(count: nat, elapsed: real, window: real): (left: nat)
    requires window > 0.0
  {
    var factor := 1.0 - elapsed / 60.0 / window;
    if factor <= 0.0 then 0
    else
      ScaledIsNonNegative(count, factor);
      (count as real * factor).Floor
  }

  lemma ScaledIsNonNegative(count: nat, factor: real)
    requires factor > 0.0
    ensures count as real * factor >= 0.0
  {
  }

  predicate IpChanged(h: History, ip: string) {
    h.prevIp.Some? && h.prevIp.value != ip
  }

  function Elapsed(h: History, e: Event): real {
    if h.lastEventTime.None? then 0.0 else e.at - h.lastEventTime.value
  }

  /** The history update inside engineer_single_event. */
  function Record(h: History, e: Event): History {
    var elapsed := Elapsed(h, e);
    History(if h.firstSeenIp.None? then Some(e.ip) else h.firstSeenIp, Some(e.ip), Some(e.region), Some(e.at),
            Decay(h.ipHops30m, elapsed, 30.0) + One(IpChanged(h, e.ip)),
            Decay(h.adminActions15m, elapsed, 15.0) + One(e.isAdmin),
            Decay(h.failed30m, elapsed, 30.0) + One(!e.success),
            Decay(h.events1h, elapsed, 60.0) + 1)
  }

  // ---- Where the history lives ----

  datatype Memory = Memory(saved: Option<History>, local: History)

  const NO_MEMORY := Memory(None, FRESH)

  function OrNone(s: Option<string>): Option<string> {
    if s == Some("") then None else s
  }

  // Through Redis, an empty string comes back as None.
  function Restore(h: History): History {
    h.(firstSeenIp := OrNone(h.firstSeenIp), prevIp := OrNone(h.prevIp), prevRegion := OrNone(h.prevRegion))
  }

  /** An event, and whether the saved history is found expired when it comes. */
  datatype Arrival = Arrival(event: Event, expired: bool)

  function Loaded(redisUp: bool, m: Memory, expired: bool): History {
    if redisUp && m.saved.Some? && !expired then Restore(m.saved.value) else m.local
  }

  function Observe(redisUp: bool, m: Memory, a: Arrival): Memory {
    var h := Record(Loaded(redisUp, m, a.expired), a.event);
    var hit := redisUp && m.saved.Some? && !a.expired;
    Memory(if redisUp then Some(h) else None, if hit then m.local else h)
  }

  function Run(redisUp: bool, arrivals: seq<Arrival>): Memory {
    if arrivals == [] then NO_MEMORY
    else Observe(redisUp, Run(redisUp, arrivals[..|arrivals| - 1]), arrivals[|arrivals| - 1])
  }

  function Current(redisUp: bool, m: Memory): History {
    if redisUp && m.saved.Some? then m.saved.value else m.local
  }

  /** The history after a run: what save_user_history stored last. */
  function After(redisUp: bool, arrivals: seq<Arrival>): History {
    Current(redisUp, Run(redisUp, arrivals))
  }

  function Gap(arrivals: seq<Arrival>, i: nat): real
    requires 0 < i < |arrivals|
  {
    arrivals[i].event.at - arrivals[i - 1].event.at
  }

  /** Events come in order of time, and nothing expires within the hour. */
  predicate IsRun(arrivals: seq<Arrival>) {
    forall i :: 0 < i < |arrivals| ==> Gap(arrivals, i) >= if arrivals[i].expired then EXPIRY else 0.0
  }

  predicate Spaced(arrivals: seq<Arrival>, minutes: real) {
    forall i :: 0 < i < |arrivals| ==> Gap(arrivals, i) >= minutes * 60.0
  }

  // ---- Arithmetic of decay ----

  lemma DecayMonotone(a: nat, b: nat, elapsed: real, window: real, wider: real)
    requires a <= b && elapsed >= 0.0 && 0.0 < window <= wider
    ensures Decay(a, elapsed, window) <= Decay(b, elapsed, wider)
  {
    var f, g := 1.0 - elapsed / 60.0 / window, 1.0 - elapsed / 60.0 / wider;
    DividingByMore(elapsed / 60.0, window, wider);
    if f > 0.0 {
      ProductMonotone(a as real, b as real, f, g);
    }
  }

  lemma DividingByMore(x: real, y: real, z: real)
    requires x >= 0.0 && 0.0 < y <= z
    ensures x / z <= x / y
  {
    var p, q := x / y, x / z;
    assert p * y == x && q * z == x;
    assert p * y <= p * z;
    assert (q - p) * z <= 0.0;
  }

  lemma ProductMonotone(a: real, b: real, f: real, g: real)
    requires 0.0 <= a <= b && 0.0 <= f <= g
    ensures a * f <= b * g
  {
    assert a * f <= a * g <= b * g;
  }

  lemma DecayedAway(count: nat, elapsed: real, window: real)
    requires window > 0.0 && elapsed >= window * 60.0
    ensures Decay(count, elapsed, window) == 0
  {
    var share := elapsed / 60.0 / window;
    assert share * window == elapsed / 60.0;
    assert (share - 1.0) * window >= 0.0;
  }

  // ---- Every counter is bounded by events1h ----

  predicate Bounded(h: History) {
    h.ipHops30m <= h.events1h && h.failed30m <= h.events1h && h.adminActions15m <= h.events1h
  }

  lemma RecordKeepsBounded(h: History, e: Event)
    requires Bounded(h) && Elapsed(h, e) >= 0.0
    ensures Bounded(Record(h, e))
  {
    DecayMonotone(h.ipHops30m, h.events1h, Elapsed(h, e), 30.0, 60.0);
    DecayMonotone(h.failed30m, h.events1h, Elapsed(h, e), 30.0, 60.0);
    DecayMonotone(h.adminActions15m, h.events1h, Elapsed(h, e), 15.0, 60.0);
  }

  // The times in memory are those of past events; the saved one is the latest.
  predicate TimesOk(redisUp: bool, m: Memory, last: real) {
    && (m.local.lastEventTime.Some? ==> m.local.lastEventTime.value <= last)
    && (m.local.lastEventTime.None? ==> m.local == FRESH)
    && Current(redisUp, m).lastEventTime == Some(last)
    && (redisUp ==> m.saved.Some?)
  }

  lemma {:induction false} RunTimes(redisUp: bool, arrivals: seq<Arrival>)
    requires IsRun(arrivals) && arrivals != []
    ensures TimesOk(redisUp, Run(redisUp, arrivals), arrivals[|arrivals| - 1].event.at)
    decreases |arrivals|
  {
    if |arrivals| > 1 {
      PrefixIsRun(arrivals);
      RunTimes(redisUp, arrivals[..|arrivals| - 1]);
      assert Gap(arrivals, |arrivals| - 1) >= 0.0;
    } else {
      assert arrivals[..0] == [];
    }
  }

  lemma PrefixIsRun(arrivals: seq<Arrival>)
    requires IsRun(arrivals) && arrivals != []
    ensures IsRun(arrivals[..|arrivals| - 1])
  {
    var init := arrivals[..|arrivals| - 1];
    forall i | 0 < i < |init| ensures Gap(init, i) >= if init[i].expired then EXPIRY else 0.0 {
      assert Gap(init, i) == Gap(arrivals, i);
    }
  }

  // How long before the last event the history it was recorded into was last written.
  lemma LastElapsed(redisUp: bool, arrivals: seq<Arrival>)
    requires IsRun(arrivals) && |arrivals| > 1
    ensures var init, last := arrivals[..|arrivals| - 1], arrivals[|arrivals| - 1];
            var h := Loaded(redisUp, Run(redisUp, init), last.expired);
            && Elapsed(h, last.event) >= 0.0
            && (h.lastEventTime.Some? ==> Elapsed(h, last.event) >= Gap(arrivals, |arrivals| - 1))
            && (h.lastEventTime.None? ==> h == FRESH)
  {
    PrefixIsRun(arrivals);
    RunTimes(redisUp, arrivals[..|arrivals| - 1]);
    assert Gap(arrivals, |arrivals| - 1) >= 0.0;
  }

  lemma {:induction false} MemoryBounded(redisUp: bool, arrivals: seq<Arrival>)
    requires IsRun(arrivals)
    ensures var m := Run(redisUp, arrivals);
            Bounded(m.local) && (m.saved.Some? ==> Bounded(m.saved.value))
    decreases |arrivals|
  {
    if arrivals != [] {
      var init, last := arrivals[..|arrivals| - 1], arrivals[|arrivals| - 1];
      PrefixIsRun(arrivals);
      MemoryBounded(redisUp, init);
      if init != [] {
        LastElapsed(redisUp, arrivals);
      }
      RecordKeepsBounded(Loaded(redisUp, Run(redisUp, init), last.expired), last.event);
    }
  }

  /** Over every time-ordered run, with Redis or without and whatever expires: no counter exceeds the
      number of events in the last hour. */
  lemma CountersBoundedByEvents(redisUp: bool, arrivals: seq<Arrival>)
    requires IsRun(arrivals)
    ensures Bounded(After(redisUp, arrivals))
  {
    MemoryBounded(redisUp, arrivals);
  }

  // ---- Slow users ----

  // `count` is at most window / minutes, said without division.
  predicate Capped(count: nat, window: real, minutes: real) {
    count as real * minutes <= window
  }

  predicate AllCapped(h: History, minutes: real) {
    && (minutes <= 30.0 ==> Capped(h.ipHops30m, 30.0, minutes) && Capped(h.failed30m, 30.0, minutes))
    && (minutes <= 15.0 ==> Capped(h.adminActions15m, 15.0, minutes))
    && (minutes <= 60.0 ==> Capped(h.events1h, 60.0, minutes))
  }

  // c <= w/g implies c * (1 - el/w) + 1 <= w/g once el >= g.
  lemma DecayedCap(count: nat, elapsed: real, window: real, minutes: real)
    requires 0.0 < minutes <= window && Capped(count, window, minutes)
    requires elapsed >= minutes * 60.0
    ensures Capped(Decay(count, elapsed, window) + 1, window, minutes)
  {
    var share := elapsed / 60.0 / window;
    assert share * window == elapsed / 60.0;
    if 1.0 - share > 0.0 {
      var left := count as real * (1.0 - share);
      ScaledIsNonNegative(count, 1.0 - share);
      assert left * minutes == (count as real * minutes) * (1.0 - share);
      ProductMonotone(count as real * minutes, window, 1.0 - share, 1.0 - share);
      assert left * minutes <= window * (1.0 - share) == window - share * window;
      assert left * minutes + minutes <= window;
      assert Decay(count, elapsed, window) as real <= left;
      ProductMonotone(Decay(count, elapsed, window) as real, left, minutes, minutes);
    }
  }

  lemma FewerIsCapped(count: nat, more: nat, window: real, minutes: real)
    requires count <= more && Capped(more, window, minutes) && minutes > 0.0
    ensures Capped(count, window, minutes)
  {
    ProductMonotone(count as real, more as real, minutes, minutes);
  }

  lemma RecordCapped(h: History, e: Event, minutes: real)
    requires AllCapped(h, minutes) && minutes > 0.0
    requires h == FRESH || Elapsed(h, e) >= minutes * 60.0
    ensures AllCapped(Record(h, e), minutes)
  {
    var t := Record(h, e);
    if h != FRESH {
      var el := Elapsed(h, e);
      if minutes <= 30.0 {
        DecayedCap(h.ipHops30m, el, 30.0, minutes);
        FewerIsCapped(t.ipHops30m, Decay(h.ipHops30m, el, 30.0) + 1, 30.0, minutes);
        DecayedCap(h.failed30m, el, 30.0, minutes);
        FewerIsCapped(t.failed30m, Decay(h.failed30m, el, 30.0) + 1, 30.0, minutes);
      }
      if minutes <= 15.0 {
        DecayedCap(h.adminActions15m, el, 15.0, minutes);
        FewerIsCapped(t.adminActions15m, Decay(h.adminActions15m, el, 15.0) + 1, 15.0, minutes);
      }
      if minutes <= 60.0 {
        DecayedCap(h.events1h, el, 60.0, minutes);
      }
    } else {
      DecayOfNone();
    }
  }

  lemma DecayOfNone()
    ensures forall elapsed, window | window > 0.0 :: Decay(0, elapsed, window) == 0
  {
  }

  lemma {:induction false} MemoryCapped(redisUp: bool, arrivals: seq<Arrival>, minutes: real)
    requires IsRun(arrivals) && Spaced(arrivals, minutes) && minutes > 0.0
    ensures var m := Run(redisUp, arrivals);
            AllCapped(m.local, minutes) && (m.saved.Some? ==> AllCapped(m.saved.value, minutes))
    decreases |arrivals|
  {
    if arrivals != [] {
      var init, last := arrivals[..|arrivals| - 1], arrivals[|arrivals| - 1];
      PrefixIsRun(arrivals);
      assert forall i :: 0 < i < |init| ==> Gap(init, i) == Gap(arrivals, i);
      MemoryCapped(redisUp, init, minutes);
      if init != [] {
        LastElapsed(redisUp, arrivals);
        assert Gap(arrivals, |arrivals| - 1) >= minutes * 60.0;
      }
      RecordCapped(Loaded(redisUp, Run(redisUp, init), last.expired), last.event, minutes);
    }
  }

  /** When consecutive events are at least `minutes` apart, no counter with window W ever exceeds
      W / minutes, for any spacing up to W. */
  lemma SlowUsersStayLow(redisUp: bool, arrivals: seq<Arrival>, minutes: real)
    requires IsRun(arrivals) && Spaced(arrivals, minutes) && minutes > 0.0
    ensures AllCapped(After(redisUp, arrivals), minutes)
  {
    MemoryCapped(redisUp, arrivals, minutes);
  }

  // ---- Forgetting ----

  lemma AllDecayed(h: History, e: Event)
    requires h == FRESH || Elapsed(h, e) >= EXPIRY
    ensures var t := Record(h, e);
            && t.ipHops30m == One(IpChanged(h, e.ip)) && t.adminActions15m == One(e.isAdmin)
            && t.failed30m == One(!e.success) && t.events1h == 1
  {
    DecayOfNone();
    if h != FRESH {
      var elapsed := Elapsed(h, e);
      DecayedAway(h.ipHops30m, elapsed, 30.0);
      DecayedAway(h.adminActions15m, elapsed, 15.0);
      DecayedAway(h.failed30m, elapsed, 30.0);
      DecayedAway(h.events1h, elapsed, 60.0);
    }
  }

  /** Agreement on everything but the address hops. */
  predicate SameButHops(h: History, k: History) {
    && h.events1h == k.events1h && h.failed30m == k.failed30m && h.adminActions15m == k.adminActions15m
    && h.lastEventTime == k.lastEventTime && h.prevIp == k.prevIp
  }

  lemma RunSnoc(redisUp: bool, init: seq<Arrival>, a: Arrival)
    ensures Run(redisUp, init + [a]) == Observe(redisUp, Run(redisUp, init), a)
  {
    assert (init + [a])[..|init|] == init;
  }

  lemma FirstArrival(redisUp: bool, a: Arrival)
    ensures After(redisUp, [a]) == Record(FRESH, a.event)
  {
    RunSnoc(redisUp, [], a);
    assert [] + [a] == [a];
  }

  lemma HitAgrees(h: History, k: History, e: Event)
    requires SameButHops(h, k)
    ensures SameButHops(Record(Restore(h), e), Record(k, e))
  {
  }

  /** Expiry after an hour or more never shows in three of the counters: with Redis they are at every
      moment what a store that never forgets would have. */
  lemma {:induction false} ForgettingKeepsThreeCounters(arrivals: seq<Arrival>)
    requires IsRun(arrivals)
    ensures SameButHops(After(true, arrivals), After(false, arrivals))
    decreases |arrivals|
  {
    if |arrivals| > 1 {
      var init, last := arrivals[..|arrivals| - 1], arrivals[|arrivals| - 1];
      PrefixIsRun(arrivals);
      RunTimes(true, init);
      if last.expired {
        MissStartsOver(arrivals);
      } else {
        ForgettingKeepsThreeCounters(init);
        HitAgrees(After(true, init), After(false, init), last.event);
      }
    } else if |arrivals| == 1 {
      FirstArrival(true, arrivals[0]);
      FirstArrival(false, arrivals[0]);
      assert arrivals == [arrivals[0]];
    }
  }

  // After a miss both stores have decayed to the event itself; only the remembered address differs.
  lemma MissStartsOver(arrivals: seq<Arrival>)
    requires IsRun(arrivals) && |arrivals| > 1 && arrivals[|arrivals| - 1].expired
    ensures var init, e := arrivals[..|arrivals| - 1], arrivals[|arrivals| - 1].event;
            var h, k := After(true, arrivals), After(false, arrivals);
            && h.ipHops30m == One(IpChanged(Run(true, init).local, e.ip))
            && k.ipHops30m == One(IpChanged(After(false, init), e.ip))
            && SameButHops(h, k)
  {
    var init, last := arrivals[..|arrivals| - 1], arrivals[|arrivals| - 1];
    assert Gap(arrivals, |arrivals| - 1) >= EXPIRY;
    LastElapsed(true, arrivals);
    LastElapsed(false, arrivals);
    AllDecayed(Loaded(true, Run(true, init), last.expired), last.event);
    AllDecayed(Loaded(false, Run(false, init), last.expired), last.event);
  }

  /** The latest arrival before the i-th that found nothing saved. */
  function LastMiss(arrivals: seq<Arrival>, i: nat): (j: nat)
    requires 0 < i <= |arrivals|
    ensures j < i
  {
    if i == 1 || arrivals[i - 1].expired then i - 1 else LastMiss(arrivals, i - 1)
  }

  /** The i-th arrival finds nothing saved, comes from the address of the event before it, and not from
      the address of the event that last found nothing saved. */
  predicate StaleAddress(arrivals: seq<Arrival>, i: nat)
    requires i < |arrivals|
  {
    && i > 0 && arrivals[i].expired
    && arrivals[i - 1].event.ip == arrivals[i].event.ip != arrivals[LastMiss(arrivals, i)].event.ip
  }

  // One more arrival in each store: only a miss touches the local copy.
  lemma LocalAfterArrival(init: seq<Arrival>, a: Arrival)
    ensures Run(true, init + [a]).saved.Some?
    ensures Run(true, init + [a]).local
            == if Run(true, init).saved.Some? && !a.expired then Run(true, init).local else After(true, init + [a])
    ensures After(true, init + [a]).prevIp == Some(a.event.ip) && After(false, init + [a]).prevIp == Some(a.event.ip)
  {
    RunSnoc(true, init, a);
    RunSnoc(false, init, a);
  }

  /** The local copy is the record of the last miss, as it was then. */
  lemma {:induction false} LocalIsLastMiss(arrivals: seq<Arrival>, i: nat)
    requires 0 < i <= |arrivals|
    ensures var j := LastMiss(arrivals, i);
            && Run(true, arrivals[..i]).saved.Some?
            && Run(true, arrivals[..i]).local == After(true, arrivals[..j + 1])
            && After(true, arrivals[..j + 1]).prevIp == Some(arrivals[j].event.ip)
    ensures After(false, arrivals[..i]).prevIp == Some(arrivals[i - 1].event.ip)
  {
    var init, last := arrivals[..i - 1], arrivals[i - 1];
    assert arrivals[..i] == init + [last];
    LocalAfterArrival(init, last);
    if i > 1 {
      LocalIsLastMiss(arrivals, i - 1);
    } else {
      assert init == [] && Run(true, []) == NO_MEMORY;
    }
  }

  lemma {:induction false} LastMissOfPrefix(arrivals: seq<Arrival>, n: nat, i: nat)
    requires 0 < i <= n <= |arrivals|
    ensures LastMiss(arrivals[..n], i) == LastMiss(arrivals, i)
  {
    if i > 1 {
      LastMissOfPrefix(arrivals, n, i - 1);
    }
  }

  lemma StaleInPrefix(arrivals: seq<Arrival>, n: nat, i: nat)
    requires i < n <= |arrivals|
    ensures StaleAddress(arrivals[..n], i) <==> StaleAddress(arrivals, i)
  {
    if i > 0 {
      LastMissOfPrefix(arrivals, n, i);
    }
  }

  /** At a miss, forgetting raises the hop count if and only if the address is stale. */
  lemma HopsRiseExactlyOnStaleAddress(arrivals: seq<Arrival>)
    requires IsRun(arrivals) && |arrivals| > 1 && arrivals[|arrivals| - 1].expired
    ensures After(true, arrivals).ipHops30m > After(false, arrivals).ipHops30m
            <==> StaleAddress(arrivals, |arrivals| - 1)
  {
    MissStartsOver(arrivals);
    LocalIsLastMiss(arrivals, |arrivals| - 1);
  }

  /** And in a run without stale addresses forgetting only ever lowers it. */
  lemma {:induction false} ForgettingLowersHops(arrivals: seq<Arrival>)
    requires IsRun(arrivals)
    requires forall i :: 0 <= i < |arrivals| ==> !StaleAddress(arrivals, i)
    ensures After(true, arrivals).ipHops30m <= After(false, arrivals).ipHops30m
    decreases |arrivals|
  {
    if |arrivals| > 1 {
      var init, last := arrivals[..|arrivals| - 1], arrivals[|arrivals| - 1];
      PrefixIsRun(arrivals);
      if last.expired {
        HopsRiseExactlyOnStaleAddress(arrivals);
      } else {
        forall i | 0 <= i < |init| ensures !StaleAddress(init, i) {
          StaleInPrefix(arrivals, |init|, i);
        }
        ForgettingLowersHops(init);
        ForgettingKeepsThreeCounters(init);
        RunTimes(true, init);
        RunTimes(false, init);
        LastElapsed(false, arrivals);
        var h, k := After(true, init), After(false, init);
        DecayMonotone(h.ipHops30m, k.ipHops30m, Elapsed(k, last.event), 30.0, 30.0);
      }
    } else if |arrivals| == 1 {
      FirstArrival(true, arrivals[0]);
      FirstArrival(false, arrivals[0]);
      assert arrivals == [arrivals[0]];
    }
  }

  lemma PrefixesAreRuns(arrivals: seq<Arrival>, n: nat)
    requires IsRun(arrivals) && n <= |arrivals|
    ensures IsRun(arrivals[..n])
  {
    forall i | 0 < i < n ensures Gap(arrivals[..n], i) >= if arrivals[..n][i].expired then EXPIRY else 0.0 {
      assert Gap(arrivals[..n], i) == Gap(arrivals, i);
    }
  }

  predicate NeverMoreHops(arrivals: seq<Arrival>, n: nat)
    requires n <= |arrivals|
  {
    After(true, arrivals[..n]).ipHops30m <= After(false, arrivals[..n]).ipHops30m
  }

  lemma HopsRiseInPrefix(arrivals: seq<Arrival>, i: nat)
    requires IsRun(arrivals) && i < |arrivals| && StaleAddress(arrivals, i)
    ensures !NeverMoreHops(arrivals, i + 1)
  {
    PrefixesAreRuns(arrivals, i + 1);
    StaleInPrefix(arrivals, i + 1, i);
    HopsRiseExactlyOnStaleAddress(arrivals[..i + 1]);
  }

  lemma HopsStayInPrefix(arrivals: seq<Arrival>, n: nat)
    requires IsRun(arrivals) && n <= |arrivals|
    requires forall i :: 0 <= i < |arrivals| ==> !StaleAddress(arrivals, i)
    ensures NeverMoreHops(arrivals, n)
  {
    PrefixesAreRuns(arrivals, n);
    forall i | 0 <= i < n ensures !StaleAddress(arrivals[..n], i) {
      StaleInPrefix(arrivals, n, i);
    }
    ForgettingLowersHops(arrivals[..n]);
  }

  /** Over every run: at every moment forgetting leaves at most the hops of a full memory, if and only if
      no event comes from a stale address. */
  lemma ForgettingExactly(arrivals: seq<Arrival>)
    requires IsRun(arrivals)
    ensures (forall n :: 0 <= n <= |arrivals| ==> NeverMoreHops(arrivals, n))
            <==> (forall i :: 0 <= i < |arrivals| ==> !StaleAddress(arrivals, i))
  {
    if i: nat :| i < |arrivals| && StaleAddress(arrivals, i) {
      HopsRiseInPrefix(arrivals, i);
    } else {
      forall n | 0 <= n <= |arrivals| ensures NeverMoreHops(arrivals, n) {
        HopsStayInPrefix(arrivals, n);
      }
    }
  }

  /** Stale addresses do occur: a user seen at a, then at b, and again at b after the hour is charged
      a hop that a store with full memory does not see. */
  lemma StaleAddressHappens(first: Arrival, second: Arrival, third: Arrival)
    requires IsRun([first, second, third]) && !second.expired && third.expired
    requires first.event.ip != second.event.ip == third.event.ip
    ensures After(true, [first, second, third]).ipHops30m == 1
    ensures After(false, [first, second, third]).ipHops30m == 0
  {
    HopsRiseExactlyOnStaleAddress([first, second, third]);
    MissStartsOver([first, second, third]);
  }

  /** Such a run, with its times and addresses. */
  lemma StaleRun() returns (arrivals: seq<Arrival>)
    ensures IsRun(arrivals) && |arrivals| == 3
    ensures After(true, arrivals).ipHops30m == 1 && After(false, arrivals).ipHops30m == 0
  {
    var first := Arrival(Event(0.0, "1.1.1.1", "EU", false, true), false);
    var second := Arrival(Event(60.0, "2.2.2.2", "EU", false, true), false);
    var third := Arrival(Event(7200.0, "2.2.2.2", "EU", false, true), true);
    arrivals := [first, second, third];
    assert Gap(arrivals, 1) == 60.0 && Gap(arrivals, 2) == 7140.0;
    assert "1.1.1.1"[0] != "2.2.2.2"[0];
    StaleAddressHappens(first, second, third);
  }
}
