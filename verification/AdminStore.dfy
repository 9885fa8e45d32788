/**
 backend/app/admin_store.py and the admin counters of backend/app/redis_client.py, updated in place.
 Every method is proved to take one step of the state machine in AlertStates.
 */
module AdminStores {
  import opened Options
  import opened ThreatActions
  import opened AlertStates

  class AdminStore {
    // Postgres
    var alerts: map<nat, Alert>
    var nextId: nat
    var audit: seq<AuditEntry>
    var stats: Stats
    // Redis
    const redisUp: bool
    var counters: Counters
    ghost var clamps: nat

    ghost function RedisView(): Redis
      reads this
    {
      Redis(redisUp, counters, clamps)
    }

    ghost function View(): State
      reads this
    {
      State(alerts, nextId, audit, stats, RedisView())
    }

    /** Empty tables and an empty Redis satisfy the invariant of every run. */
    constructor (redisUp: bool)
      ensures View() == State(map[], 0, [], Stats(0, 0, 0, 0), Redis(redisUp, map[], 0))
      ensures Invariant(View())
    {
      this.redisUp := redisUp;
      alerts, nextId, audit, stats := map[], 0, [], Stats(0, 0, 0, 0);
      counters, clamps := map[], 0;
      new;
      assert forall f: Filter :: Selected(alerts, f) == {};
    }

    // ---- redis_client ----

    method AdminIncr(key: StatKey)
      modifies this`counters
      ensures RedisView() == Incr(old(RedisView()), key)
    {
      if redisUp {
        counters := counters[key := (if key in counters then counters[key] else 0) + 1];
      }
    }

    method AdminDecr(key: StatKey)
      modifies this`counters, this`clamps
      ensures RedisView() == Decr(old(RedisView()), key)
    {
      if redisUp {
        var value := (if key in counters then counters[key] else 0) - 1;
        counters := counters[key := value];
        if value < 0 {
          counters := counters[key := 0];
          clamps := clamps + 1;
        }
      }
    }

    method GetAdminStats() returns (found: map<StatKey, Option<int>>)
      ensures !redisUp ==> found == map[]
      ensures redisUp ==> forall key: StatKey ::
                key in found && found[key] == if key in counters then Some(counters[key]) else None
    {
      found := map[];
      if !redisUp {
        return;
      }
      for i := 0 to |ADMIN_STAT_KEYS|
        invariant forall key :: key in ADMIN_STAT_KEYS[..i] ==>
                    key in found && found[key] == if key in counters then Some(counters[key]) else None
      {
        var key := ADMIN_STAT_KEYS[i];
        found := found[key := if key in counters then Some(counters[key]) else None];
      }
      EveryKeyListed();
      assert ADMIN_STAT_KEYS[..|ADMIN_STAT_KEYS|] == ADMIN_STAT_KEYS;
    }

    method InitAdminStatsFromDb(dbStats: Counters)
      requires Complete(dbStats)
      modifies this`counters
      ensures RedisView() == Seed(old(RedisView()), dbStats)
    {
      if !redisUp {
        return;
      }
      for i := 0 to |ADMIN_STAT_KEYS|
        invariant forall key: StatKey ::
                    if key in old(counters) then key in counters && counters[key] == old(counters)[key]
                    else if key in ADMIN_STAT_KEYS[..i] then key in counters && counters[key] == dbStats[key]
                    else key !in counters
      {
        var key := ADMIN_STAT_KEYS[i];
        if key !in counters {
          counters := counters[key := dbStats[key]];
        }
      }
      EveryKeyListed();
      assert ADMIN_STAT_KEYS[..|ADMIN_STAT_KEYS|] == ADMIN_STAT_KEYS;
      assert counters == dbStats + old(counters);
    }

    method DeleteAdminStats()
      modifies this`counters
      ensures redisUp ==> counters == map[]
      ensures !redisUp ==> counters == old(counters)
    {
      if redisUp {
        while counters != map[]
          decreases |counters|
        {
          var key :| key in counters;
          assert |counters.Keys| == |counters|;
          var fewer := counters - {key};
          assert fewer.Keys == counters.Keys - {key};
          assert |fewer| == |fewer.Keys|;
          counters := fewer;
        }
      }
    }

    method ResetAdminStats()
      requires redisUp ==> counters == map[]
      modifies this`counters
      ensures RedisView() == Zero(old(RedisView()))
    {
      if redisUp {
        for i := 0 to |ADMIN_STAT_KEYS|
          invariant counters == map key: StatKey | key in ADMIN_STAT_KEYS[..i] :: 0
        {
          counters := counters[ADMIN_STAT_KEYS[i] := 0];
        }
        assert ADMIN_STAT_KEYS[..|ADMIN_STAT_KEYS|] == ADMIN_STAT_KEYS;
      }
    }

    // ---- admin_store ----

    method CreateAlert(userId: string, score: real, action: ThreatAction) returns (alert: Option<Alert>)
      modifies this
      ensures (View(), AlertReply(alert)) == Step(old(View()), Create(userId, score, action))
    {
      var id := nextId;
      nextId := nextId + 1;
      alerts := alerts[id := Alert(userId, score, action, Pending, "")];
      stats := stats.(created := stats.created + 1);
      AdminIncr(TotalAlerts);
      AdminIncr(TotalAlertsCreated);
      AdminIncr(PendingCount);
      if action == CriticalAlert {
        AdminIncr(CriticalPending);
      }
      alert := GetAlert(id);
    }

    method GetAlert(id: nat) returns (alert: Option<Alert>)
      ensures alert == Find(View(), id)
    {
      alert := if id in alerts then Some(alerts[id]) else None;
    }

    method ApproveAlert(id: nat, notes: string) returns (alert: Option<Alert>)
      modifies this
      ensures (View(), AlertReply(alert)) == Step(old(View()), Approve(id, notes))
    {
      alert := GetAlert(id);
      if alert.None? || alert.value.status != Pending {
        return;
      }
      var a := alert.value;
      alerts := alerts[id := a.(status := Approved, notes := notes)];
      audit := audit + [Resolution(id, Approved, a.userId, a.score, notes)];
      stats := stats.(approved := stats.approved + 1);
      AdminDecr(PendingCount);
      AdminIncr(TotalApproved);
      if a.action == CriticalAlert {
        AdminDecr(CriticalPending);
      }
      alert := GetAlert(id);
    }

    method RejectAlert(id: nat, notes: string) returns (alert: Option<Alert>)
      modifies this
      ensures (View(), AlertReply(alert)) == Step(old(View()), Reject(id, notes))
    {
      alert := GetAlert(id);
      if alert.None? || alert.value.status != Pending {
        return;
      }
      var a := alert.value;
      alerts := alerts[id := a.(status := Rejected, notes := notes)];
      audit := audit + [Resolution(id, Rejected, a.userId, a.score, notes)];
      stats := stats.(rejected := stats.rejected + 1);
      AdminDecr(PendingCount);
      AdminIncr(TotalRejected);
      if a.action == CriticalAlert {
        AdminDecr(CriticalPending);
      }
      alert := GetAlert(id);
    }

    method IncrementAutoAllowed()
      modifies this
      ensures View() == Step(old(View()), AutoAllow).0
    {
      stats := stats.(autoAllowed := stats.autoAllowed + 1);
      AdminIncr(TotalAutoAllowed);
    }

    method GetStats() returns (numbers: Counters, source: Source)
      modifies this`counters
      ensures (View(), StatsReply(numbers, source)) == Step(old(View()), AlertStates.GetStats)
    {
      var found := GetAdminStats();
      if redisUp && forall key <- found :: found[key].Some? {
        assert Complete(counters) by {
          forall key: StatKey ensures key in counters { assert key in found; }
        }
        numbers := map key: StatKey | key in found :: found[key].value;
        assert numbers == counters;
        source := FromRedis;
      } else {
        numbers := QueryDatabase();
        source := FromPostgres;
        InitAdminStatsFromDb(numbers);
      }
    }

    // The slow path: the statistics row and three COUNT queries.
    method QueryDatabase() returns (numbers: Counters)
      ensures Complete(numbers) && numbers == SlowPath(View())
    {
      var pendingCount := Count(alerts, WithStatus(Pending));
      var criticalPending := Count(alerts, PendingAndCritical);
      numbers := map[TotalAlertsCreated := stats.created, TotalApproved := stats.approved,
                     TotalRejected := stats.rejected, TotalAutoAllowed := stats.autoAllowed,
                     PendingCount := pendingCount, CriticalPending := criticalPending, TotalAlerts := |alerts|];
      forall key: StatKey ensures key in numbers && numbers[key] == Queried(View(), key) {
        match key
        case TotalAlerts => case PendingCount => case CriticalPending => case TotalApproved =>
        case TotalRejected => case TotalAutoAllowed => case TotalAlertsCreated =>
      }
      SameNumbers(numbers, SlowPath(View()));
    }

    lemma SameNumbers(a: Counters, b: Counters)
      requires Complete(a) && Complete(b) && forall key: StatKey :: a[key] == b[key]
      ensures a == b
    {
    }

    // ---- the reset step of routes/admin.py, as far as it concerns this store ----

    method ConfirmReset(admin: string)
      modifies this
      ensures View() == Step(old(View()), Reset(admin)).0
    {
      alerts := map[];
      audit := audit + [PipelineReset(admin)];
      stats := Stats(0, 0, 0, 0);
      DeleteAdminStats();
      ResetAdminStats();
    }
  }
}
