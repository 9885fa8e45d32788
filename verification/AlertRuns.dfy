/**
 What holds over every run of the alert store.
 */
module AlertRuns {
  import opened Counting
  import opened ThreatActions
  import opened AlertStates

  // ---- Counting rows ----

  lemma CountAdd(alerts: map<nat, Alert>, id: nat, a: Alert, f: Filter)
    requires id !in alerts
    ensures Count(alerts[id := a], f) == Count(alerts, f) + One(Matches(f, a))
  {
    assert Selected(alerts[id := a], f) == if Matches(f, a) then Selected(alerts, f) + {id} else Selected(alerts, f);
  }

  lemma CountReplace(alerts: map<nat, Alert>, id: nat, a: Alert, f: Filter)
    requires id in alerts
    ensures Count(alerts[id := a], f) == Count(alerts, f) - One(Matches(f, alerts[id])) + One(Matches(f, a))
  {
    var others := Selected(alerts, f) - {id};
    assert Selected(alerts, f) == if Matches(f, alerts[id]) then others + {id} else others;
    assert Selected(alerts[id := a], f) == if Matches(f, a) then others + {id} else others;
  }

  /** Each alert has one status, so the three status counts add up to the number of rows. */
  lemma StatusesPartition(alerts: map<nat, Alert>)
    ensures Count(alerts, WithStatus(Pending)) + Count(alerts, WithStatus(Approved))
            + Count(alerts, WithStatus(Rejected)) == |alerts|
  {
    var pending := Selected(alerts, WithStatus(Pending));
    var approved := Selected(alerts, WithStatus(Approved));
    var rejected := Selected(alerts, WithStatus(Rejected));
    assert alerts.Keys == pending + approved + rejected;
    assert pending !! approved && pending + approved !! rejected;
    assert |alerts.Keys| == |alerts|;
  }

  // ---- How each operation moves the counters ----

  function CreatedDelta(action: ThreatAction, key: StatKey): int {
    match key
    case TotalAlerts | TotalAlertsCreated | PendingCount => 1
    case CriticalPending => One(action == CriticalAlert)
    case _ => 0
  }

  function ResolvedDelta(outcome: Status, action: ThreatAction, key: StatKey): int {
    match key
    case PendingCount => -1
    case CriticalPending => -One(action == CriticalAlert)
    case TotalApproved => One(outcome == Approved)
    case TotalRejected => One(outcome == Rejected)
    case _ => 0
  }

  lemma CreateMovesRedis(r: Redis, action: ThreatAction, key: StatKey)
    requires r.up
    ensures Value(CountCreated(r, action), key) == Value(r, key) + CreatedDelta(action, key)
  {
  }

  lemma CreateMovesTables(s: State, userId: string, score: real, action: ThreatAction, key: StatKey)
    requires TablesAgree(s)
    ensures Queried(CreateAlert(s, userId, score, action), key) == Queried(s, key) + CreatedDelta(action, key)
  {
    var a := Alert(userId, score, action, Pending, "");
    CountAdd(s.alerts, s.nextId, a, WithStatus(Pending));
    CountAdd(s.alerts, s.nextId, a, PendingAndCritical);
  }

  lemma CreateKeepsTables(s: State, userId: string, score: real, action: ThreatAction)
    requires TablesAgree(s)
    ensures TablesAgree(CreateAlert(s, userId, score, action))
  {
    var a := Alert(userId, score, action, Pending, "");
    CountAdd(s.alerts, s.nextId, a, WithStatus(Approved));
    CountAdd(s.alerts, s.nextId, a, WithStatus(Rejected));
  }

  lemma CreateKeepsDrift(s: State, userId: string, score: real, action: ThreatAction, key: StatKey)
    requires TablesAgree(s) && s.redis.up
    ensures Drift(CreateAlert(s, userId, score, action), key) == Drift(s, key)
  {
    CreateMovesTables(s, userId, score, action, key);
    CreateMovesRedis(s.redis, action, key);
  }

  // Resolving this alert finds something to decrement.
  predicate NoClamp(s: State, id: nat) {
    s.redis.up && IsPending(s, id) ==>
      && Value(s.redis, PendingCount) > 0
      && (s.alerts[id].action == CriticalAlert ==> Value(s.redis, CriticalPending) > 0)
  }

  lemma ResolveMovesRedis(r: Redis, outcome: Status, action: ThreatAction, key: StatKey)
    requires r.up && outcome != Pending
    requires Value(r, PendingCount) > 0 && (action == CriticalAlert ==> Value(r, CriticalPending) > 0)
    ensures Value(CountResolved(r, outcome, action), key) == Value(r, key) + ResolvedDelta(outcome, action, key)
    ensures CountResolved(r, outcome, action).clamps == r.clamps
  {
  }

  lemma SameSize(alerts: map<nat, Alert>, id: nat, a: Alert)
    requires id in alerts
    ensures |alerts[id := a]| == |alerts|
  {
    assert alerts[id := a].Keys == alerts.Keys;
    assert |alerts[id := a].Keys| == |alerts[id := a]| && |alerts.Keys| == |alerts|;
  }

  lemma ResolveMovesTables(s: State, id: nat, outcome: Status, notes: string, key: StatKey)
    requires IsPending(s, id) && outcome != Pending
    ensures Queried(Resolve(s, id, outcome, notes), key)
            == Queried(s, key) + ResolvedDelta(outcome, s.alerts[id].action, key)
  {
    var a := s.alerts[id].(status := outcome, notes := notes);
    CountReplace(s.alerts, id, a, WithStatus(Pending));
    CountReplace(s.alerts, id, a, PendingAndCritical);
    SameSize(s.alerts, id, a);
  }

  lemma ResolveKeepsTables(s: State, id: nat, outcome: Status, notes: string)
    requires TablesAgree(s) && outcome != Pending
    ensures TablesAgree(Resolve(s, id, outcome, notes))
  {
    if IsPending(s, id) {
      var a := s.alerts[id].(status := outcome, notes := notes);
      CountReplace(s.alerts, id, a, WithStatus(Approved));
      CountReplace(s.alerts, id, a, WithStatus(Rejected));
      SameSize(s.alerts, id, a);
    }
  }

  lemma ResolveKeepsDrift(s: State, id: nat, outcome: Status, notes: string, key: StatKey)
    requires s.redis.up && outcome != Pending && NoClamp(s, id)
    ensures Drift(Resolve(s, id, outcome, notes), key) == Drift(s, key)
    ensures Resolve(s, id, outcome, notes).redis.clamps == s.redis.clamps
  {
    if IsPending(s, id) {
      ResolveMovesTables(s, id, outcome, notes, key);
      ResolveMovesRedis(s.redis, outcome, s.alerts[id].action, key);
    }
  }

  lemma MirrorsNeverClamp(s: State, id: nat)
    requires s.redis.up ==> Mirrors(s)
    ensures NoClamp(s, id)
  {
    if s.redis.up && IsPending(s, id) {
      assert Drift(s, PendingCount) == 0 && Drift(s, CriticalPending) == 0;
      assert id in Selected(s.alerts, WithStatus(Pending));
      if s.alerts[id].action == CriticalAlert {
        assert id in Selected(s.alerts, PendingAndCritical);
      }
    }
  }

  lemma AllowKeepsDrift(s: State, key: StatKey)
    requires s.redis.up
    ensures Drift(AllowEvent(s), key) == Drift(s, key)
  {
  }

  lemma SeedingKeepsDrift(s: State, key: StatKey)
    requires s.redis.up && Drift(s, key) == 0
    ensures Drift(s.(redis := Seed(s.redis, SlowPath(s))), key) == 0
  {
    EveryKeyListed();
    if key !in s.redis.counters {
      assert SlowPath(s)[key] == Queried(s, key);
    }
  }

  lemma ReadStatsKeepsMirror(s: State)
    requires s.redis.up && Mirrors(s)
    ensures Mirrors(ReadStats(s).0)
  {
    forall key: StatKey ensures Drift(ReadStats(s).0, key) == 0 {
      assert Drift(s, key) == 0;
      if !Complete(s.redis.counters) {
        SeedingKeepsDrift(s, key);
      }
    }
  }

  lemma ResetIsConsistent(s: State, admin: string)
    ensures TablesAgree(ResetPipeline(s, admin))
    ensures s.redis.up ==> Mirrors(ResetPipeline(s, admin))
  {
    var t := ResetPipeline(s, admin);
    forall f: Filter ensures Count(t.alerts, f) == 0 {
      assert Selected(t.alerts, f) == {};
    }
    if s.redis.up {
      forall key: StatKey ensures Drift(t, key) == 0 {
        EveryKeyListed();
      }
    }
  }

  ghost predicate Counted(s: State) {
    TablesAgree(s) && (s.redis.up ==> Mirrors(s))
  }

  lemma ResolveKeepsCounted(s: State, id: nat, outcome: Status, notes: string)
    requires Counted(s) && outcome != Pending
    ensures Counted(Resolve(s, id, outcome, notes))
    ensures Resolve(s, id, outcome, notes).redis.clamps == s.redis.clamps
    ensures Resolve(s, id, outcome, notes).redis.up == s.redis.up
  {
    ResolveKeepsTables(s, id, outcome, notes);
    MirrorsNeverClamp(s, id);
    if s.redis.up {
      forall key: StatKey ensures Drift(Resolve(s, id, outcome, notes), key) == 0 {
        assert Drift(s, key) == 0;
        ResolveKeepsDrift(s, id, outcome, notes, key);
      }
      ResolveKeepsDrift(s, id, outcome, notes, TotalAlerts);
    }
  }

  lemma StepKeepsCounted(s: State, op: Op)
    requires Counted(s)
    ensures var t := Step(s, op).0;
            Counted(t) && t.redis.up == s.redis.up && t.redis.clamps == s.redis.clamps
  {
    match op
    case Create(userId, score, action) =>
      CreateKeepsTables(s, userId, score, action);
      if s.redis.up {
        forall key: StatKey ensures Drift(CreateAlert(s, userId, score, action), key) == 0 {
          assert Drift(s, key) == 0;
          CreateKeepsDrift(s, userId, score, action, key);
        }
      }
    case Approve(id, notes) => ResolveKeepsCounted(s, id, Approved, notes);
    case Reject(id, notes) => ResolveKeepsCounted(s, id, Rejected, notes);
    case AutoAllow =>
      if s.redis.up {
        forall key: StatKey ensures Drift(AllowEvent(s), key) == 0 {
          assert Drift(s, key) == 0;
          AllowKeepsDrift(s, key);
        }
      }
    case GetStats =>
      if s.redis.up { ReadStatsKeepsMirror(s); }
    case Reset(admin) => ResetIsConsistent(s, admin);
  }

  lemma EntriesAppend(audit: seq<AuditEntry>, entry: AuditEntry, id: nat)
    ensures EntriesFor(audit + [entry], id)
            == EntriesFor(audit, id) + if entry.Resolution? && entry.alertId == id then [entry] else []
  {
    assert (audit + [entry])[..|audit|] == audit;
  }

  lemma StepKeepsAudit(s: State, op: Op, id: nat)
    requires TablesAgree(s) && AuditMatches(s, id)
    ensures AuditMatches(Step(s, op).0, id)
  {
    match op
    case Create(userId, score, action) =>
    case Approve(other, notes) => ResolveAppends(s, other, Approved, notes, id);
    case Reject(other, notes) => ResolveAppends(s, other, Rejected, notes, id);
    case AutoAllow =>
    case GetStats =>
    case Reset(admin) => EntriesAppend(s.audit, PipelineReset(admin), id);
  }

  lemma ResolveAppends(s: State, other: nat, outcome: Status, notes: string, id: nat)
    requires TablesAgree(s) && AuditMatches(s, id) && outcome != Pending
    ensures AuditMatches(Resolve(s, other, outcome, notes), id)
  {
    if IsPending(s, other) {
      var a := s.alerts[other];
      EntriesAppend(s.audit, Resolution(other, outcome, a.userId, a.score, notes), id);
    }
  }

  lemma StepKeepsInvariant(s: State, op: Op)
    requires Invariant(s)
    ensures Invariant(Step(s, op).0)
  {
    StepKeepsCounted(s, op);
    forall id: nat ensures AuditMatches(Step(s, op).0, id) {
      StepKeepsAudit(s, op, id);
    }
  }

  // ---- Every run ----

  lemma {:induction false} RunKeepsInvariant(s: State, ops: seq<Op>)
    requires Invariant(s)
    ensures Invariant(Run(s, ops))
    decreases |ops|
  {
    if ops != [] {
      StepKeepsInvariant(s, ops[0]);
      RunKeepsInvariant(Step(s, ops[0]).0, ops[1..]);
    }
  }

  lemma {:induction false} RunKeepsCounted(s: State, ops: seq<Op>)
    requires Counted(s)
    ensures Counted(Run(s, ops)) && Run(s, ops).redis.clamps == s.redis.clamps
    decreases |ops|
  {
    if ops != [] {
      StepKeepsCounted(s, ops[0]);
      RunKeepsCounted(Step(s, ops[0]).0, ops[1..]);
    }
  }

  lemma RepliesMatch(s: State)
    requires s.redis.up ==> Mirrors(s)
    ensures Step(s, GetStats).1.numbers == SlowPath(s)
    ensures forall key: StatKey :: SlowPath(s)[key] == Queried(s, key)
  {
    EveryKeyListed();
    if s.redis.up && Complete(s.redis.counters) {
      forall key: StatKey ensures s.redis.counters[key] == SlowPath(s)[key] {
        assert Drift(s, key) == 0;
      }
      assert s.redis.counters.Keys == SlowPath(s).Keys;
    }
  }

  /** Whatever happened before, get_stats returns the seven numbers the COUNT(*) queries give, from
      whichever source; they add up, and no decrement was ever clamped. */
  lemma FastPathRefinesSlowPath(s: State, ops: seq<Op>)
    requires Counted(s)
    ensures var t := Run(s, ops);
            var reply := Step(t, GetStats).1;
            && reply.numbers == SlowPath(t)
            && reply.numbers[PendingCount] + reply.numbers[TotalApproved] + reply.numbers[TotalRejected]
               == reply.numbers[TotalAlerts] == reply.numbers[TotalAlertsCreated]
            && t.redis.clamps == s.redis.clamps
  {
    RunKeepsCounted(s, ops);
    var t := Run(s, ops);
    StatusesPartition(t.alerts);
    RepliesMatch(t);
  }

  // ---- Exactly when the two paths agree ----

  ghost predicate AlwaysAgrees(s: State) {
    forall ops: seq<Op> :: Step(Run(s, ops), GetStats).1.numbers == SlowPath(Run(s, ops))
  }

  /** A run that touches every counter and leaves it where it found it, relative to Postgres. */
  function TouchAll(s: State): seq<Op> {
    [Create("u", 0.9, CriticalAlert), Approve(s.nextId, ""),
     Create("u", 0.9, CriticalAlert), Reject(s.nextId + 1, ""), AutoAllow]
  }

  predicate NonNegative(r: Redis) {
    forall key <- r.counters :: r.counters[key] >= 0
  }

  const ROUND_KEYS: set<StatKey> := {TotalAlerts, TotalAlertsCreated, PendingCount, CriticalPending}

  // Create and resolve one critical alert: no clamp, whatever the counters were.
  lemma RoundMovesRedis(r: Redis, outcome: Status)
    requires r.up && NonNegative(r) && outcome != Pending
    ensures var m := CountCreated(r, CriticalAlert);
            var t := CountResolved(m, outcome, CriticalAlert);
            && Value(m, PendingCount) > 0 && Value(m, CriticalPending) > 0
            && t.up && NonNegative(t)
            && r.counters.Keys + ROUND_KEYS + {if outcome == Approved then TotalApproved else TotalRejected}
               <= t.counters.Keys
  {
    CreateMovesRedis(r, CriticalAlert, PendingCount);
    CreateMovesRedis(r, CriticalAlert, CriticalPending);
    var m := CountCreated(r, CriticalAlert);
    var t := CountResolved(m, outcome, CriticalAlert);
    forall key | key in t.counters ensures t.counters[key] >= 0 {
      CreateMovesRedis(r, CriticalAlert, key);
      ResolveMovesRedis(m, outcome, CriticalAlert, key);
    }
  }

  lemma RoundKeepsDrift(s: State, outcome: Status, key: StatKey)
    requires TablesAgree(s) && s.redis.up && NonNegative(s.redis) && outcome != Pending
    ensures var t := Resolve(CreateAlert(s, "u", 0.9, CriticalAlert), s.nextId, outcome, "");
            Drift(t, key) == Drift(s, key)
  {
    RoundMovesRedis(s.redis, outcome);
    CreateKeepsDrift(s, "u", 0.9, CriticalAlert, key);
    ResolveKeepsDrift(CreateAlert(s, "u", 0.9, CriticalAlert), s.nextId, outcome, "", key);
  }

  lemma RoundKeepsTables(s: State, outcome: Status)
    requires TablesAgree(s) && outcome != Pending
    ensures var t := Resolve(CreateAlert(s, "u", 0.9, CriticalAlert), s.nextId, outcome, "");
            && TablesAgree(t) && t.nextId == s.nextId + 1
            && t.redis == CountResolved(CountCreated(s.redis, CriticalAlert), outcome, CriticalAlert)
  {
    CreateKeepsTables(s, "u", 0.9, CriticalAlert);
    ResolveKeepsTables(CreateAlert(s, "u", 0.9, CriticalAlert), s.nextId, outcome, "");
  }

  lemma TouchAllCompletes(r: Redis)
    requires r.up && NonNegative(r)
    ensures var m := CountResolved(CountCreated(r, CriticalAlert), Approved, CriticalAlert);
            var t := Incr(CountResolved(CountCreated(m, CriticalAlert), Rejected, CriticalAlert), TotalAutoAllowed);
            t.up && Complete(t.counters)
  {
    RoundMovesRedis(r, Approved);
    var m := CountResolved(CountCreated(r, CriticalAlert), Approved, CriticalAlert);
    RoundMovesRedis(m, Rejected);
    var n := CountResolved(CountCreated(m, CriticalAlert), Rejected, CriticalAlert);
    var t := Incr(n, TotalAutoAllowed);
    forall key: StatKey ensures key in t.counters {
      assert key in ROUND_KEYS || key == TotalApproved || key == TotalRejected || key == TotalAutoAllowed;
    }
  }

  function Round(s: State, outcome: Status): State
    requires outcome != Pending
  {
    Resolve(CreateAlert(s, "u", 0.9, CriticalAlert), s.nextId, outcome, "")
  }

  lemma TwoRoundsKeepDrift(s: State, key: StatKey)
    requires TablesAgree(s) && s.redis.up && NonNegative(s.redis)
    ensures Drift(Round(Round(s, Approved), Rejected), key) == Drift(s, key)
    ensures Round(Round(s, Approved), Rejected).redis.up
  {
    RoundKeepsTables(s, Approved);
    RoundMovesRedis(s.redis, Approved);
    RoundKeepsDrift(s, Approved, key);
    var m := Round(s, Approved);
    RoundKeepsTables(m, Rejected);
    RoundMovesRedis(m.redis, Rejected);
    RoundKeepsDrift(m, Rejected, key);
  }

  lemma TwoRoundsComplete(s: State)
    requires TablesAgree(s) && s.redis.up && NonNegative(s.redis)
    ensures var t := AllowEvent(Round(Round(s, Approved), Rejected));
            t.redis.up && Complete(t.redis.counters)
  {
    RoundKeepsTables(s, Approved);
    RoundKeepsTables(Round(s, Approved), Rejected);
    TouchAllCompletes(s.redis);
  }

  lemma TouchAllKeepsDrift(s: State)
    requires TablesAgree(s) && s.redis.up && NonNegative(s.redis)
    ensures var t := Run(s, TouchAll(s));
            && t.redis.up && Complete(t.redis.counters)
            && forall key :: Drift(t, key) == Drift(s, key)
  {
    var twice := Round(Round(s, Approved), Rejected);
    TouchAllIsTwoRounds(s);
    TwoRoundsComplete(s);
    forall key: StatKey ensures Drift(AllowEvent(twice), key) == Drift(s, key) {
      TwoRoundsKeepDrift(s, key);
      AllowKeepsDrift(twice, key);
    }
  }

  lemma TouchAllIsTwoRounds(s: State)
    ensures Run(s, TouchAll(s)) == AllowEvent(Round(Round(s, Approved), Rejected))
  {
    var s1 := CreateAlert(s, "u", 0.9, CriticalAlert);
    var s2 := Resolve(s1, s.nextId, Approved, "");
    var s3 := CreateAlert(s2, "u", 0.9, CriticalAlert);
    var s4 := Resolve(s3, s2.nextId, Rejected, "");
    assert s2.nextId == s.nextId + 1;
    RunFive(s, s1, s2, s3, s4, AllowEvent(s4));
  }

  lemma RunFive(s: State, s1: State, s2: State, s3: State, s4: State, s5: State)
    requires var ops := TouchAll(s);
             && s1 == Step(s, ops[0]).0 && s2 == Step(s1, ops[1]).0 && s3 == Step(s2, ops[2]).0
             && s4 == Step(s3, ops[3]).0 && s5 == Step(s4, ops[4]).0
    ensures Run(s, TouchAll(s)) == s5
  {
    var ops := TouchAll(s);
    assert Run(s4, ops[4..]) == s5 by { assert ops[4..][1..] == []; }
    assert Run(s3, ops[3..]) == s5 by { assert ops[3..][1..] == ops[4..]; }
    assert Run(s2, ops[2..]) == s5 by { assert ops[2..][1..] == ops[3..]; }
    assert Run(s1, ops[1..]) == s5 by { assert ops[1..][1..] == ops[2..]; }
  }

  /** A counter that is there is right; one that is missing stands for a query that gives 0. */
  predicate KeyIsRight(s: State, key: StatKey) {
    if key in s.redis.counters then s.redis.counters[key] == Queried(s, key) else Queried(s, key) == 0
  }

  /** From tables in order and counters that are not negative, every later get_stats tells the truth
      if and only if every counter is right now. Seeding does not repair a key created too early. */
  lemma AgreementExactly(s: State)
    requires TablesAgree(s) && s.redis.up && NonNegative(s.redis)
    ensures AlwaysAgrees(s) <==> forall key :: KeyIsRight(s, key)
  {
    forall key ensures KeyIsRight(s, key) <==> Drift(s, key) == 0 {}
    if forall key :: KeyIsRight(s, key) {
      assert Mirrors(s);
      forall ops: seq<Op> ensures Step(Run(s, ops), GetStats).1.numbers == SlowPath(Run(s, ops)) {
        FastPathRefinesSlowPath(s, ops);
      }
    } else {
      var key :| !KeyIsRight(s, key);
      TouchAllKeepsDrift(s);
      var t := Run(s, TouchAll(s));
      EveryKeyListed();
      assert Drift(t, key) != 0;
      assert Step(t, GetStats).1.numbers[key] != SlowPath(t)[key];
    }
  }

  // ---- Alert life cycle and audit log ----

  lemma {:induction false} AuditOnlyGrows(s: State, ops: seq<Op>)
    ensures s.audit <= Run(s, ops).audit && s.nextId <= Run(s, ops).nextId
    decreases |ops|
  {
    if ops != [] {
      AuditOnlyGrows(Step(s, ops[0]).0, ops[1..]);
    }
  }

  /** A resolved alert keeps its outcome, notes and all, for as long as it exists, and an id that is
      gone (or resolved) never comes back as pending. */
  lemma {:induction false} ResolvedForGood(s: State, ops: seq<Op>, id: nat)
    requires id < s.nextId
    requires id in s.alerts ==> s.alerts[id].status != Pending
    ensures var t := Run(s, ops);
            id in t.alerts ==> id in s.alerts && t.alerts[id] == s.alerts[id]
    decreases |ops|
  {
    if ops != [] {
      ResolvedForGood(Step(s, ops[0]).0, ops[1..], id);
    }
  }

  /** After any run: at most one resolution was ever logged per id, also across resets, and for an
      alert in the table the log holds exactly the entry its status calls for. */
  lemma AuditTellsTheStory(s: State, ops: seq<Op>, id: nat)
    requires Invariant(s)
    ensures var t := Run(s, ops);
            && |EntriesFor(t.audit, id)| <= 1
            && (id in t.alerts ==>
                  var a := t.alerts[id];
                  EntriesFor(t.audit, id)
                  == if a.status == Pending then [] else [Resolution(id, a.status, a.userId, a.score, a.notes)])
  {
    RunKeepsInvariant(s, ops);
    assert AuditMatches(Run(s, ops), id);
  }

  predicate Resolves(op: Op, id: nat) {
    (op.Approve? && op.id == id) || (op.Reject? && op.id == id)
  }

  /** Once an alert has been approved or rejected, any later approval or rejection of it changes
      nothing and is answered with the alert as it was left. */
  lemma SecondResolutionIsIdle(s: State, id: nat, first: Op, ops: seq<Op>, second: Op)
    requires Resolves(first, id) && Resolves(second, id) && id < s.nextId
    ensures var t := Run(Step(s, first).0, ops);
            Step(t, second) == (t, AlertReply(Find(t, id)))
  {
    ResolvedForGood(Step(s, first).0, ops, id);
  }

  // Auto-allowed events since the last reset.
  function AutoAllowed(start: nat, ops: seq<Op>): nat {
    if ops == [] then start
    else
      var last := ops[|ops| - 1];
      if last.Reset? then 0
      else AutoAllowed(start, ops[..|ops| - 1]) + if last.AutoAllow? then 1 else 0
  }

  lemma {:induction false} RunAppend(s: State, ops: seq<Op>, op: Op)
    ensures Run(s, ops + [op]) == Step(Run(s, ops), op).0
    decreases |ops|
  {
    if ops == [] {
      assert (ops + [op])[1..] == [];
    } else {
      assert (ops + [op])[1..] == ops[1..] + [op];
      RunAppend(Step(s, ops[0]).0, ops[1..], op);
    }
  }

  lemma {:induction false} AutoAllowedIsCounted(s: State, ops: seq<Op>)
    ensures Run(s, ops).stats.autoAllowed == AutoAllowed(s.stats.autoAllowed, ops)
    decreases |ops|
  {
    if ops != [] {
      var init, last := ops[..|ops| - 1], ops[|ops| - 1];
      AutoAllowedIsCounted(s, init);
      RunAppend(s, init, last);
      assert ops == init + [last];
    }
  }
}
