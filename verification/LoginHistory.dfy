/**
 What the failed-login count in the table means over whole runs of requests, with the cache in front of
 it: the length of the chain of failures that ends the user's history.
 */
module LoginHistories {
  import opened Options
  import opened IsoTimes
  import opened LoginWindows
  import opened UserRows
  import opened AuthRequests
  import opened CacheRuns

  /** What an operation, with this answer, does to the window of a user in the table. */
  function EventsOf(db: Table, op: Op, reply: Reply, user: string): seq<WindowEvent> {
    if user !in db then []
    else if op.Reset? then [Forget]
    else if op.Register? || op.Expire? || op.user != user then []
    else
      match op
      case Login(_, _, _, now, _, _, _) =>
        if reply.BadCredentials? then [Fail(Instant(now))] else if reply.LoggedIn? then [Clear] else []
      case Simulate(_, _, _, _, _, _, _, _) => if reply.Simulated? && reply.rotated then [Clear] else []
      case Approve(_, _, _, _) => if reply.Done? then [Clear] else []
      case Rotate(_, _) => [Clear]
      case Reject(_) => []
      case Seed(_, _, _, _) => []
  }

  function StrikeAll(w: Window, events: seq<WindowEvent>): Window
    requires |events| <= 1
  {
    if events == [] then w else Strike(w, events[0])
  }

  /** What happened to the window of a user since there is a row. */
  function History(run: Run, user: string, i: nat): seq<WindowEvent>
    requires i <= |run.ops| && |run.states| == |run.ops| + 1 && |run.replies| == |run.ops|
  {
    if i == 0 || user !in run.states[i].db then []
    else History(run, user, i - 1) + EventsOf(run.states[i - 1].db, run.ops[i - 1], run.replies[i - 1], user)
  }

  /** An UPDATE that sets the count, if at all, to 0 and leaves the time of the last failure. */
  predicate Clears(changes: Row) {
    && (forall c <- changes :: HasType(c, changes[c]))
    && FailedAttempts in changes && changes[FailedAttempts] == Num(0) && LastFailedAttempt !in changes
  }

  lemma UpdateClears(db: Table, user: string, changes: Row)
    requires TableOk(db) && user in db && Clears(changes)
    ensures TableOk(Update(db, user, changes)) && user in Update(db, user, changes)
    ensures WindowOf(Update(db, user, changes)[user]) == Strike(WindowOf(db[user]), Clear)
  {
    UpdateKeepsTypes(db, user, changes);
  }

  lemma RotationClears(db: Table, user: string, rotation: Option<string>)
    requires TableOk(db) && user in db
    ensures TableOk(RotateIf(db, user, rotation)) && user in RotateIf(db, user, rotation)
    ensures WindowOf(RotateIf(db, user, rotation)[user])
            == StrikeAll(WindowOf(db[user]), if rotation.Some? then [Clear] else [])
  {
    if rotation.Some? {
      UpdateClears(db, user, map[PasswordHash := Str(rotation.value), FailedAttempts := Num(0),
                                 LastLoginRegion := Null]);
    }
  }

  lemma EntryClears(db: Table, op: Op, home: string, brute: bool)
    requires TableOk(db) && ValidOp(op) && op.Login? && op.user in db
    ensures TableOk(Entered(db, op, home, brute)) && op.user in Entered(db, op, home, brute)
    ensures WindowOf(Entered(db, op, home, brute)[op.user]) == Strike(WindowOf(db[op.user]), Clear)
  {
    var session := map[FailedAttempts := Num(0), LastLogin := Time(op.now), LastLoginIp := Str(op.ip),
                       LastLoginRegion := Str(home)];
    UpdateClears(db, op.user, session);
    var one := Update(db, op.user, session);
    RotationClears(one, op.user, op.vpnRotation);
    RotationClears(RotateIf(one, op.user, op.vpnRotation), op.user, op.bruteRotation);
  }

  lemma FailureStrikes(db: Table, user: string, now: DateTime)
    requires TableOk(db) && IsDateTime(now) && user in db
    ensures TableOk(RecordFailure(db, user, now)) && user in RecordFailure(db, user, now)
    ensures WindowOf(RecordFailure(db, user, now)[user]) == Strike(WindowOf(db[user]), Fail(Instant(now)))
  {
    FailureKeepsTypes(db, user, now);
  }

  lemma VisitMayClear(db: Table, op: Op, region: string, home: string)
    requires TableOk(db) && ValidOp(op) && op.Simulate? && op.user in db
    ensures TableOk(Visited(db, op, region, home)) && op.user in Visited(db, op, region, home)
    ensures WindowOf(Visited(db, op, region, home)[op.user])
            == StrikeAll(WindowOf(db[op.user]), if op.rotation.Some? then [Clear] else [])
  {
    RotationClears(db, op.user, op.rotation);
    var rotated := RotateIf(db, op.user, op.rotation);
    UpdateKeepsTypes(rotated, op.user, VisitChanges(op, region, home));
    if op.rotation.Some? {
      UpdateClears(rotated, op.user, VisitChanges(op, region, home));
    }
  }

  /** From one table to the next, the user's window moves by the event that the operation and its answer
      stand for. */
  ghost predicate Moves(db: Table, next: Table, op: Op, reply: Reply, user: string) {
    && TableOk(db) && TableOk(next) && user in db && user in next
    && WindowOf(next[user]) == StrikeAll(WindowOf(db[user]), EventsOf(db, op, reply, user))
  }

  // Whatever row the cache gave.
  lemma LoginMovesWindow(env: Env, db: Table, seen: Row, op: Op)
    requires TableOk(db) && ValidOp(op) && op.Login? && op.user in db && WellTyped(seen)
    ensures var o := AnswerLogin(env, db, Some(seen), op); Moves(db, o.db, op, o.reply, op.user)
  {
    var o := AnswerLogin(env, db, Some(seen), op);
    if o.reply.BadCredentials? {
      FailureStrikes(db, op.user, op.now);
    } else if o.reply.LoggedIn? {
      EntryClears(db, op, HomeRegion(env, op.user), o.reply.bruteForce);
    }
  }

  lemma SimulationMovesWindow(env: Env, db: Table, seen: Row, op: Op)
    requires TableOk(db) && ValidOp(op) && op.Simulate? && op.user in db && WellTyped(seen)
    ensures var o := AnswerSimulate(env, db, Some(seen), op); Moves(db, o.db, op, o.reply, op.user)
  {
    var o := AnswerSimulate(env, db, Some(seen), op);
    if o.reply.Simulated? {
      VisitMayClear(db, op, o.reply.region, HomeRegion(env, op.user));
    }
  }

  ghost predicate AdministrationMoves(db: Table, op: Op, user: string)
    requires TableOk(db) && !op.Login? && !op.Simulate?
  {
    Moves(db, Administer(db, op).0, op, Administer(db, op).1, user)
  }

  lemma ApprovalMovesWindow(db: Table, op: Op)
    requires TableOk(db) && op.Approve? && op.user in db
    ensures AdministrationMoves(db, op, op.user)
  {
    UpdateClears(db, op.user, ApprovalChanges(op.hash, op.region, op.ip));
  }

  lemma BaselineIsCalm(row: Row)
    requires WellTyped(row)
    ensures WellTyped(row + BASELINE) && WindowOf(row + BASELINE) == CALM
  {
    assert forall c <- BASELINE :: HasType(c, BASELINE[c]);
    assert BASELINE[FailedAttempts] == Num(0) && BASELINE[LastFailedAttempt] == Null;
  }

  lemma ResetMovesWindow(db: Table, user: string)
    requires TableOk(db) && user in db
    ensures AdministrationMoves(db, Reset, user)
  {
    ResetKeepsTypes(db);
    BaselineIsCalm(db[user]);
    assert Administer(db, Reset).0[user] == db[user] + BASELINE;
  }

  lemma SeedKeepsWindows(db: Table, op: Op, user: string)
    requires TableOk(db) && op.Seed? && user in SeedRow(db, op.user, op.id, op.hash, op.department)
    ensures var next := SeedRow(db, op.user, op.id, op.hash, op.department);
            TableOk(next) && WindowOf(next[user]) == if user in db then WindowOf(db[user]) else CALM
  {
    SeedKeepsTypes(db, op.user, op.id, op.hash, op.department);
  }

  lemma AdministrationMovesWindow(db: Table, op: Op, user: string)
    requires TableOk(db) && !op.Login? && !op.Simulate? && user in db && user in Administer(db, op).0
    ensures AdministrationMoves(db, op, user)
  {
    match op
    case Reset => ResetMovesWindow(db, user);
    case Expire(_) =>
    case Register(_, _, _) => AdministerKeepsTypes(db, op);
    case Reject(_) =>
    case Seed(_, _, _, _) => SeedKeepsWindows(db, op, user);
    case Approve(_, _, _, _) =>
      AdministerKeepsTypes(db, op);
      if op.user == user {
        ApprovalMovesWindow(db, op);
      }
    case Rotate(_, hash) =>
      AdministerKeepsTypes(db, op);
      if op.user == user {
        RotationClears(db, user, Some(hash));
      }
  }

  lemma RequestMovesWindow(env: Env, s: State, op: Op, user: string)
    requires TableOk(s.db) && CacheOk(s) && ValidOp(op) && (op.Login? || op.Simulate?) && user in s.db
    ensures var (t, reply) := Handle(env, s, op); Moves(s.db, t.db, op, reply, user)
  {
    var seen := Load(s, op.user, op.redis).0;
    LoadKeepsTypes(s, op.user, op.redis);
    if op.user != user {
      CachedRowsKeepTypes(env, s, op);
      OtherRowsStay(env, s.db, seen, op);
    } else if op.Login? {
      LoginMovesWindow(env, s.db, seen.value, op);
    } else {
      SimulationMovesWindow(env, s.db, seen.value, op);
    }
  }

  /** Every operation through the cache, even one that is given a stale row, moves each user's window in the
      table by the event it stands for. */
  lemma OperationMovesWindow(env: Env, s: State, op: Op, user: string)
    requires TableOk(s.db) && CacheOk(s) && ValidOp(op) && user in s.db && user in Handle(env, s, op).0.db
    ensures var (t, reply) := Handle(env, s, op); Moves(s.db, t.db, op, reply, user)
  {
    if op.Login? || op.Simulate? {
      RequestMovesWindow(env, s, op, user);
    } else {
      AdministrationMovesWindow(s.db, op, user);
    }
  }

  // A user enters the table with a calm window.
  lemma NewcomersAreCalm(env: Env, s: State, op: Op, user: string)
    requires TableOk(s.db) && CacheOk(s) && ValidOp(op) && user !in s.db && user in Handle(env, s, op).0.db
    ensures TableOk(Handle(env, s, op).0.db) && WindowOf(Handle(env, s, op).0.db[user]) == CALM
  {
    CachedRowsKeepTypes(env, s, op);
    if op.Login? || op.Simulate? {
      LoadKeepsTypes(s, op.user, op.redis);
      OtherRowsStay(env, s.db, Load(s, op.user, op.redis).0, op);
      assert false;
    } else if op.Seed? {
      SeedKeepsWindows(s.db, op, user);
    }
  }

  lemma PlayOn(h: seq<WindowEvent>, events: seq<WindowEvent>)
    requires |events| <= 1
    ensures Play(h + events) == StrikeAll(Play(h), events)
  {
    if events == [] {
      assert h + events == h;
    } else {
      assert (h + events)[..|h|] == h;
    }
  }

  /** The table starts without failures. */
  ghost predicate StartsCalm(db: Table) {
    TableOk(db) && forall user <- db :: WindowOf(db[user]) == CALM
  }

  lemma {:induction false} WindowFollowsHistory(env: Env, run: Run, user: string, i: nat)
    requires IsRun(env, run) && StartsCalm(run.states[0].db) && i <= |run.ops| && user in run.states[i].db
    ensures TableOk(run.states[i].db) && WindowOf(run.states[i].db[user]) == Play(History(run, user, i))
  {
    RunKeepsTypes(env, run, i);
    if i > 0 {
      var s, op := run.states[i - 1], run.ops[i - 1];
      assert Step(env, s, op, run.states[i], run.replies[i - 1]);
      if user in s.db {
        WindowFollowsHistory(env, run, user, i - 1);
        OperationMovesWindow(env, s, op, user);
        PlayOn(History(run, user, i - 1), EventsOf(s.db, op, run.replies[i - 1], user));
      } else {
        NewcomersAreCalm(env, s, op, user);
        assert History(run, user, i - 1) == [];
        assert History(run, user, i) == [];
      }
    }
  }

  /** Over every run of requests, coherent cache or not: failed_attempts is the length of the longest chain of
      failures, each within five minutes of the one before, that ends the user's history. */
  lemma StoredCountOverRuns(env: Env, run: Run, user: string, i: nat, k: nat)
    requires IsRun(env, run) && StartsCalm(run.states[0].db) && i <= |run.ops| && user in run.states[i].db
    ensures TableOk(run.states[i].db)
    ensures Chain(History(run, user, i), k) <==> k <= run.states[i].db[user][FailedAttempts].number
  {
    WindowFollowsHistory(env, run, user, i);
    StoredCountIsLongestChain(History(run, user, i), k);
  }

  lemma LoginReadsWindow(env: Env, db: Table, op: Op)
    requires TableOk(db) && op.Login? && op.user in db && Direct(env, db, op).1.LoggedIn?
    ensures Direct(env, db, op).1.bruteForce <==> BruteForce(WindowOf(db[op.user]), Instant(op.now))
    ensures Direct(env, db, op).1.failedAttempts == WindowOf(db[op.user]).attempts
  {
  }

  lemma OnlyTheKnownLogIn(env: Env, db: Table, op: Op)
    requires TableOk(db) && op.Login? && Direct(env, db, op).1.LoggedIn?
    ensures op.user in db
  {
  }

  /** A login through the cache that is let in: it is treated as brute force exactly when at least six
      chained failures end the user's history and the last is less than five minutes old, and reports
      the length of that chain. */
  lemma BruteForceOverRuns(env: Env, run: Run, i: nat, k: nat)
    requires IsRun(env, run) && StartsCalm(run.states[0].db)
    requires forall j :: 0 <= j < |run.ops| ==> Unseen(run.states[j], run.ops[j])
    requires i < |run.ops| && run.ops[i].Login? && run.replies[i].LoggedIn?
    ensures var op := run.ops[i];
            var h := History(run, op.user, i);
            && (run.replies[i].bruteForce <==> Chain(h, 6) && Instant(op.now) - h[|h| - 1].at < FIVE_MINUTES)
            && (Chain(h, k) <==> k <= run.replies[i].failedAttempts)
  {
    var direct, op := WithoutCache(run), run.ops[i];
    CacheIsTransparent(env, run);
    assert DirectStep(env, direct.tables[i], op, direct.tables[i + 1], run.replies[i]);
    OnlyTheKnownLogIn(env, direct.tables[i], op);
    LoginReadsWindow(env, direct.tables[i], op);
    WindowFollowsHistory(env, run, op.user, i);
    BruteForceIsSixInARow(History(run, op.user, i), Instant(op.now));
    StoredCountIsLongestChain(History(run, op.user, i), k);
  }
}
