/**
 Runs of requests with the user-row cache and without. The cache changes nothing as long as the writers
 that do not delete the cached row find none: approval, rejection, seeding, and rotation by others than
 the user's own request.
 */
module CacheRuns {
  import opened Options
  import opened IsoTimes
  import opened UserRows
  import opened AuthRequests

  /** Every cached row is the one in the table. */
  ghost predicate Coherent(s: State) {
    TableOk(s.db) && forall user <- s.cache :: user in s.db && Restored(s.cache[user]) == s.db[user]
  }

  lemma CoherentIsOk(s: State)
    requires Coherent(s)
    ensures TableOk(s.db) && CacheOk(s)
  {
  }

  /** The writers outside of login, simulate and register: they leave the cached row in place. */
  predicate IsOutsideWriter(op: Op) {
    op.Approve? || op.Reject? || op.Seed? || op.Rotate?
  }

  /** What the guarantee asks of an operation: an outside writer finds nothing cached for its user. */
  predicate Unseen(s: State, op: Op) {
    IsOutsideWriter(op) ==> op.user !in s.cache
  }

  // ---- One operation ----

  lemma LoadFindsStored(s: State, user: string, redis: Outage)
    requires Coherent(s)
    ensures Load(s, user, redis).0 == Stored(s.db, user)
    ensures Coherent(State(s.db, Load(s, user, redis).1))
  {
    if user in s.db {
      RowsSurviveTheCache(s.db[user]);
    }
  }

  lemma OtherRowsStay(env: Env, db: Table, seen: Option<Row>, op: Op)
    requires TableOk(db) && (seen.Some? ==> WellTyped(seen.value)) && (op.Login? || op.Simulate?)
    ensures var o := if op.Login? then AnswerLogin(env, db, seen, op) else AnswerSimulate(env, db, seen, op);
            && (!o.invalidates ==> o.db == db)
            && o.db.Keys == db.Keys
            && forall user <- db :: user != op.user ==> o.db[user] == db[user]
  {
  }

  lemma ConcludeKeepsCoherent(db: Table, cache: map<string, Row>, o: Outcome, user: string)
    requires Coherent(State(db, cache)) && TableOk(o.db)
    requires !o.invalidates ==> o.db == db
    requires o.db.Keys == db.Keys && forall other <- db :: other != user ==> o.db[other] == db[other]
    ensures Coherent(Conclude(o, cache, user).0)
  {
  }

  lemma RequestIsTransparent(env: Env, s: State, op: Op)
    requires Coherent(s) && ValidOp(op) && (op.Login? || op.Simulate?)
    ensures TableOk(s.db) && CacheOk(s)
    ensures var (t, reply) := Handle(env, s, op); Direct(env, s.db, op) == (t.db, reply) && Coherent(t)
  {
    CoherentIsOk(s);
    LoadFindsStored(s, op.user, op.redis);
    var (seen, cache) := Load(s, op.user, op.redis);
    OtherRowsStay(env, s.db, seen, op);
    if op.Login? {
      LoginKeepsTypes(env, s.db, seen, op);
      ConcludeKeepsCoherent(s.db, cache, AnswerLogin(env, s.db, seen, op), op.user);
    } else {
      SimulateKeepsTypes(env, s.db, seen, op);
      ConcludeKeepsCoherent(s.db, cache, AnswerSimulate(env, s.db, seen, op), op.user);
    }
  }

  lemma AdministrationIsTransparent(env: Env, s: State, op: Op)
    requires Coherent(s) && Unseen(s, op) && !op.Login? && !op.Simulate?
    ensures TableOk(s.db) && CacheOk(s)
    ensures var (t, reply) := Handle(env, s, op); Direct(env, s.db, op) == (t.db, reply) && Coherent(t)
  {
    CoherentIsOk(s);
    AdministerKeepsTypes(s.db, op);
    if op.Register? || IsOutsideWriter(op) {
      AdministersOneRow(s.db, op);
    }
  }

  lemma AdministersOneRow(db: Table, op: Op)
    requires TableOk(db) && (op.Register? || IsOutsideWriter(op))
    ensures var next := Administer(db, op).0;
            && db.Keys - {op.user} <= next.Keys <= db.Keys + {op.user}
            && (forall user <- db :: user != op.user ==> next[user] == db[user])
            && (op.Register? ==> db.Keys <= next.Keys && forall user <- db :: next[user] == db[user])
  {
  }

  /** One operation with the cache does to the table and answers what it would without, and leaves the
      cache coherent. */
  lemma OperationIsTransparent(env: Env, s: State, op: Op)
    requires Coherent(s) && ValidOp(op) && Unseen(s, op)
    ensures TableOk(s.db) && CacheOk(s)
    ensures var (t, reply) := Handle(env, s, op); Direct(env, s.db, op) == (t.db, reply) && Coherent(t)
  {
    if op.Login? || op.Simulate? {
      RequestIsTransparent(env, s, op);
    } else {
      AdministrationIsTransparent(env, s, op);
    }
  }

  // When one row moves and the cache stays.
  lemma OneRowMoves(s: State, next: Table, user: string)
    requires Coherent(s) && TableOk(next)
    requires s.db.Keys - {user} <= next.Keys <= s.db.Keys + {user}
    requires forall other <- s.db :: other != user ==> next[other] == s.db[other]
    ensures Coherent(State(next, s.cache)) <==> user !in s.cache || next == s.db
  {
    if user in s.cache && user in next && next[user] == s.db[user] {
      assert next.Keys == s.db.Keys;
      assert next == s.db;
    }
  }

  /** The condition on outside writers is exact: the cache stays coherent if and only if the writer finds
      nothing cached, or leaves the row as it was. */
  lemma OutsideWritersExactly(env: Env, s: State, op: Op)
    requires Coherent(s) && IsOutsideWriter(op)
    ensures TableOk(s.db) && CacheOk(s)
    ensures Coherent(Handle(env, s, op).0) <==> Unseen(s, op) || Direct(env, s.db, op).0 == s.db
  {
    CoherentIsOk(s);
    AdministerKeepsTypes(s.db, op);
    AdministersOneRow(s.db, op);
    OneRowMoves(s, Administer(s.db, op).0, op.user);
  }

  lemma PasswordDecides(env: Env, db: Table, seen: Row, op: Op)
    requires op.Login? && WellTyped(seen) && seen[Status] == Str("active") && (op.user in db ==> WellTyped(db[op.user]))
    ensures AnswerLogin(env, db, Some(seen), op).reply.LoggedIn? <==> seen[PasswordHash] == Str(env.hash(op.password))
    ensures !AnswerLogin(env, db, Some(seen), op).reply.LoggedIn? ==>
              AnswerLogin(env, db, Some(seen), op).reply.BadCredentials?
  {
    assert "active"[0] != "pending"[0];
  }

  lemma RotationOnlyReachesTheTable(env: Env, s: State, user: string, hash: string)
    requires Coherent(s) && user in s.cache
    ensures TableOk(s.db) && CacheOk(s)
    ensures var t := Handle(env, s, Rotate(user, hash)).0;
            && TableOk(t.db) && CacheOk(t) && t.cache == s.cache
            && user in t.db && t.db[user][PasswordHash] == Str(hash) && t.db[user][Status] == s.db[user][Status]
  {
    CoherentIsOk(s);
    CachedRowsKeepTypes(env, s, Rotate(user, hash));
  }

  /** What goes wrong otherwise: a user whose row is cached can log in with the old password right after
      the rotation that was to lock it out. */
  lemma OldPasswordOutlivesRotation(env: Env, s: State, login: Op, hash: string)
    requires Coherent(s) && login.Login? && login.redis.getOk && ValidOp(login)
    requires login.user in s.cache && s.db[login.user][Status] == Str("active")
    requires s.db[login.user][PasswordHash] == Str(env.hash(login.password)) && hash != env.hash(login.password)
    ensures TableOk(s.db) && CacheOk(s)
    ensures var rotated := Handle(env, s, Rotate(login.user, hash)).0;
            && TableOk(rotated.db) && CacheOk(rotated)
            && Handle(env, rotated, login).1.LoggedIn?
            && Direct(env, rotated.db, login).1.BadCredentials?
  {
    RotationOnlyReachesTheTable(env, s, login.user, hash);
    var rotated := Handle(env, s, Rotate(login.user, hash)).0;
    PasswordDecides(env, rotated.db, Restored(s.cache[login.user]), login);
    PasswordDecides(env, rotated.db, rotated.db[login.user], login);
  }

  // ---- Runs ----

  /** states[i] is the state before ops[i]. */
  datatype Run = Run(states: seq<State>, ops: seq<Op>, replies: seq<Reply>)

  ghost predicate Step(env: Env, s: State, op: Op, t: State, reply: Reply) {
    ValidOp(op) && TableOk(s.db) && CacheOk(s) && Handle(env, s, op) == (t, reply)
  }

  ghost predicate IsRun(env: Env, run: Run) {
    && |run.states| == |run.ops| + 1 && |run.replies| == |run.ops|
    && Coherent(run.states[0])
    && forall i :: 0 <= i < |run.ops| ==> Step(env, run.states[i], run.ops[i], run.states[i + 1], run.replies[i])
  }

  /** A run on the table alone. */
  datatype TableRun = TableRun(tables: seq<Table>, ops: seq<Op>, replies: seq<Reply>)

  ghost predicate DirectStep(env: Env, db: Table, op: Op, next: Table, reply: Reply) {
    ValidOp(op) && TableOk(db) && Direct(env, db, op) == (next, reply)
  }

  ghost predicate IsTableRun(env: Env, run: TableRun) {
    && |run.tables| == |run.ops| + 1 && |run.replies| == |run.ops|
    && TableOk(run.tables[0])
    && forall i :: 0 <= i < |run.ops| ==> DirectStep(env, run.tables[i], run.ops[i], run.tables[i + 1], run.replies[i])
  }

  function WithoutCache(run: Run): TableRun {
    TableRun(seq(|run.states|, i requires 0 <= i < |run.states| => run.states[i].db), run.ops, run.replies)
  }

  lemma {:induction false} RunStaysCoherent(env: Env, run: Run, i: nat)
    requires IsRun(env, run) && i < |run.states|
    requires forall k :: 0 <= k < |run.ops| ==> Unseen(run.states[k], run.ops[k])
    ensures Coherent(run.states[i])
  {
    if i > 0 {
      RunStaysCoherent(env, run, i - 1);
      assert Step(env, run.states[i - 1], run.ops[i - 1], run.states[i], run.replies[i - 1]);
      OperationIsTransparent(env, run.states[i - 1], run.ops[i - 1]);
    }
  }

  /** Over every run, with entries expiring and Redis reads and writes failing at any time: the same
      tables and the same answers as without a cache, and every cached row equal to the one in the table
      between any two requests. */
  lemma CacheIsTransparent(env: Env, run: Run)
    requires IsRun(env, run)
    requires forall k :: 0 <= k < |run.ops| ==> Unseen(run.states[k], run.ops[k])
    ensures IsTableRun(env, WithoutCache(run))
    ensures forall i :: 0 <= i < |run.states| ==> Coherent(run.states[i])
  {
    forall i | 0 <= i < |run.states| ensures Coherent(run.states[i]) {
      RunStaysCoherent(env, run, i);
    }
    var direct := WithoutCache(run);
    forall i | 0 <= i < |run.ops|
      ensures DirectStep(env, direct.tables[i], direct.ops[i], direct.tables[i + 1], direct.replies[i])
    {
      assert Step(env, run.states[i], run.ops[i], run.states[i + 1], run.replies[i]);
      OperationIsTransparent(env, run.states[i], run.ops[i]);
    }
  }

  lemma LoadKeepsTypes(s: State, user: string, redis: Outage)
    requires TableOk(s.db) && CacheOk(s)
    ensures var (seen, cache) := Load(s, user, redis);
            && (seen.Some? ==> WellTyped(seen.value))
            && CacheOk(State(s.db, cache)) && CacheOk(State(s.db, cache - {user}))
  {
    if user in s.db {
      RowsSurviveTheCache(s.db[user]);
    }
  }

  lemma CachedRowsKeepTypes(env: Env, s: State, op: Op)
    requires TableOk(s.db) && CacheOk(s) && ValidOp(op)
    ensures TableOk(Handle(env, s, op).0.db) && CacheOk(Handle(env, s, op).0)
  {
    if op.Login? {
      LoadKeepsTypes(s, op.user, op.redis);
      LoginKeepsTypes(env, s.db, Load(s, op.user, op.redis).0, op);
    } else if op.Simulate? {
      LoadKeepsTypes(s, op.user, op.redis);
      SimulateKeepsTypes(env, s.db, Load(s, op.user, op.redis).0, op);
    } else {
      AdministerKeepsTypes(s.db, op);
    }
  }

  /** No run gets stuck: whatever the operation, it can follow. */
  lemma EveryOperationCanFollow(env: Env, run: Run, op: Op) returns (longer: Run)
    requires IsRun(env, run) && ValidOp(op)
    ensures IsRun(env, longer) && longer.ops == run.ops + [op]
  {
    var n := |run.ops|;
    CoherentIsOk(run.states[0]);
    RunKeepsTypes(env, run, n);
    var (t, reply) := Handle(env, run.states[n], op);
    longer := Run(run.states + [t], run.ops + [op], run.replies + [reply]);
    forall i | 0 <= i < |longer.ops|
      ensures Step(env, longer.states[i], longer.ops[i], longer.states[i + 1], longer.replies[i])
    {
      if i < n {
        assert Step(env, run.states[i], run.ops[i], run.states[i + 1], run.replies[i]);
      }
    }
  }

  lemma {:induction false} RunKeepsTypes(env: Env, run: Run, i: nat)
    requires IsRun(env, run) && i < |run.states|
    ensures TableOk(run.states[i].db) && CacheOk(run.states[i])
  {
    if i > 0 {
      assert Step(env, run.states[i - 1], run.ops[i - 1], run.states[i], run.replies[i - 1]);
      CachedRowsKeepTypes(env, run.states[i - 1], run.ops[i - 1]);
    } else {
      CoherentIsOk(run.states[0]);
    }
  }
}
