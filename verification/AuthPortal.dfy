/**
 The portal of backend/app/routes/auth.py with its table and its Redis keys updated in place, statement
 by statement. Every request is one step of AuthRequests.Handle.
 */
module AuthPortals {
  import opened Options
  import opened IsoTimes
  import opened LoginWindows
  import opened UserRows
  import opened AuthRequests
  import opened CacheRuns

  class AuthPortal {
    const env: Env
    var users: Table
    var redis: map<string, Row>

    ghost predicate Valid()
      reads this
    {
      TableOk(users) && CacheOk(View())
    }

    ghost function View(): State
      reads this
    {
      State(users, redis)
    }

    constructor (env: Env)
      ensures Valid() && View() == State(map[], map[]) && this.env == env
    {
      this.env, users, redis := env, map[], map[];
    }

    // ---- The cache helpers ----

    // json.loads of the stored text; the dictionary is the caller's own.
    method GetCachedUser(user: string, ok: bool) returns (row: Option<Row>)
      ensures row == if ok && user in redis then Some(redis[user]) else None
    {
      row := if ok && user in redis then Some(redis[user]) else None;
    }

    method CacheUser(user: string, row: Row, ok: bool)
      modifies this`redis
      ensures redis == if ok then old(redis)[user := Serialised(row)] else old(redis)
    {
      if !ok {
        return;
      }
      var serialisable: Row := map[];
      var todo := row.Keys;
      while todo != {}
        invariant todo <= row.Keys && serialisable.Keys == row.Keys - todo
        invariant forall c <- serialisable :: serialisable[c] == SerialisedValue(row[c])
        decreases |todo|
      {
        var c :| c in todo;
        if row[c].Time? {
          serialisable := serialisable[c := Str(IsoFormat(row[c].time))];
        } else {
          serialisable := serialisable[c := row[c]];
        }
        todo := todo - {c};
      }
      assert serialisable == Serialised(row);
      redis := redis[user := serialisable];
    }

    method InvalidateUserCache(user: string)
      modifies this`redis
      ensures redis == old(redis) - {user}
    {
      redis := redis - {user};
    }

    method RestoreUserDatetimes(row: Row) returns (restored: Row)
      ensures restored == Restored(row)
    {
      restored := row;
      var fields := [LastLogin, LastFailedAttempt];
      for i := 0 to 2
        invariant restored.Keys == row.Keys
        invariant forall c <- row :: restored[c] == if c in fields[..i] then RestoredValue(row[c]) else row[c]
      {
        var field := fields[i];
        if field in restored && restored[field].Str? {
          var time := FromIsoFormat(restored[field].text);
          restored := restored[field := if time.Some? then Time(time.value) else Null];
        }
      }
      assert fields[..2] == fields;
    }

    // The lookup both requests begin with.
    method LoadUser(user: string, outage: Outage) returns (row: Option<Row>)
      requires Valid()
      modifies this`redis
      ensures (row, redis) == Load(old(View()), user, outage)
    {
      row := GetCachedUser(user, outage.getOk);
      if row.Some? {
        var restored := RestoreUserDatetimes(row.value);
        return Some(restored);
      }
      if user in users {
        row := Some(users[user]);
        CacheUser(user, row.value, outage.setOk);
      }
    }

    // ---- Statements ----

    method Execute(user: string, changes: Row)
      modifies this`users
      ensures users == Update(old(users), user, changes)
    {
      if user in users {
        users := users[user := users[user] + changes];
      }
    }

    lemma TwoUpdates(db: Table, user: string, first: Row, second: Row)
      ensures Update(Update(db, user, first), user, second) == Update(db, user, first + second)
    {
      if user in db {
        assert db[user] + first + second == db[user] + (first + second);
      }
    }

    method RotateCredentials(user: string, hash: string)
      modifies this`users
      ensures users == RotateRow(old(users), user, hash)
    {
      var first: Row := map[PasswordHash := Str(hash)];
      var second: Row := map[FailedAttempts := Num(0), LastLoginRegion := Null];
      Execute(user, first);
      Execute(user, second);
      TwoUpdates(old(users), user, first, second);
      assert first + second == map[PasswordHash := Str(hash), FailedAttempts := Num(0), LastLoginRegion := Null];
    }

    // ---- Requests ----

    // The part of a login after the password was right.
    method Enter(op: Op, home: string, bruteForce: bool) returns (rotated: bool)
      requires op.Login?
      modifies this
      ensures users == Entered(old(users), op, home, bruteForce)
      ensures redis == old(redis) - {op.user}
      ensures rotated == (bruteForce && op.bruteRotation.Some?)
    {
      Execute(op.user, map[FailedAttempts := Num(0), LastLogin := Time(op.now), LastLoginIp := Str(op.ip),
                           LastLoginRegion := Str(home)]);
      InvalidateUserCache(op.user);
      if op.vpnRotation.Some? {
        RotateCredentials(op.user, op.vpnRotation.value);
      }
      rotated := false;
      if bruteForce && op.bruteRotation.Some? {
        RotateCredentials(op.user, op.bruteRotation.value);
        rotated := true;
      }
    }

    // The part of a login after the password was wrong.
    method RecordFailedAttempt(user: string, now: DateTime)
      requires TableOk(users)
      modifies this
      ensures user in old(users) ==> WellTyped(old(users)[user])
      ensures users == RecordFailure(old(users), user, now)
      ensures redis == old(redis) - {user}
    {
      if user in users {
        var count := CountAfterFailure(users[user], now);
        Execute(user, map[FailedAttempts := Num(count), LastFailedAttempt := Time(now)]);
      }
      InvalidateUserCache(user);
    }

    method FollowsGuessing(row: Row, now: DateTime) returns (bruteForce: bool)
      requires WellTyped(row)
      ensures bruteForce == IsBruteForce(row, now)
    {
      bruteForce := false;
      if row[FailedAttempts].number > 5 && row[LastFailedAttempt].Time? {
        var elapsed := Instant(now) - Instant(row[LastFailedAttempt].time);
        bruteForce := elapsed < FIVE_MINUTES;
      }
    }

    method LoginAs(user: Option<Row>, op: Op) returns (reply: Reply)
      requires TableOk(users) && op.Login? && (user.Some? ==> WellTyped(user.value))
      modifies this
      ensures op.user in old(users) ==> WellTyped(old(users)[op.user])
      ensures var o := AnswerLogin(env, old(users), user, op);
              && users == o.db && reply == o.reply
              && redis == if o.invalidates then old(redis) - {op.user} else old(redis)
    {
      if user.None? {
        return BadCredentials;
      }
      var row := user.value;
      if row[Status] == Str("pending") {
        return AwaitingApproval;
      }
      if row[PasswordHash] != Str(env.hash(op.password)) {
        RecordFailedAttempt(op.user, op.now);
        return BadCredentials;
      }
      var bruteForce := FollowsGuessing(row, op.now);
      var home := HomeRegion(env, op.user);
      var rotated := Enter(op, home, bruteForce);
      var last := if row[LastLogin].Time? then Some(IsoFormat(row[LastLogin].time)) else None;
      return LoggedIn(row[Department], RoleOf(env, op.user, row), row[FailedAttempts].number, last, home, bruteForce,
                      rotated);
    }

    method Login(op: Op) returns (reply: Reply)
      requires Valid() && ValidOp(op) && op.Login?
      modifies this
      ensures Valid() && (View(), reply) == Handle(env, old(View()), op)
    {
      var user := LoadUser(op.user, op.redis);
      LoadedIsTyped(old(View()), op.user, op.redis);
      reply := LoginAs(user, op);
      CachedRowsKeepTypes(env, old(View()), op);
    }

    lemma LoadedIsTyped(s: State, user: string, outage: Outage)
      requires TableOk(s.db) && CacheOk(s)
      ensures Load(s, user, outage).0.Some? ==> WellTyped(Load(s, user, outage).0.value)
    {
    }

    // The part of a simulation after the user was let in.
    method Visit(op: Op, region: string, home: string)
      requires op.Simulate?
      modifies this
      ensures users == Visited(old(users), op, region, home)
      ensures redis == old(redis) - {op.user}
    {
      if op.rotation.Some? {
        RotateCredentials(op.user, op.rotation.value);
        Execute(op.user, map[LastLogin := Time(op.now), LastLoginRegion := Str(home), FailedAttempts := Num(0)]);
      } else {
        Execute(op.user, map[LastLogin := Time(op.now), LastLoginRegion := Str(region)]);
      }
      InvalidateUserCache(op.user);
    }

    method SimulateAs(user: Option<Row>, op: Op) returns (reply: Reply)
      requires op.Simulate? && (user.Some? ==> WellTyped(user.value))
      modifies this
      ensures var o := AnswerSimulate(env, old(users), user, op);
              && users == o.db && reply == o.reply
              && redis == if o.invalidates then old(redis) - {op.user} else old(redis)
    {
      if user.None? || user.value[PasswordHash] != Str(env.hash(op.password)) {
        return BadCredentials;
      }
      var row := user.value;
      if row[Status] == Str("pending") {
        return AwaitingApproval;
      }
      var home := HomeRegion(env, op.user);
      var region := if op.region != "" then op.region else home;
      var failed := if op.failed.Some? then op.failed.value else row[FailedAttempts].number;
      var travel := false;
      if op.travel.Some? {
        travel := op.travel.value;
      } else if row[LastLoginRegion].Str? && row[LastLoginRegion].text != "" && row[LastLogin].Time?
                && row[LastLoginRegion].text != region {
        var elapsed := Instant(op.now) - Instant(row[LastLogin].time);
        travel := elapsed < TRAVEL_WINDOW;
      }
      Visit(op, region, home);
      return Simulated(region, region != home, travel, failed, op.rotation.Some?);
    }

    method Simulate(op: Op) returns (reply: Reply)
      requires Valid() && ValidOp(op) && op.Simulate?
      modifies this
      ensures Valid() && (View(), reply) == Handle(env, old(View()), op)
    {
      var user := LoadUser(op.user, op.redis);
      LoadedIsTyped(old(View()), op.user, op.redis);
      reply := SimulateAs(user, op);
      CachedRowsKeepTypes(env, old(View()), op);
    }

    method Register(op: Op) returns (reply: Reply)
      requires Valid() && op.Register?
      modifies this`users
      ensures Valid() && (View(), reply) == Handle(env, old(View()), op)
    {
      CachedRowsKeepTypes(env, View(), op);
      if op.user in users {
        return Taken;
      }
      users := users[op.user := NewRow(op.id, op.user, op.department)];
      return Registered;
    }

    // ---- routes/admin.py ----

    /** Leaves the cached row alone. */
    method ApproveRegistration(op: Op) returns (reply: Reply)
      requires Valid() && op.Approve?
      modifies this`users
      ensures Valid() && (View(), reply) == Handle(env, old(View()), op)
    {
      CachedRowsKeepTypes(env, View(), op);
      if op.user !in users || users[op.user][Status] != Str("pending") {
        return NothingPending;
      }
      Execute(op.user, map[Status := Str("active"), PasswordHash := Str(op.hash), LastLoginRegion := Str(op.region),
                           LastLoginIp := Str(op.ip), FailedAttempts := Num(0)]);
      return Done;
    }

    method RejectRegistration(op: Op) returns (reply: Reply)
      requires Valid() && op.Reject?
      modifies this`users
      ensures Valid() && (View(), reply) == Handle(env, old(View()), op)
    {
      CachedRowsKeepTypes(env, View(), op);
      if op.user in users && users[op.user][Status] == Str("pending") {
        users := users - {op.user};
      }
      return Done;
    }

    // scan_iter("user:*"), deleting every key.
    method DeleteCachedUsers()
      modifies this`redis
      ensures redis == map[]
    {
      while redis != map[]
        decreases |redis.Keys|
      {
        var key :| key in redis;
        redis := redis - {key};
      }
    }

    method ResetLoginMemory()
      requires Valid()
      modifies this`users
      ensures users == Administer(old(users), Reset).0
    {
      users := map user | user in users :: users[user] + BASELINE;
    }

    method ConfirmReset()
      requires Valid()
      modifies this
      ensures Valid() && View() == Handle(env, old(View()), Reset).0
    {
      CachedRowsKeepTypes(env, View(), Reset);
      ResetLoginMemory();
      DeleteCachedUsers();
    }
  }
}
