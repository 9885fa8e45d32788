/**
 Over every failure-free run of seeding, rotation, registration and approval: when Vault and Postgres
 hold the same password, what a second seeding does, and what the rotation count counts.
 */
module CredentialRuns {
  import opened Options
  import opened Profiles
  import opened Credentials

  // ---- Agreement ----

  /** Vault and Postgres hold the same password of the user. */
  predicate Matches(hash: string -> string, s: Store, user: string) {
    && user in s.secrets && s.secrets[user].loginPassword.Some?
    && user in s.users && s.users[user].passwordHash == Some(hash(s.secrets[user].loginPassword.value))
  }

  predicate HasHash(s: Store, user: string) {
    user in s.users && s.users[user].passwordHash.Some?
  }

  predicate HasEmptyPassword(s: Store, user: string) {
    user in s.secrets && s.secrets[user].loginPassword == Some("")
  }

  predicate Lists(profiles: seq<Profile>, user: string) {
    exists i :: 0 <= i < |profiles| && UserOf(profiles[i]) == user
  }

  /** Whether seeding leaves a user's secret and row in agreement, exactly: not if the secret matches its
      profile and holds an empty password. For then the row gets the hash of a new password that is
      never written to Vault. */
  lemma SeedingAgreesExactly(hash: string -> string, s: Store, p: Profile, g: Generated)
    requires hash(g.password) != hash("")
    ensures Matches(hash, SeedOne(hash, s, p, g).0, UserOf(p))
            <==> !(HasEmptyPassword(s, UserOf(p)) && HasMetadata(s.secrets[UserOf(p)], p))
  {
  }

  /** The approval takes effect. */
  predicate Approves(s: Store, op: Op, user: string) {
    op.Approve? && op.user == user && user in s.users && s.users[user].status == Pending
  }

  function SeededAfter(s: Store, op: Op, user: string, seeded: bool): bool {
    if op.Connect? then seeded || Lists(op.profiles, user)
    else if (op.Rotate? && op.user == user) || Approves(s, op, user) then false
    else seeded
  }

  /** Whether the user was seeded since the last rotation or effective approval of the user. */
  function SeededSince(hash: string -> string, s: Store, ops: seq<Op>, user: string): bool
    requires forall op <- ops :: ValidOp(op)
    decreases |ops|
  {
    if ops == [] then false
    else
      var init := ops[..|ops| - 1];
      SeededAfter(Run(hash, s, init), ops[|ops| - 1], user, SeededSince(hash, s, init, user))
  }

  /** What a hash in the row says: it is that of the password in Vault, unless that is empty and the user was
      seeded; in that case it is not, if seeding generates passwords with `unlike` hashes. */
  predicate InTune(hash: string -> string, s: Store, user: string, seeded: bool, unlike: bool) {
    user in s.secrets && HasHash(s, user) ==>
      && s.secrets[user].loginPassword.Some?
      && (!HasEmptyPassword(s, user) || !seeded ==> Matches(hash, s, user))
      && (HasEmptyPassword(s, user) && seeded && unlike ==> !Matches(hash, s, user))
  }

  /** No password that seeding generates has the hash of the empty one. */
  predicate GeneratesUnlike(hash: string -> string, op: Op) {
    op.Connect? ==> forall g <- op.generated :: hash(g.password) != hash("")
  }

  lemma SeedOneInTune(hash: string -> string, s: Store, p: Profile, g: Generated, user: string, seeded: bool,
                      unlike: bool)
    requires InTune(hash, s, user, seeded, unlike) && (unlike ==> hash(g.password) != hash(""))
    ensures InTune(hash, SeedOne(hash, s, p, g).0, user, seeded || UserOf(p) == user, unlike)
  {
  }

  lemma ListsOneMore(profiles: seq<Profile>, n: nat, user: string)
    requires n < |profiles|
    ensures Lists(profiles[..n + 1], user) <==> Lists(profiles[..n], user) || UserOf(profiles[n]) == user
  {
    assert profiles[..n + 1][n] == profiles[n];
    assert forall i :: 0 <= i < n ==> profiles[..n + 1][i] == profiles[..n][i];
  }

  lemma {:induction false} SeedInTune(hash: string -> string, s: Store, generated: seq<Generated>, n: nat, user: string,
                                      seeded: bool, unlike: bool)
    requires n <= |s.profiles| <= |generated| && InTune(hash, s, user, seeded, unlike)
    requires unlike ==> forall g <- generated :: hash(g.password) != hash("")
    ensures InTune(hash, Seed(hash, s, generated, n).store, user, seeded || Lists(s.profiles[..n], user), unlike)
  {
    if n > 0 {
      SeedInTune(hash, s, generated, n - 1, user, seeded, unlike);
      ListsOneMore(s.profiles, n - 1, user);
      SeedOneInTune(hash, Seed(hash, s, generated, n - 1).store, s.profiles[n - 1], generated[n - 1], user,
                    seeded || Lists(s.profiles[..n - 1], user), unlike);
    }
  }

  lemma StepInTune(hash: string -> string, s: Store, op: Op, user: string, seeded: bool, unlike: bool)
    requires ValidOp(op) && InTune(hash, s, user, seeded, unlike)
    requires unlike ==> GeneratesUnlike(hash, op)
    ensures InTune(hash, Step(hash, s, op), user, SeededAfter(s, op, user, seeded), unlike)
  {
    if op.Connect? {
      SeedInTune(hash, s.(profiles := op.profiles), op.generated, |op.profiles|, user, seeded, unlike);
      assert op.profiles[..|op.profiles|] == op.profiles;
    }
  }

  lemma {:induction false} RunInTune(hash: string -> string, s: Store, ops: seq<Op>, user: string, unlike: bool)
    requires forall op <- ops :: ValidOp(op) && (unlike ==> GeneratesUnlike(hash, op))
    requires InTune(hash, s, user, false, unlike)
    ensures InTune(hash, Run(hash, s, ops), user, SeededSince(hash, s, ops, user), unlike)
    decreases |ops|
  {
    if ops != [] {
      var init := ops[..|ops| - 1];
      RunInTune(hash, s, init, user, unlike);
      StepInTune(hash, Run(hash, s, init), ops[|ops| - 1], user, SeededSince(hash, s, init, user), unlike);
    }
  }

  /** The stores start out right for the user: a hash there is matches a secret there is. */
  predicate StartsInTune(hash: string -> string, s: Store, user: string) {
    user in s.secrets && HasHash(s, user) ==> Matches(hash, s, user)
  }

  /** Over every run, for each user with both a Vault secret and a Postgres row: the row holds the hash of the
      password in Vault if and only if it holds any hash, and the password is not empty or the user was not
      seeded since the last rotation or approval. */
  lemma UsersAgreeExactly(hash: string -> string, s: Store, ops: seq<Op>, user: string)
    requires forall op <- ops :: ValidOp(op) && GeneratesUnlike(hash, op)
    requires StartsInTune(hash, s, user)
    requires var t := Run(hash, s, ops); user in t.secrets && user in t.users
    ensures var t := Run(hash, s, ops);
            Matches(hash, t, user)
            <==> HasHash(t, user) && (!HasEmptyPassword(t, user) || !SeededSince(hash, s, ops, user))
  {
    RunInTune(hash, s, ops, user, true);
  }

  predicate ActiveHasHash(s: Store, user: string) {
    user in s.users && s.users[user].status == Active ==> HasHash(s, user)
  }

  lemma {:induction false} SeedKeepsActive(hash: string -> string, s: Store, generated: seq<Generated>, n: nat,
                                           user: string)
    requires n <= |s.profiles| <= |generated| && ActiveHasHash(s, user)
    ensures ActiveHasHash(Seed(hash, s, generated, n).store, user)
  {
    if n > 0 {
      SeedKeepsActive(hash, s, generated, n - 1, user);
    }
  }

  lemma {:induction false} RunKeepsActive(hash: string -> string, s: Store, ops: seq<Op>, user: string)
    requires (forall op <- ops :: ValidOp(op)) && ActiveHasHash(s, user)
    ensures ActiveHasHash(Run(hash, s, ops), user)
    decreases |ops|
  {
    if ops != [] {
      var init, op := ops[..|ops| - 1], ops[|ops| - 1];
      RunKeepsActive(hash, s, init, user);
      assert op in ops && ValidOp(op);
      if op.Connect? {
        SeedKeepsActive(hash, Run(hash, s, init).(profiles := op.profiles), op.generated, |op.profiles|, user);
      }
    }
  }

  /** In particular an active user with a secret agrees, whatever seeding generates, but for an empty
      password seeded since. */
  lemma ActiveUsersAgree(hash: string -> string, s: Store, ops: seq<Op>, user: string)
    requires forall op <- ops :: ValidOp(op)
    requires StartsInTune(hash, s, user) && ActiveHasHash(s, user)
    ensures var t := Run(hash, s, ops);
            && user in t.secrets && user in t.users && t.users[user].status == Active
            && (!HasEmptyPassword(t, user) || !SeededSince(hash, s, ops, user))
            ==> Matches(hash, t, user)
  {
    RunInTune(hash, s, ops, user, false);
    RunKeepsActive(hash, s, ops, user);
  }

  /** The operations that give a row its hash: seeding a profile of the user, rotating a user who has a row,
      and approving a pending one. */
  predicate SetsHash(s: Store, op: Op, user: string) {
    match op
    case Connect(profiles, _) => Lists(profiles, user)
    case Rotate(u, _) => u == user && user in s.users
    case Approve(u, _) => u == user && user in s.users && s.users[user].status == Pending
    case _ => false
  }

  /** Those that leave the user with a new row, or none. */
  predicate DropsHash(s: Store, op: Op, user: string) {
    match op
    case Register(u, _) => u == user && user !in s.users
    case Reject(u) => u == user && user in s.users && s.users[user].status == Pending
    case _ => false
  }

  /** Whether an operation has set the hash since the row was registered. */
  function HashWasSet(hash: string -> string, s: Store, ops: seq<Op>, user: string): bool
    requires forall op <- ops :: ValidOp(op)
    decreases |ops|
  {
    if ops == [] then HasHash(s, user)
    else
      var init, op := ops[..|ops| - 1], ops[|ops| - 1];
      if SetsHash(Run(hash, s, init), op, user) then true
      else if DropsHash(Run(hash, s, init), op, user) then false
      else HashWasSet(hash, s, init, user)
  }

  lemma SeedOneSetsHash(hash: string -> string, s: Store, p: Profile, g: Generated, user: string)
    ensures HasHash(SeedOne(hash, s, p, g).0, user) <==> HasHash(s, user) || UserOf(p) == user
  {
  }

  lemma {:induction false} SeedSetsHash(hash: string -> string, s: Store, generated: seq<Generated>, n: nat,
                                        user: string)
    requires n <= |s.profiles| <= |generated|
    ensures HasHash(Seed(hash, s, generated, n).store, user) <==> HasHash(s, user) || Lists(s.profiles[..n], user)
  {
    if n > 0 {
      SeedSetsHash(hash, s, generated, n - 1, user);
      ListsOneMore(s.profiles, n - 1, user);
      var before, p, g := Seed(hash, s, generated, n - 1), s.profiles[n - 1], generated[n - 1];
      SeedOneSetsHash(hash, before.store, p, g, user);
      assert Seed(hash, s, generated, n) == SeedNext(hash, before, p, g);
    }
  }

  lemma StepSetsHash(hash: string -> string, s: Store, op: Op, user: string)
    requires ValidOp(op)
    ensures HasHash(Step(hash, s, op), user)
            <==> SetsHash(s, op, user) || (HasHash(s, user) && !DropsHash(s, op, user))
  {
    if op.Connect? {
      SeedSetsHash(hash, s.(profiles := op.profiles), op.generated, |op.profiles|, user);
      assert op.profiles[..|op.profiles|] == op.profiles;
    }
  }

  /** Over every run the row has a hash if and only if seeding, a rotation or an approval set it since the
      user was registered. */
  lemma {:induction false} HashColumnTellsHistory(hash: string -> string, s: Store, ops: seq<Op>, user: string)
    requires forall op <- ops :: ValidOp(op)
    ensures HasHash(Run(hash, s, ops), user) <==> HashWasSet(hash, s, ops, user)
    decreases |ops|
  {
    if ops != [] {
      HashColumnTellsHistory(hash, s, ops[..|ops| - 1], user);
      StepSetsHash(hash, Run(hash, s, ops[..|ops| - 1]), ops[|ops| - 1], user);
    }
  }

  lemma RunSnoc(hash: string -> string, s: Store, init: seq<Op>, op: Op)
    requires ValidOp(op) && forall o <- init :: ValidOp(o)
    ensures forall o <- init + [op] :: ValidOp(o)
    ensures Run(hash, s, init + [op]) == Step(hash, Run(hash, s, init), op)
  {
    assert (init + [op])[..|init|] == init;
  }

  /** Users without a hash do occur: rotating a name nobody has yet makes a secret, and the registration
      that follows a row without a hash. */
  lemma PendingUserWithSecret(hash: string -> string, s: Store, user: string, g: Generated, department: string)
    requires user !in s.users
    ensures var t := Run(hash, s, [Rotate(user, g), Register(user, department)]);
            && user in t.secrets && user in t.users
            && t.secrets[user].loginPassword == Some(g.password) && t.users[user].passwordHash == None
  {
    RunSnoc(hash, s, [], Rotate(user, g));
    RunSnoc(hash, s, [Rotate(user, g)], Register(user, department));
    assert [] + [Rotate(user, g)] == [Rotate(user, g)];
    assert [Rotate(user, g)] + [Register(user, department)] == [Rotate(user, g), Register(user, department)];
  }

  /** And so does the other case: an approval with an empty password, after which Vault is connected to again
      with a profile as the approval made it. The row then has the hash of a password kept nowhere. */
  lemma EmptyPasswordThenSeeding(hash: string -> string, s: Store, user: string, department: string, others: string,
                                 g: Generated)
    requires user !in s.users && hash(g.password) != hash("")
    ensures var (role, region) := PeerTemplate(s.profiles, OrEngineering(department));
            var file := [Profile(Some(user), Some(role), Some(region))];
            var t := Run(hash, s, [Register(user, department), Approve(user, Generated("", others)),
                                   Connect(file, [g])]);
            && user in t.users && t.users[user].status == Active && HasEmptyPassword(t, user)
            && t.users[user].passwordHash == Some(hash(g.password))
            && !Matches(hash, t, user)
  {
    var (role, region) := PeerTemplate(s.profiles, OrEngineering(department));
    var p := Profile(Some(user), Some(role), Some(region));
    var register, approve := Register(user, department), Approve(user, Generated("", others));
    var connect := Connect([p], [g]);
    RunSnoc(hash, s, [], register);
    RunSnoc(hash, s, [register], approve);
    RunSnoc(hash, s, [register, approve], connect);
    assert [] + [register] == [register] && [register] + [approve] == [register, approve];
    assert [register, approve] + [connect] == [register, approve, connect];
    var approved := Run(hash, s, [register, approve]);
    EmptyPasswordApproved(hash, s, user, department, others);
    SeedOneProfile(hash, approved, p, g);
  }

  lemma EmptyPasswordApproved(hash: string -> string, s: Store, user: string, department: string, others: string)
    requires user !in s.users
    ensures var (role, region) := PeerTemplate(s.profiles, OrEngineering(department));
            var t := Step(hash, Step(hash, s, Register(user, department)), Approve(user, Generated("", others)));
            && user in t.users && t.users[user].status == Active
            && user in t.secrets && t.secrets[user] == Secret(Some(role), Some(region), Some(""), 0, others)
  {
  }

  lemma SeedOneProfile(hash: string -> string, s: Store, p: Profile, g: Generated)
    ensures Step(hash, s, Connect([p], [g])) == SeedOne(hash, s.(profiles := [p]), p, g).0
  {
    var t := s.(profiles := [p]);
    assert Seed(hash, t, [g], 0).store == t;
    assert Seed(hash, t, [g], 1) == SeedNext(hash, Seed(hash, t, [g], 0), p, g);
  }

  // ---- Seeding keeps ----

  lemma {:induction false} SeedKeepsProfiles(hash: string -> string, s: Store, generated: seq<Generated>, n: nat)
    requires n <= |s.profiles| <= |generated|
    ensures var r := Seed(hash, s, generated, n);
            r.store.profiles == s.profiles && |r.outcomes| == n && |r.mailed| == n
  {
    if n > 0 {
      SeedKeepsProfiles(hash, s, generated, n - 1);
    }
  }

  /** Seeding keeps every password that is not empty, every rotation count and every other credential. */
  lemma {:induction false} SeedingKeepsCredentials(hash: string -> string, s: Store, generated: seq<Generated>, n: nat,
                                                   user: string)
    requires n <= |s.profiles| <= |generated| && user in s.secrets
    ensures var t := Seed(hash, s, generated, n).store;
            && user in t.secrets
            && t.secrets[user].rotationCount == s.secrets[user].rotationCount
            && t.secrets[user].others == s.secrets[user].others
            && (!Lacks(s.secrets[user].loginPassword) ==>
                  t.secrets[user].loginPassword == s.secrets[user].loginPassword)
  {
    if n > 0 {
      SeedingKeepsCredentials(hash, s, generated, n - 1, user);
    }
  }

  /** With this password the user can log in, and it is the one in Vault. */
  predicate Works(hash: string -> string, s: Store, mail: (string, string)) {
    && mail.0 in s.users && s.users[mail.0].passwordHash == Some(hash(mail.1))
    && mail.0 in s.secrets && s.secrets[mail.0].loginPassword == Some(mail.1)
  }

  /** The user's secret holds an empty password, and the first n profiles leave it alone. */
  predicate StaysEmpty(s: Store, user: string, n: nat)
    requires n <= |s.profiles|
  {
    && HasEmptyPassword(s, user)
    && forall j :: 0 <= j < n && UserOf(s.profiles[j]) == user ==> HasMetadata(s.secrets[user], s.profiles[j])
  }

  predicate NoneEmpty(generated: seq<Generated>) {
    forall g <- generated :: g.password != ""
  }

  lemma StaysEmptyOneMore(s: Store, user: string, n: nat)
    requires n < |s.profiles|
    ensures StaysEmpty(s, user, n + 1)
            <==> StaysEmpty(s, user, n)
                 && (UserOf(s.profiles[n]) == user ==> HasMetadata(s.secrets[user], s.profiles[n]))
  {
  }

  // What one profile does to a user's secret.
  lemma SeedOneSecret(hash: string -> string, s: Store, p: Profile, g: Generated, user: string)
    requires g.password != ""
    ensures var t := SeedOne(hash, s, p, g).0;
            && (UserOf(p) != user ==> Find(t.secrets, user) == Find(s.secrets, user))
            && (UserOf(p) == user && HasEmptyPassword(s, user) && HasMetadata(s.secrets[user], p) ==>
                  Find(t.secrets, user) == Find(s.secrets, user))
            && (UserOf(p) == user && !(HasEmptyPassword(s, user) && HasMetadata(s.secrets[user], p)) ==>
                  !HasEmptyPassword(t, user))
  {
  }

  // The user's secret after n profiles, in t.
  predicate SecretFollows(s: Store, t: Store, user: string, n: nat)
    requires n <= |s.profiles|
  {
    if StaysEmpty(s, user, n) then user in t.secrets && t.secrets[user] == s.secrets[user]
    else !HasEmptyPassword(t, user)
  }

  lemma SecretOneMore(hash: string -> string, s: Store, before: Seeding, n: nat, g: Generated, user: string)
    requires n < |s.profiles| && SecretFollows(s, before.store, user, n) && g.password != ""
    ensures SecretFollows(s, SeedNext(hash, before, s.profiles[n], g).store, user, n + 1)
  {
    StaysEmptyOneMore(s, user, n);
    SeedOneSecret(hash, before.store, s.profiles[n], g, user);
  }

  lemma {:induction false} SecretWhileSeeding(hash: string -> string, s: Store, generated: seq<Generated>, n: nat,
                                              user: string)
    requires n <= |s.profiles| <= |generated| && NoneEmpty(generated)
    ensures SecretFollows(s, Seed(hash, s, generated, n).store, user, n)
  {
    if n > 0 {
      var before, g := Seed(hash, s, generated, n - 1), generated[n - 1];
      SecretWhileSeeding(hash, s, generated, n - 1, user);
      SecretOneMore(hash, s, before, n - 1, g, user);
      assert Seed(hash, s, generated, n) == SeedNext(hash, before, s.profiles[n - 1], g);
    }
  }

  lemma SeedOneMails(hash: string -> string, s: Store, p: Profile, g: Generated)
    ensures var (t, _, password) := SeedOne(hash, s, p, g);
            if HasEmptyPassword(s, UserOf(p)) && HasMetadata(s.secrets[UserOf(p)], p) then
              password == g.password && HasEmptyPassword(t, UserOf(p))
            else Works(hash, t, (UserOf(p), password))
    ensures g.password != "" ==> SeedOne(hash, s, p, g).2 != ""
  {
  }

  lemma MailStillWorks(hash: string -> string, s: Store, p: Profile, g: Generated, mail: (string, string))
    requires Works(hash, s, mail) && mail.1 != ""
    ensures Works(hash, SeedOne(hash, s, p, g).0, mail)
  {
  }

  // A password that is neither in the secret nor the one generated now is not in the secret then.
  lemma MailStillFails(hash: string -> string, s: Store, p: Profile, g: Generated, mail: (string, string))
    requires mail.0 in s.secrets && s.secrets[mail.0].loginPassword != Some(mail.1) && g.password != mail.1
    ensures var t := SeedOne(hash, s, p, g).0; mail.0 in t.secrets && t.secrets[mail.0].loginPassword != Some(mail.1)
  {
  }

  predicate AllDifferent(generated: seq<Generated>) {
    forall i, j :: 0 <= i < j < |generated| ==> generated[i].password != generated[j].password
  }

  /** When seeding is done, the password mailed for a profile works if and only if it is not the case that the
      user's secret held an empty password and all of the user's profiles so far matched it. */
  lemma MailedPasswordsWork(hash: string -> string, s: Store, generated: seq<Generated>, n: nat, i: nat)
    requires i < n <= |s.profiles| <= |generated| && NoneEmpty(generated) && AllDifferent(generated)
    ensures var r := Seed(hash, s, generated, n);
            && |r.mailed| == n && r.mailed[i].0 == UserOf(s.profiles[i])
            && (Works(hash, r.store, r.mailed[i]) <==> !StaysEmpty(s, UserOf(s.profiles[i]), i + 1))
  {
    MailedWhileSeeding(hash, s, generated, n, i);
  }

  predicate MailOk(hash: string -> string, s: Store, r: Seeding, generated: seq<Generated>, i: nat)
    requires i < |r.mailed| && i < |s.profiles| && i < |generated|
  {
    var user, mail := UserOf(s.profiles[i]), r.mailed[i];
    && mail.0 == user && mail.1 != ""
    && if StaysEmpty(s, user, i + 1) then
         && mail.1 == generated[i].password
         && user in r.store.secrets && r.store.secrets[user].loginPassword != Some(mail.1)
       else Works(hash, r.store, mail)
  }

  lemma MailedNow(hash: string -> string, s: Store, generated: seq<Generated>, i: nat)
    requires i < |s.profiles| <= |generated| && NoneEmpty(generated)
    ensures var r := Seed(hash, s, generated, i + 1); |r.mailed| == i + 1 && MailOk(hash, s, r, generated, i)
  {
    var before, p := Seed(hash, s, generated, i), s.profiles[i];
    SeedKeepsProfiles(hash, s, generated, i);
    SecretWhileSeeding(hash, s, generated, i, UserOf(p));
    StaysEmptyOneMore(s, UserOf(p), i);
    SeedOneMails(hash, before.store, p, generated[i]);
  }

  lemma MailedBefore(hash: string -> string, s: Store, before: Seeding, generated: seq<Generated>, i: nat, p: Profile,
                     g: Generated)
    requires i < |before.mailed| && i < |s.profiles| && i < |generated|
    requires MailOk(hash, s, before, generated, i) && g.password != generated[i].password
    ensures MailOk(hash, s, SeedNext(hash, before, p, g), generated, i)
  {
    var mail := before.mailed[i];
    if StaysEmpty(s, mail.0, i + 1) {
      MailStillFails(hash, before.store, p, g, mail);
    } else {
      MailStillWorks(hash, before.store, p, g, mail);
    }
  }

  lemma {:induction false} MailedWhileSeeding(hash: string -> string, s: Store, generated: seq<Generated>, n: nat,
                                              i: nat)
    requires i < n <= |s.profiles| <= |generated| && NoneEmpty(generated) && AllDifferent(generated)
    ensures var r := Seed(hash, s, generated, n); |r.mailed| == n && MailOk(hash, s, r, generated, i)
  {
    if i < n - 1 {
      MailedWhileSeeding(hash, s, generated, n - 1, i);
      MailedBefore(hash, s, Seed(hash, s, generated, n - 1), generated, i, s.profiles[n - 1], generated[n - 1]);
    } else {
      MailedNow(hash, s, generated, i);
    }
  }

  // ---- A second seeding ----

  /** Profiles of the same user ask for the same role and region. */
  predicate Consistent(profiles: seq<Profile>) {
    forall i, j :: 0 <= i < j < |profiles| && UserOf(profiles[i]) == UserOf(profiles[j]) ==>
      TargetRole(profiles[i]) == TargetRole(profiles[j]) && TargetRegion(profiles[i]) == TargetRegion(profiles[j])
  }

  /** The user's secret is as the profile wants it, so that seeding skips it. */
  predicate Settled(s: Store, p: Profile) {
    && UserOf(p) in s.secrets && HasMetadata(s.secrets[UserOf(p)], p)
    && s.secrets[UserOf(p)].loginPassword.Some?
  }

  predicate AllSkipped(outcomes: seq<Outcome>) {
    forall i :: 0 <= i < |outcomes| ==> outcomes[i] == Skipped
  }

  lemma SkippedSnoc(outcomes: seq<Outcome>, o: Outcome)
    ensures AllSkipped(outcomes + [o]) <==> AllSkipped(outcomes) && o == Skipped
  {
    var all := outcomes + [o];
    assert all[|outcomes|] == o;
    assert forall i :: 0 <= i < |outcomes| ==> all[i] == outcomes[i];
  }

  lemma SkippedIffSettled(hash: string -> string, s: Store, p: Profile, g: Generated)
    ensures SeedOne(hash, s, p, g).1 == Skipped <==> Settled(s, p)
    ensures Settled(s, p) ==> SeedOne(hash, s, p, g).0.secrets == s.secrets
    ensures Settled(SeedOne(hash, s, p, g).0, p)
  {
    if Settled(s, p) {
      assert s.secrets[UserOf(p) := s.secrets[UserOf(p)]] == s.secrets;
    }
  }

  predicate AllSettled(s: Store, profiles: seq<Profile>, n: nat)
    requires n <= |profiles|
  {
    forall i :: 0 <= i < n ==> Settled(s, profiles[i])
  }

  /** The first n profiles are skipped exactly when they are settled to begin with, and then no secret
      is written. */
  predicate SkipsExactly(s: Store, r: Seeding, n: nat)
    requires n <= |s.profiles|
  {
    && (AllSkipped(r.outcomes) <==> AllSettled(s, s.profiles, n))
    && (AllSettled(s, s.profiles, n) ==> r.store.secrets == s.secrets)
  }

  lemma OneMoreSkipped(hash: string -> string, s: Store, before: Seeding, n: nat, g: Generated)
    requires n < |s.profiles| && SkipsExactly(s, before, n)
    ensures SkipsExactly(s, SeedNext(hash, before, s.profiles[n], g), n + 1)
  {
    var p := s.profiles[n];
    SkippedIffSettled(hash, before.store, p, g);
    SkippedSnoc(before.outcomes, SeedOne(hash, before.store, p, g).1);
    assert AllSettled(s, s.profiles, n + 1) <==> AllSettled(s, s.profiles, n) && Settled(s, p);
  }

  lemma {:induction false} SkippingExactly(hash: string -> string, s: Store, generated: seq<Generated>, n: nat)
    requires n <= |s.profiles| <= |generated|
    ensures SkipsExactly(s, Seed(hash, s, generated, n), n)
  {
    if n > 0 {
      SkippingExactly(hash, s, generated, n - 1);
      OneMoreSkipped(hash, s, Seed(hash, s, generated, n - 1), n - 1, generated[n - 1]);
    }
  }

  lemma StaysSettled(hash: string -> string, s: Store, p: Profile, q: Profile, g: Generated)
    requires Settled(s, p) && UserOf(q) != UserOf(p)
    ensures Settled(SeedOne(hash, s, q, g).0, p)
  {
  }

  // After seeding, a user's secret suits the last of the user's profiles.
  lemma {:induction false} SeedingSettlesLast(hash: string -> string, s: Store, generated: seq<Generated>, n: nat,
                                              i: nat)
    requires i < n <= |s.profiles| <= |generated|
    requires forall j :: i < j < n ==> UserOf(s.profiles[j]) != UserOf(s.profiles[i])
    ensures Settled(Seed(hash, s, generated, n).store, s.profiles[i])
  {
    var before := Seed(hash, s, generated, n - 1);
    if i < n - 1 {
      SeedingSettlesLast(hash, s, generated, n - 1, i);
      StaysSettled(hash, before.store, s.profiles[i], s.profiles[n - 1], generated[n - 1]);
    } else {
      SkippedIffSettled(hash, before.store, s.profiles[i], generated[i]);
    }
    assert Seed(hash, s, generated, n) == SeedNext(hash, before, s.profiles[n - 1], generated[n - 1]);
  }

  lemma LastProfile(profiles: seq<Profile>, i: nat) returns (last: nat)
    requires i < |profiles|
    ensures i <= last < |profiles| && UserOf(profiles[last]) == UserOf(profiles[i])
    ensures forall j :: last < j < |profiles| ==> UserOf(profiles[j]) != UserOf(profiles[last])
  {
    last := i;
    for j := i + 1 to |profiles|
      invariant i <= last < j && UserOf(profiles[last]) == UserOf(profiles[i])
      invariant forall k :: last < k < j ==> UserOf(profiles[k]) != UserOf(profiles[last])
    {
      if UserOf(profiles[j]) == UserOf(profiles[i]) {
        last := j;
      }
    }
  }

  lemma SettledTogether(s: Store, p: Profile, q: Profile)
    requires Settled(s, p) && UserOf(p) == UserOf(q)
    ensures Settled(s, q) <==> TargetRole(p) == TargetRole(q) && TargetRegion(p) == TargetRegion(q)
  {
  }

  predicate IsLast(profiles: seq<Profile>, i: nat) {
    i < |profiles| && forall j :: i < j < |profiles| ==> UserOf(profiles[j]) != UserOf(profiles[i])
  }

  lemma ConsistentIffSettled(once: Store, profiles: seq<Profile>)
    requires forall i :: 0 <= i < |profiles| && IsLast(profiles, i) ==> Settled(once, profiles[i])
    ensures Consistent(profiles) <==> AllSettled(once, profiles, |profiles|)
  {
    if Consistent(profiles) {
      forall i | 0 <= i < |profiles| ensures Settled(once, profiles[i]) {
        var last := LastProfile(profiles, i);
        assert IsLast(profiles, last);
        SettledTogether(once, profiles[last], profiles[i]);
      }
    }
    if AllSettled(once, profiles, |profiles|) {
      forall i, j | 0 <= i < j < |profiles| && UserOf(profiles[i]) == UserOf(profiles[j])
        ensures TargetRole(profiles[i]) == TargetRole(profiles[j])
        ensures TargetRegion(profiles[i]) == TargetRegion(profiles[j])
      {
        SettledTogether(once, profiles[i], profiles[j]);
      }
    }
  }

  // A seeded store: every secret suits the last profile of its user.
  predicate LastSettled(s: Store) {
    forall i :: 0 <= i < |s.profiles| && IsLast(s.profiles, i) ==> Settled(s, s.profiles[i])
  }

  lemma SeededIsLastSettled(hash: string -> string, s: Store, generated: seq<Generated>)
    requires |s.profiles| <= |generated|
    ensures var once := Seed(hash, s, generated, |s.profiles|).store; once.profiles == s.profiles && LastSettled(once)
  {
    SeedKeepsProfiles(hash, s, generated, |s.profiles|);
    forall i | 0 <= i < |s.profiles| && IsLast(s.profiles, i)
      ensures Settled(Seed(hash, s, generated, |s.profiles|).store, s.profiles[i])
    {
      SeedingSettlesLast(hash, s, generated, |s.profiles|, i);
    }
  }

  // Seeding a seeded store.
  lemma SeedingAgain(hash: string -> string, s: Store, generated: seq<Generated>)
    requires LastSettled(s) && |s.profiles| <= |generated|
    ensures var r := Seed(hash, s, generated, |s.profiles|);
            && (AllSkipped(r.outcomes) <==> Consistent(s.profiles))
            && (Consistent(s.profiles) ==> r.store.secrets == s.secrets)
  {
    SkippingExactly(hash, s, generated, |s.profiles|);
    ConsistentIffSettled(s, s.profiles);
  }

  /** A second seeding writes no secret if and only if no two profiles of a user disagree. */
  lemma SecondSeedingIsIdleExactly(hash: string -> string, s: Store, first: seq<Generated>, second: seq<Generated>)
    requires |s.profiles| <= |first| && |s.profiles| <= |second|
    ensures var once := Seed(hash, s, first, |s.profiles|).store;
            && once.profiles == s.profiles
            && var again := Seed(hash, once, second, |once.profiles|);
               && (AllSkipped(again.outcomes) <==> Consistent(s.profiles))
               && (Consistent(s.profiles) ==> again.store.secrets == once.secrets)
  {
    SeededIsLastSettled(hash, s, first);
    SeedingAgain(hash, Seed(hash, s, first, |s.profiles|).store, second);
  }

  // ---- Counts ----

  /** Every profile has one of the three outcomes. */
  lemma {:induction false} OutcomesAddUp(outcomes: seq<Outcome>)
    ensures var t := TallyOf(outcomes); t.created + t.updated + t.skipped == |outcomes|
  {
    if outcomes != [] {
      OutcomesAddUp(outcomes[..|outcomes| - 1]);
    }
  }

  function CountOf(s: Store, user: string): nat {
    if user in s.secrets then s.secrets[user].rotationCount else 0
  }

  /** The rotations of a user since the last approval of that user took effect. */
  function RotationsSince(hash: string -> string, s: Store, ops: seq<Op>, user: string): nat
    requires forall op <- ops :: ValidOp(op)
    decreases |ops|
  {
    if ops == [] then CountOf(s, user)
    else
      var init, op := ops[..|ops| - 1], ops[|ops| - 1];
      if op.Rotate? && op.user == user then RotationsSince(hash, s, init, user) + 1
      else if Approves(Run(hash, s, init), op, user) then 0
      else RotationsSince(hash, s, init, user)
  }

  lemma {:induction false} SeedKeepsCounts(hash: string -> string, s: Store, generated: seq<Generated>, n: nat,
                                           user: string)
    requires n <= |s.profiles| <= |generated|
    ensures CountOf(Seed(hash, s, generated, n).store, user) == CountOf(s, user)
  {
    if n > 0 {
      SeedKeepsCounts(hash, s, generated, n - 1, user);
    }
  }

  lemma StepMovesCount(hash: string -> string, s: Store, op: Op, user: string)
    requires ValidOp(op)
    ensures CountOf(Step(hash, s, op), user)
            == if op.Rotate? && op.user == user then CountOf(s, user) + 1
               else if Approves(s, op, user) then 0
               else CountOf(s, user)
  {
    if op.Connect? {
      SeedKeepsCounts(hash, s.(profiles := op.profiles), op.generated, |op.profiles|, user);
    }
  }

  /** Over every run the rotation count in a user's secret is the number of rotations of exactly that user
      since approval: each raises it by one, and nothing else moves it. */
  lemma {:induction false} RotationCountCounts(hash: string -> string, s: Store, ops: seq<Op>, user: string)
    requires forall op <- ops :: ValidOp(op)
    ensures CountOf(Run(hash, s, ops), user) == RotationsSince(hash, s, ops, user)
    decreases |ops|
  {
    if ops != [] {
      RotationCountCounts(hash, s, ops[..|ops| - 1], user);
      StepMovesCount(hash, Run(hash, s, ops[..|ops| - 1]), ops[|ops| - 1], user);
    }
  }
}
