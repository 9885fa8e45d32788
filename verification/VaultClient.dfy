/**
 backend/app/vault_client.py and the registration routes of backend/app/routes/admin.py, writing secrets
 and rows in place. Each method is one step of Credentials.
 */
module VaultClients {
  import opened Options
  import opened Profiles
  import opened Credentials
  import CredentialRuns

  lemma TallyOfOneMore(outcomes: seq<Outcome>, o: Outcome)
    ensures TallyOf(outcomes + [o]) == Count(TallyOf(outcomes), o)
  {
    assert (outcomes + [o])[..|outcomes|] == outcomes;
  }

  method CountOutcome(o: Outcome, c: nat, u: nat, s: nat) returns (created: nat, updated: nat, skipped: nat)
    ensures Tally(created, updated, skipped) == Count(Tally(c, u, s), o)
  {
    created, updated, skipped := c, u, s;
    match o
    case Created => created := created + 1;
    case Updated => updated := updated + 1;
    case Skipped => skipped := skipped + 1;
  }

  class VaultClient {
    const hash: string -> string
    // Vault KV, hpe_users and _user_profiles
    var secrets: map<string, Secret>
    var users: map<string, Account>
    var profiles: seq<Profile>
    // _rotation_count
    var rotationCount: nat

    function View(): Store
      reads this
    {
      Store(secrets, users, profiles)
    }

    constructor (hash: string -> string)
      ensures View() == Store(map[], map[], []) && this.hash == hash && rotationCount == 0
    {
      this.hash, secrets, users, profiles, rotationCount := hash, map[], map[], [], 0;
    }

    /** Seeds secret and row of every profile; returns the three counters of the log line and the
        credentials to be mailed. */
    method InitAllUserSecrets(generated: seq<Generated>)
        returns (created: nat, updated: nat, skipped: nat, mailed: seq<(string, string)>)
      requires |profiles| <= |generated|
      modifies this`secrets, this`users
      ensures created + updated + skipped == |profiles|
      ensures var r := Seed(hash, old(View()), generated, |profiles|);
              View() == r.store && mailed == r.mailed && Tally(created, updated, skipped) == TallyOf(r.outcomes)
    {
      created, updated, skipped, mailed := 0, 0, 0, [];
      ghost var start, done := View(), Seeding(View(), [], []);
      for i := 0 to |profiles|
        invariant done == Seed(hash, start, generated, i)
        invariant View() == done.store && mailed == done.mailed
        invariant Tally(created, updated, skipped) == TallyOf(done.outcomes)
      {
        ghost var before := done;
        var outcome, password;
        outcome, password, done := SeedProfile(profiles[i], generated[i], before);
        mailed := mailed + [(UserOf(profiles[i]), password)];
        TallyOfOneMore(before.outcomes, outcome);
        created, updated, skipped := CountOutcome(outcome, created, updated, skipped);
      }
      CredentialRuns.SeedKeepsProfiles(hash, start, generated, |profiles|);
      CredentialRuns.OutcomesAddUp(done.outcomes);
    }

    method SeedProfile(p: Profile, g: Generated, ghost before: Seeding)
        returns (outcome: Outcome, password: string, ghost done: Seeding)
      requires View() == before.store
      modifies this`secrets, this`users
      ensures done == SeedNext(hash, before, p, g)
      ensures View() == done.store && done.mailed == before.mailed + [(UserOf(p), password)]
      ensures done.outcomes == before.outcomes + [outcome]
    {
      outcome, password := InitUserSecret(p, g);
      done := SeedNext(hash, before, p, g);
    }

    // The body of the loop.
    method InitUserSecret(p: Profile, g: Generated) returns (outcome: Outcome, password: string)
      modifies this`secrets, this`users
      ensures (View(), outcome, password) == SeedOne(hash, old(View()), p, g)
    {
      var user := UserOf(p);
      ghost var before := secrets;
      if user in secrets {
        var existing := secrets[user];
        var hasLoginPassword := existing.loginPassword.Some?;
        if Lacks(existing.loginPassword) {
          existing := existing.(loginPassword := Some(g.password));
        }
        password := existing.loginPassword.value;
        if existing.role == Some(TargetRole(p)) && existing.homeRegion == Some(TargetRegion(p)) && hasLoginPassword {
          outcome := Skipped;
          assert before[user := before[user]] == before;
        } else {
          secrets := secrets[user := existing.(role := Some(TargetRole(p)), homeRegion := Some(TargetRegion(p)))];
          outcome := Updated;
        }
      } else {
        password := g.password;
        secrets := secrets[user := Secret(Some(TargetRole(p)), Some(TargetRegion(p)), Some(password), 0, g.others)];
        outcome := Created;
      }
      users := users[user := Account(Some(hash(password)), DepartmentOf(TargetRole(p)), Active)];
    }

    method ConnectVault(file: seq<Profile>, generated: seq<Generated>)
      requires |file| == |generated|
      modifies this`secrets, this`users, this`profiles
      ensures View() == Step(hash, old(View()), Connect(file, generated))
    {
      profiles := file;
      var created, updated, skipped, mailed := InitAllUserSecrets(generated);
    }

    method RotateCredentials(user: string, g: Generated) returns (number: nat)
      modifies this`secrets, this`users, this`rotationCount
      ensures View() == Step(hash, old(View()), Rotate(user, g))
      ensures rotationCount == old(rotationCount) + 1
      ensures number == secrets[user].rotationCount
    {
      rotationCount := rotationCount + 1;
      var current := if user in secrets then secrets[user].rotationCount else 0;
      var profile := ProfileOf(profiles, user);
      var role := if profile.Some? then OrElse(profile.value.role, "Unknown") else "Unknown";
      var region := if profile.Some? then OrElse(profile.value.homeRegion, "Unknown") else "Unknown";
      secrets := secrets[user := Secret(Some(role), Some(region), Some(g.password), current + 1, g.others)];
      if user in users {
        users := users[user := users[user].(passwordHash := Some(hash(g.password)))];
      }
      number := current + 1;
    }

    method ProvisionApprovedUser(user: string, department: string, g: Generated)
      modifies this`secrets, this`profiles
      ensures View() == Provision(old(View()), user, department, g)
    {
      var (role, region) := PeerTemplate(profiles, department);
      secrets := secrets[user := Secret(Some(role), Some(region), Some(g.password), 0, g.others)];
      profiles := OthersThan(profiles, user);
      profiles := profiles + [Profile(Some(user), Some(role), Some(region))];
    }

    method Register(user: string, department: string) returns (ok: bool)
      modifies this`users
      ensures View() == Step(hash, old(View()), Op.Register(user, department))
      ensures ok == (user !in old(users))
    {
      ok := user !in users;
      if ok {
        users := users[user := Account(None, department, Pending)];
      }
    }

    method ApproveRegistration(user: string, g: Generated) returns (ok: bool)
      modifies this`secrets, this`users, this`profiles
      ensures View() == Step(hash, old(View()), Approve(user, g))
      ensures ok == (user in old(users) && old(users)[user].status == Pending)
    {
      ok := user in users && users[user].status == Pending;
      if !ok {
        return;
      }
      var department := OrEngineering(users[user].department);
      ProvisionApprovedUser(user, department, g);
      users := users[user := users[user].(passwordHash := Some(hash(g.password)), status := Active)];
    }

    method RejectRegistration(user: string)
      modifies this`users
      ensures View() == Step(hash, old(View()), Reject(user))
    {
      if user in users && users[user].status == Pending {
        users := users - {user};
      }
    }
  }
}
