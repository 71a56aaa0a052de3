/** The generated passwords: one seed secret in the cluster, copied into the secrets that use it. */
module SeedSecrets {
  import opened Text

  datatype SeedKey =
    | ElasticPassword | RedisPassword | PgAdminPassword
    | PgAirflowPassword | AirflowAdminPassword | AirflowWebserverKey

  const SEED_KEYS: seq<SeedKey> :=
    [ElasticPassword, RedisPassword, PgAdminPassword, PgAirflowPassword, AirflowAdminPassword, AirflowWebserverKey]

  type Seed = map<SeedKey, string>

  /** The secrets made from the seed, in the order they are applied; the last two are in the osdu namespace. */
  datatype SecretName =
    | PostgresSuperuser | PostgresAirflow | ElasticUser | RedisCredentials
    | AirflowMetadata | AirflowWebserver | IndexerElastic | SearchElastic

  const SECRET_NAMES: seq<SecretName> :=
    [PostgresSuperuser, PostgresAirflow, ElasticUser, RedisCredentials,
     AirflowMetadata, AirflowWebserver, IndexerElastic, SearchElastic]

  predicate HasAll(seed: Seed) {
    forall k: SeedKey :: k in seed
  }

  function Content(name: SecretName, seed: Seed): map<string, string>
    requires HasAll(seed)
  {
    match name
    case PostgresSuperuser => map["username" := "postgres", "password" := seed[PgAdminPassword]]
    case PostgresAirflow => map["username" := "airflow", "password" := seed[PgAirflowPassword]]
    case ElasticUser => map["elastic" := seed[ElasticPassword]]
    case RedisCredentials => map["password" := seed[RedisPassword]]
    case AirflowMetadata =>
      map["connection" := "postgresql://airflow:" + seed[PgAirflowPassword]
                          + "@postgresql-rw.platform.svc.cluster.local:5432/airflow"]
    case AirflowWebserver =>
      map["password" := seed[AirflowAdminPassword], "webserver-secret-key" := seed[AirflowWebserverKey]]
    case IndexerElastic => map["ELASTIC_USER_SYSTEM" := "elastic", "ELASTIC_PASS_SYSTEM" := seed[ElasticPassword]]
    case SearchElastic => map["ELASTIC_USER_SYSTEM" := "elastic", "ELASTIC_PASS_SYSTEM" := seed[ElasticPassword]]
  }

  type Secrets = map<SecretName, map<string, string>>

  /** `seed` is None when the seed secret does not exist. */
  datatype Store = Store(seed: Option<Seed>, secrets: Secrets)

  /** What a read gives: a failing read, a missing secret and an empty one look alike. */
  function ReadSeed(seed: Option<Seed>, answered: bool): Option<Seed> {
    if answered && seed.Some? && seed.value != map[] then seed else None
  }

  /** The seed with its missing keys generated. */
  function Filled(seed: Seed, minted: Seed, n: nat): Seed
    requires n <= |SEED_KEYS| && HasAll(minted)
  {
    if n == 0 then seed
    else
      var before := Filled(seed, minted, n - 1);
      if SEED_KEYS[n - 1] in before then before else before[SEED_KEYS[n - 1] := minted[SEED_KEYS[n - 1]]]
  }

  function Current(seed: Option<Seed>, minted: Seed, answered: bool): Seed
    requires HasAll(minted)
  {
    var existing := ReadSeed(seed, answered);
    Filled(if existing.Some? then existing.value else map[], minted, |SEED_KEYS|)
  }

  /** Complete seeds are reused without a write; any other is written back. */
  predicate NeedsWrite(seed: Option<Seed>, answered: bool) {
    var existing := ReadSeed(seed, answered);
    existing.None? || !HasAll(existing.value)
  }

  lemma {:induction false} FilledShape(seed: Seed, minted: Seed, n: nat)
    requires n <= |SEED_KEYS| && HasAll(minted)
    ensures forall k :: k in seed ==> k in Filled(seed, minted, n) && Filled(seed, minted, n)[k] == seed[k]
    ensures forall k :: k in Filled(seed, minted, n) && k !in seed ==> Filled(seed, minted, n)[k] == minted[k]
    ensures forall i :: 0 <= i < n ==> SEED_KEYS[i] in Filled(seed, minted, n)
  {
    if n > 0 {
      FilledShape(seed, minted, n - 1);
    }
  }

  lemma FilledIsComplete(seed: Seed, minted: Seed)
    requires HasAll(minted)
    ensures HasAll(Filled(seed, minted, |SEED_KEYS|))
    ensures HasAll(seed) ==> Filled(seed, minted, |SEED_KEYS|) == seed
  {
    var full := Filled(seed, minted, |SEED_KEYS|);
    FilledShape(seed, minted, |SEED_KEYS|);
    forall k: SeedKey ensures k in full {
      var i := match k
        case ElasticPassword => 0
        case RedisPassword => 1
        case PgAdminPassword => 2
        case PgAirflowPassword => 3
        case AirflowAdminPassword => 4
        case AirflowWebserverKey => 5;
      assert SEED_KEYS[i] == k;
    }
  }

  /** The first `n` of the named secrets, applied over those that are there. */
  function WithNames(secrets: Secrets, names: seq<SecretName>, seed: Seed, n: nat): Secrets
    requires n <= |names| && HasAll(seed)
  {
    if n == 0 then secrets else WithNames(secrets, names, seed, n - 1)[names[n - 1] := Content(names[n - 1], seed)]
  }

  function WithSecrets(secrets: Secrets, seed: Seed, n: nat): Secrets
    requires n <= |SECRET_NAMES| && HasAll(seed)
  {
    WithNames(secrets, SECRET_NAMES, seed, n)
  }

  /** One use of the seed: `ensure` also applies the secrets, otherwise it is only read or created. */
  datatype Use = Use(ensure: bool, minted: Seed, answered: bool, writes: nat)

  function After(s: Store, u: Use): Store
    requires HasAll(u.minted)
  {
    var current := Current(s.seed, u.minted, u.answered);
    FilledIsComplete(Found(s, u), u.minted);
    var need := if NeedsWrite(s.seed, u.answered) then 1 else 0;
    if u.writes < need then s
    else
      var seeded := if need == 1 then s.(seed := Some(current)) else s;
      var left := u.writes - need;
      if u.ensure then
        seeded.(secrets := WithSecrets(s.secrets, current, if left < |SECRET_NAMES| then left else |SECRET_NAMES|))
      else seeded
  }

  predicate Completes(s: Store, u: Use) {
    u.writes >= (if NeedsWrite(s.seed, u.answered) then 1 else 0) + (if u.ensure then |SECRET_NAMES| else 0)
  }

  class ClusterSecrets {
    var seed: Option<Seed>
    var secrets: Secrets

    function State(): Store
      reads this
    {
      Store(seed, secrets)
    }

    constructor ()
      ensures State() == Store(None, map[])
    {
      seed, secrets := None, map[];
    }

    method GetOrCreateSeed(minted: Seed, answered: bool, writes: nat) returns (ok: bool, current: Seed, left: nat)
      requires HasAll(minted)
      modifies this
      ensures State() == After(old(State()), Use(false, minted, answered, writes))
      ensures ok <==> Completes(old(State()), Use(false, minted, answered, writes))
      ensures ok ==> current == Current(old(seed), minted, answered) && HasAll(current)
      ensures ok ==> left == writes - (if NeedsWrite(old(seed), answered) then 1 else 0)
    {
      var existing := ReadSeed(seed, answered);
      ok, current, left := true, map[], writes;
      if existing.Some? && HasAll(existing.value) {
        FilledIsComplete(existing.value, minted);
        current := existing.value;
        return;
      }
      ghost var start: Seed := if existing.Some? then existing.value else map[];
      if existing.Some? {
        current := existing.value;
      }
      for n := 0 to |SEED_KEYS|
        invariant current == Filled(start, minted, n)
      {
        if SEED_KEYS[n] !in current {
          current := current[SEED_KEYS[n] := minted[SEED_KEYS[n]]];
        }
      }
      FilledIsComplete(start, minted);
      if left == 0 {
        ok := false;
        return;
      }
      seed, left := Some(current), left - 1;
    }

    method EnsureSecrets(minted: Seed, answered: bool, writes: nat) returns (ok: bool)
      requires HasAll(minted)
      modifies this
      ensures State() == After(old(State()), Use(true, minted, answered, writes))
      ensures ok <==> Completes(old(State()), Use(true, minted, answered, writes))
    {
      var current, left;
      ok, current, left := GetOrCreateSeed(minted, answered, writes);
      if ok {
        ok := ApplySecrets(SECRET_NAMES, current, left);
      }
    }

    method ApplySecrets(names: seq<SecretName>, current: Seed, left: nat) returns (ok: bool)
      requires HasAll(current)
      modifies this`secrets
      ensures ok <==> left >= |names|
      ensures secrets == WithNames(old(secrets), names, current, if left < |names| then left else |names|)
    {
      var n := 0;
      while n < |names| && n < left
        invariant n <= |names| && n <= left
        invariant secrets == WithNames(old(secrets), names, current, n)
      {
        secrets := secrets[names[n] := Content(names[n], current)];
        n := n + 1;
      }
      ok := n == |names|;
    }
  }

  // ---- what answered reads keep ----

  /** Every secret in the cluster was made from the seed that is there. */
  ghost predicate Agrees(s: Store) {
    forall name :: name in s.secrets ==>
      s.seed.Some? && HasAll(s.seed.value) && s.secrets[name] == Content(name, s.seed.value)
  }

  /** All secrets are there, with the seed's passwords. */
  ghost predicate MadeFrom(secrets: Secrets, seed: Seed)
    requires HasAll(seed)
  {
    forall name: SecretName :: name in secrets && secrets[name] == Content(name, seed)
  }

  /** No key of the seed is lost or changed. */
  ghost predicate Extends(s: Store, t: Store) {
    s.seed.Some? ==>
      t.seed.Some? && forall k :: k in s.seed.value ==> k in t.seed.value && t.seed.value[k] == s.seed.value[k]
  }

  /** The seed a use starts filling from. */
  function Found(s: Store, u: Use): Seed {
    var existing := ReadSeed(s.seed, u.answered);
    if existing.Some? then existing.value else map[]
  }

  lemma {:induction false} WithSecretsAgree(secrets: Secrets, seed: Seed, n: nat,
                                            name: SecretName)
    requires n <= |SECRET_NAMES| && HasAll(seed)
    requires name in secrets ==> secrets[name] == Content(name, seed)
    ensures name in WithSecrets(secrets, seed, n) ==> WithSecrets(secrets, seed, n)[name] == Content(name, seed)
  {
    if n > 0 {
      WithSecretsAgree(secrets, seed, n - 1, name);
    }
  }

  lemma {:induction false} WrittenSecret(secrets: Secrets, seed: Seed, n: nat, i: nat)
    requires i < n <= |SECRET_NAMES| && HasAll(seed)
    ensures var made := WithSecrets(secrets, seed, n);
      SECRET_NAMES[i] in made && made[SECRET_NAMES[i]] == Content(SECRET_NAMES[i], seed)
  {
    if i < n - 1 {
      WrittenSecret(secrets, seed, n - 1, i);
    }
  }

  function NameIndex(name: SecretName): (i: nat)
    ensures i < |SECRET_NAMES| && SECRET_NAMES[i] == name
  {
    match name
    case PostgresSuperuser => 0
    case PostgresAirflow => 1
    case ElasticUser => 2
    case RedisCredentials => 3
    case AirflowMetadata => 4
    case AirflowWebserver => 5
    case IndexerElastic => 6
    case SearchElastic => 7
  }

  /** Applying all secrets leaves every one of them with the seed's passwords, whatever was there. */
  lemma AllSecretsMade(secrets: Secrets, seed: Seed)
    requires HasAll(seed)
    ensures MadeFrom(WithSecrets(secrets, seed, |SECRET_NAMES|), seed)
  {
    forall name: SecretName
      ensures name in WithSecrets(secrets, seed, |SECRET_NAMES|)
      ensures WithSecrets(secrets, seed, |SECRET_NAMES|)[name] == Content(name, seed)
    {
      WrittenSecret(secrets, seed, |SECRET_NAMES|, NameIndex(name));
    }
  }

  /** With an answered read the seed only grows, wherever the use stops. */
  lemma AnsweredReadExtends(s: Store, u: Use)
    requires HasAll(u.minted) && u.answered
    ensures Extends(s, After(s, u))
  {
    FilledShape(Found(s, u), u.minted, |SEED_KEYS|);
    FilledIsComplete(Found(s, u), u.minted);
  }

  lemma AnsweredReadKeepsAgreement(s: Store, u: Use)
    requires Agrees(s) && HasAll(u.minted) && u.answered
    ensures Agrees(After(s, u))
  {
    var current, after := Current(s.seed, u.minted, true), After(s, u);
    FilledIsComplete(Found(s, u), u.minted);
    if s.secrets != map[] {
      SeedBehindSecrets(s);
      assert Found(s, u) == s.seed.value && current == s.seed.value;
    }
    if after.secrets != s.secrets {
      var left := u.writes - if NeedsWrite(s.seed, true) then 1 else 0;
      forall name | name in after.secrets ensures after.secrets[name] == Content(name, current) {
        WithSecretsAgree(s.secrets, current, if left < |SECRET_NAMES| then left else |SECRET_NAMES|, name);
      }
    }
  }

  lemma SeedBehindSecrets(s: Store)
    requires Agrees(s) && s.secrets != map[]
    ensures s.seed.Some? && HasAll(s.seed.value) && s.seed.value != map[]
  {
    var name :| name in s.secrets;
    assert ElasticPassword in s.seed.value;
  }

  function History(s: Store, uses: seq<Use>): Store
    requires forall u :: u in uses ==> HasAll(u.minted)
  {
    if uses == [] then s else After(History(s, uses[..|uses| - 1]), uses[|uses| - 1])
  }

  /**
   Over any runs, cut off anywhere, whose seed reads are answered: no existing seed key ever
   changes, and derived secrets that hold the passwords of the seed go on doing so.
   */
  lemma {:induction false} SeedNeverChanges(s: Store, uses: seq<Use>)
    requires forall u :: u in uses ==> HasAll(u.minted) && u.answered
    ensures Extends(s, History(s, uses))
    ensures Agrees(s) ==> Agrees(History(s, uses))
  {
    if uses != [] {
      var before, last := History(s, uses[..|uses| - 1]), uses[|uses| - 1];
      SeedNeverChanges(s, uses[..|uses| - 1]);
      AnsweredReadExtends(before, last);
      if Agrees(s) {
        AnsweredReadKeepsAgreement(before, last);
      }
    }
  }

  /** A completed `ensure` brings seed and secrets together, also after failed reads, its own included. */
  lemma CompletedEnsure(s: Store, u: Use)
    requires HasAll(u.minted) && u.ensure && Completes(s, u)
    ensures var made := After(s, u);
      && Agrees(made) && made.seed.Some? && HasAll(made.seed.value)
      && MadeFrom(made.secrets, made.seed.value)
  {
    FilledIsComplete(Found(s, u), u.minted);
    AllSecretsMade(s.secrets, Current(s.seed, u.minted, u.answered));
  }

  /** The password, or other text, a secret holds under one of its keys. */
  ghost predicate Carries(s: Store, name: SecretName, key: string, value: string) {
    name in s.secrets && key in s.secrets[name] && s.secrets[name][key] == value
  }

  /** The databases: the superuser, and one user for Airflow, which its connection logs in as. */
  lemma DatabaseSecrets(s: Store, u: Use)
    requires HasAll(u.minted) && u.ensure && Completes(s, u)
    ensures var made := After(s, u);
      && made.seed.Some? && HasAll(made.seed.value)
      && Carries(made, PostgresSuperuser, "username", "postgres")
      && Carries(made, PostgresSuperuser, "password", made.seed.value[PgAdminPassword])
      && Carries(made, PostgresAirflow, "username", "airflow")
      && Carries(made, PostgresAirflow, "password", made.seed.value[PgAirflowPassword])
      && Carries(made, AirflowMetadata, "connection",
                 "postgresql://airflow:" + made.secrets[PostgresAirflow]["password"]
                 + "@postgresql-rw.platform.svc.cluster.local:5432/airflow")
  {
    CompletedEnsure(s, u);
    var made := After(s, u);
    assert made.secrets[PostgresSuperuser] == Content(PostgresSuperuser, made.seed.value);
    assert made.secrets[PostgresAirflow] == Content(PostgresAirflow, made.seed.value);
    assert made.secrets[AirflowMetadata] == Content(AirflowMetadata, made.seed.value);
    assert "username"[0] != "password"[0];
  }

  /** The rest: Airflow's own, Redis, and one search password for the server and both its clients. */
  lemma ServiceSecrets(s: Store, u: Use)
    requires HasAll(u.minted) && u.ensure && Completes(s, u)
    ensures var made := After(s, u);
      && made.seed.Some? && HasAll(made.seed.value)
      && Carries(made, AirflowWebserver, "password", made.seed.value[AirflowAdminPassword])
      && Carries(made, AirflowWebserver, "webserver-secret-key", made.seed.value[AirflowWebserverKey])
      && Carries(made, RedisCredentials, "password", made.seed.value[RedisPassword])
      && Carries(made, ElasticUser, "elastic", made.seed.value[ElasticPassword])
      && Carries(made, IndexerElastic, "ELASTIC_USER_SYSTEM", "elastic")
      && Carries(made, IndexerElastic, "ELASTIC_PASS_SYSTEM", made.seed.value[ElasticPassword])
      && Carries(made, SearchElastic, "ELASTIC_USER_SYSTEM", "elastic")
      && Carries(made, SearchElastic, "ELASTIC_PASS_SYSTEM", made.seed.value[ElasticPassword])
  {
    CompletedEnsure(s, u);
    var made := After(s, u);
    ContentCarries(made, made.seed.value);
  }

  lemma ContentCarries(s: Store, seed: Seed)
    requires HasAll(seed) && MadeFrom(s.secrets, seed)
    ensures Carries(s, AirflowWebserver, "password", seed[AirflowAdminPassword])
    ensures Carries(s, AirflowWebserver, "webserver-secret-key", seed[AirflowWebserverKey])
    ensures Carries(s, RedisCredentials, "password", seed[RedisPassword])
    ensures Carries(s, ElasticUser, "elastic", seed[ElasticPassword])
    ensures Carries(s, IndexerElastic, "ELASTIC_USER_SYSTEM", "elastic")
    ensures Carries(s, IndexerElastic, "ELASTIC_PASS_SYSTEM", seed[ElasticPassword])
    ensures Carries(s, SearchElastic, "ELASTIC_USER_SYSTEM", "elastic")
    ensures Carries(s, SearchElastic, "ELASTIC_PASS_SYSTEM", seed[ElasticPassword])
  {
    assert s.secrets[AirflowWebserver] == Content(AirflowWebserver, seed);
    assert s.secrets[RedisCredentials] == Content(RedisCredentials, seed);
    assert s.secrets[ElasticUser] == Content(ElasticUser, seed);
    assert s.secrets[IndexerElastic] == Content(IndexerElastic, seed);
    assert s.secrets[SearchElastic] == Content(SearchElastic, seed);
    assert "ELASTIC_USER_SYSTEM"[8] != "ELASTIC_PASS_SYSTEM"[8] && "password"[0] != "webserver-secret-key"[0];
  }

  /**
   A deployment reads the seed twice: once to make the secrets and once for the Key Vault.
   When the second read is answered it writes nothing, and the passwords it hands to the
   vault are those in the secrets, whatever was in the cluster before.
   */
  lemma VaultGetsTheSamePasswords(s: Store, first: Use, second: Use)
    requires HasAll(first.minted) && HasAll(second.minted)
    requires first.ensure && Completes(s, first)
    requires !second.ensure && second.answered
    ensures var made := After(s, first);
      && Completes(made, second) && After(made, second) == made
      && made.seed == Some(Current(made.seed, second.minted, true))
      && HasAll(made.seed.value)
      && MadeFrom(made.secrets, made.seed.value)
  {
    CompletedEnsure(s, first);
    var made := After(s, first);
    assert ElasticPassword in made.seed.value;
    FilledIsComplete(made.seed.value, second.minted);
  }

  /**
   A use that gets to write, of a seed with a key that a fresh one would not repeat, keeps
   the seed exactly when its read is answered.
   */
  lemma SeedIsKeptExactly(s: Store, u: Use, key: SeedKey)
    requires s.seed.Some? && key in s.seed.value && HasAll(u.minted) && u.minted[key] != s.seed.value[key]
    requires u.writes > 0
    ensures Extends(s, After(s, u)) <==> u.answered
  {
    if u.answered {
      AnsweredReadExtends(s, u);
    } else {
      FilledShape(map[], u.minted, |SEED_KEYS|);
      FilledIsComplete(map[], u.minted);
      assert After(s, u).seed.value[key] == u.minted[key];
    }
  }
}
