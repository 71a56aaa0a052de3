/** Writing the bootstrap secrets to the Key Vault, with a clock-bounded retry before the first success. */
module KeyVault {
  import opened Text

  const RETRY_WINDOW: nat := 300
  const RETRY_SLEEP: nat := 30

  datatype Pair = Pair(name: string, value: string)

  datatype Reply = Accepted | ForbiddenByRbac | OtherError

  type Part = k: nat | k < 3

  function PartEnding(k: Part): string {
    if k == 0 then "-elastic-endpoint" else if k == 1 then "-elastic-username" else "-elastic-password"
  }

  function PartValue(k: Part, elastic: string): string {
    if k == 0 then "https://elasticsearch-es-http.platform.svc:9200" else if k == 1 then "elastic" else elastic
  }

  function FixedName(k: Part): string {
    if k == 0 then "tbl-storage-endpoint" else if k == 1 then "redis-hostname" else "redis-password"
  }

  function FixedSecrets(storage: string, redis: string): seq<Pair> {
    [Pair("tbl-storage-endpoint", "https://" + storage + ".table.core.windows.net/"),
     Pair("redis-hostname", "platform-redis-master.platform.svc.cluster.local"),
     Pair("redis-password", redis)]
  }

  function PartitionSecrets(partition: string, elastic: string): seq<Pair> {
    [Pair(partition + "-elastic-endpoint", PartValue(0, elastic)),
     Pair(partition + "-elastic-username", PartValue(1, elastic)),
     Pair(partition + "-elastic-password", PartValue(2, elastic))]
  }

  /** The list in writing order: three fixed secrets, then three for each partition. */
  function SecretList(partitions: seq<string>, storage: string, elastic: string, redis: string): (r: seq<Pair>)
    ensures |r| == 3 + 3 * |partitions|
  {
    if partitions == [] then FixedSecrets(storage, redis)
    else
      SecretList(partitions[..|partitions| - 1], storage, elastic, redis)
      + PartitionSecrets(partitions[|partitions| - 1], elastic)
  }

  type Secrets = map<string, string>

  function Written(vault: Secrets, pairs: seq<Pair>, n: nat): Secrets
    requires n <= |pairs|
  {
    if n == 0 then vault else Written(vault, pairs, n - 1)[pairs[n - 1].name := pairs[n - 1].value]
  }

  class Vault {
    var secrets: Secrets

    constructor ()
      ensures secrets == map[]
    {
      secrets := map[];
    }

    /** One secret: `made` attempts came before, and only the first secret is retried. */
    method Attempt(made: nat, first: bool, start: nat, replies: nat -> Reply, latency: nat -> nat)
      returns (ok: bool, now: nat, retries: nat)
      requires first ==> made == 0 && start == 0
      ensures ok <==> replies(made + retries) == Accepted
      ensures forall i :: made <= i < made + retries ==> replies(i) == ForbiddenByRbac
      ensures retries <= (if first then 10 else 0)
      ensures !ok && replies(made + retries) == ForbiddenByRbac && first ==>
        Elapsed(latency, retries + 1) + RETRY_SLEEP * retries >= RETRY_WINDOW
    {
      var deadline := RETRY_WINDOW;
      retries, now := 0, start + latency(made);
      var reply := replies(made);
      while reply != Accepted
        invariant reply == replies(made + retries)
        invariant forall i :: made <= i < made + retries ==> replies(i) == ForbiddenByRbac
        invariant retries <= (if first then 10 else 0)
        invariant first ==> now == Elapsed(latency, retries + 1) + RETRY_SLEEP * retries
        decreases 10 - retries
      {
        if reply != ForbiddenByRbac || !first || now >= deadline {
          ok := false;
          return;
        }
        now, retries := now + RETRY_SLEEP, retries + 1;
        reply := replies(made + retries);
        now := now + latency(made + retries);
      }
      ok := true;
    }

    /**
     `replies(i)` answers the i-th attempt and `latency(i)` is the time it takes. The vault always
     holds a prefix of the list. Only a refusal by RBAC before the first success is retried, and
     only inside the window; so at most ten attempts are wasted.
     */
    method WriteAll(pairs: seq<Pair>, replies: nat -> Reply, latency: nat -> nat)
      returns (ok: bool, written: nat, wasted: nat)
      requires pairs != []
      modifies this
      ensures written <= |pairs| && (ok <==> written == |pairs|)
      ensures secrets == Written(old(secrets), pairs, written)
      ensures wasted <= 10
      ensures forall i :: 0 <= i < wasted ==> replies(i) == ForbiddenByRbac
      ensures forall i :: wasted <= i < wasted + written ==> replies(i) == Accepted
      ensures !ok ==> Refused(replies, latency, wasted, written)
    {
      var now, i, first := 0, 0, true;
      ok, written, wasted := true, 0, 0;
      while i < |pairs|
        invariant i == written <= |pairs|
        invariant secrets == Written(old(secrets), pairs, written)
        invariant first <==> written == 0
        invariant first ==> wasted == 0 && now == 0
        invariant wasted <= 10
        invariant forall j :: 0 <= j < wasted ==> replies(j) == ForbiddenByRbac
        invariant forall j :: wasted <= j < wasted + written ==> replies(j) == Accepted
      {
        var retries;
        ok, now, retries := Attempt(wasted + written, first, now, replies, latency);
        wasted := wasted + retries;
        if !ok {
          return;
        }
        secrets := secrets[pairs[i].name := pairs[i].value];
        first, written, i := false, written + 1, i + 1;
      }
      ok := true;
    }

    /** On success the whole list is there, after at most 3n + 13 attempts. */
    method WriteBootstrapSecrets(partitions: seq<string>, storage: string, elastic: string, redis: string,
                                 replies: nat -> Reply, latency: nat -> nat)
      returns (ok: bool, written: nat, attempts: nat)
      modifies this
      ensures var pairs := SecretList(partitions, storage, elastic, redis);
        && written <= |pairs| && (ok <==> written == |pairs|)
        && secrets == Written(old(secrets), pairs, written)
      ensures written <= attempts <= 3 * |partitions| + 13
      ensures !ok ==> attempts > written && Refused(replies, latency, attempts - 1 - written, written)
    {
      var wasted;
      ok, written, wasted := WriteAll(SecretList(partitions, storage, elastic, redis), replies, latency);
      attempts := wasted + written + (if ok then 0 else 1);
    }
  }

  /** Why the write after `wasted` retries and `written` successes gave up. */
  predicate Refused(replies: nat -> Reply, latency: nat -> nat, wasted: nat, written: nat) {
    replies(wasted + written) == OtherError
    || (replies(wasted + written) == ForbiddenByRbac
        && (written > 0 || Elapsed(latency, wasted + 1) + RETRY_SLEEP * wasted >= RETRY_WINDOW))
  }

  /** The time the first `n` attempts took. */
  function Elapsed(latency: nat -> nat, n: nat): nat {
    if n == 0 then 0 else Elapsed(latency, n - 1) + latency(n - 1)
  }

  // ---- the names ----

  lemma PartEndingsAreSuffixFree(i: Part, j: Part)
    requires i != j
    ensures !EndsWith(PartEnding(i), PartEnding(j))
  {
    var a, b := PartEnding(i), PartEnding(j);
    NotSuffix(a, b, if a[|a| - 1] != b[|b| - 1] then 1 else 2);
  }

  lemma PartNameIsInjective(p: string, i: Part, q: string, j: Part)
    requires p + PartEnding(i) == q + PartEnding(j)
    ensures p == q && i == j
  {
    if i != j {
      PartEndingsAreSuffixFree(i, j);
      PartEndingsAreSuffixFree(j, i);
      DifferentEndings(p, PartEnding(i), q, PartEnding(j));
    }
    SameEnding(p, q, PartEnding(i));
  }

  lemma FixedNameIsNoPart(i: Part, p: string, j: Part)
    ensures FixedName(i) != p + PartEnding(j)
  {
    if i == 0 {
      ConcatEndsWith(p, PartEnding(j));
      EndpointIsNoPart(j);
    } else {
      RedisNamesAreShort(i, j);
    }
  }

  lemma EndpointIsNoPart(j: Part)
    ensures !EndsWith(FixedName(0), PartEnding(j))
  {
    NotSuffix(FixedName(0), PartEnding(j), if j == 0 then 10 else 1);
  }

  lemma RedisNamesAreShort(i: Part, j: Part)
    requires i > 0
    ensures |FixedName(i)| < |PartEnding(j)|
  {}

  function NameAt(partitions: seq<string>, i: nat): string
    requires i < 3 + 3 * |partitions|
  {
    if i < 3 then FixedName(i) else partitions[(i - 3) / 3] + PartEnding((i - 3) % 3)
  }

  lemma {:induction false} ListNames(partitions: seq<string>, storage: string, elastic: string, redis: string, i: nat)
    requires i < 3 + 3 * |partitions|
    ensures SecretList(partitions, storage, elastic, redis)[i].name == NameAt(partitions, i)
  {
    if partitions != [] {
      var front := partitions[..|partitions| - 1];
      if i < 3 + 3 * |front| {
        ListNames(front, storage, elastic, redis, i);
        assert i >= 3 ==> front[(i - 3) / 3] == partitions[(i - 3) / 3];
      } else {
        assert (i - 3) / 3 == |front|;
        assert SecretList(partitions, storage, elastic, redis)[i]
            == PartitionSecrets(partitions[|front|], elastic)[(i - 3) % 3];
      }
    }
  }

  lemma FixedNamesAreDistinct(i: Part, j: Part)
    requires i < j
    ensures FixedName(i) != FixedName(j)
  {
    assert FixedName(0)[0] != FixedName(j)[0];
    assert FixedName(1)[6] != FixedName(2)[6];
  }

  lemma PartNamesAreDistinct(partitions: seq<string>, i: nat, j: nat)
    requires forall a, b :: 0 <= a < b < |partitions| ==> partitions[a] != partitions[b]
    requires i < j < 3 * |partitions|
    ensures partitions[i / 3] + PartEnding(i % 3) != partitions[j / 3] + PartEnding(j % 3)
  {
    assert i / 3 < j / 3 || (i / 3 == j / 3 && i % 3 < j % 3);
    if partitions[i / 3] + PartEnding(i % 3) == partitions[j / 3] + PartEnding(j % 3) {
      PartNameIsInjective(partitions[i / 3], i % 3, partitions[j / 3], j % 3);
    }
  }

  lemma NamesAreDistinct(partitions: seq<string>, i: nat, j: nat)
    requires forall a, b :: 0 <= a < b < |partitions| ==> partitions[a] != partitions[b]
    requires i < j < 3 + 3 * |partitions|
    ensures NameAt(partitions, i) != NameAt(partitions, j)
  {
    if j < 3 {
      FixedNamesAreDistinct(i, j);
    } else if i < 3 {
      FixedNameIsNoPart(i, partitions[(j - 3) / 3], (j - 3) % 3);
    } else {
      PartNamesAreDistinct(partitions, i - 3, j - 3);
    }
  }

  /** For distinct partitions no secret of the list overwrites another. */
  lemma SecretNamesAreDistinct(partitions: seq<string>, storage: string, elastic: string, redis: string,
                               i: nat, j: nat)
    requires forall a, b :: 0 <= a < b < |partitions| ==> partitions[a] != partitions[b]
    requires i < j < 3 + 3 * |partitions|
    ensures var pairs := SecretList(partitions, storage, elastic, redis); pairs[i].name != pairs[j].name
  {
    ListNames(partitions, storage, elastic, redis, i);
    ListNames(partitions, storage, elastic, redis, j);
    NamesAreDistinct(partitions, i, j);
  }

  /** After `n` writes every one of the first `n` secrets holds its own value. */
  lemma {:induction false} WrittenHolds(vault: Secrets, partitions: seq<string>, storage: string,
                                        elastic: string, redis: string, n: nat, i: nat)
    requires forall a, b :: 0 <= a < b < |partitions| ==> partitions[a] != partitions[b]
    requires i < n <= 3 + 3 * |partitions|
    ensures var pairs := SecretList(partitions, storage, elastic, redis);
      && pairs[i].name in Written(vault, pairs, n)
      && Written(vault, pairs, n)[pairs[i].name] == pairs[i].value
  {
    if i < n - 1 {
      WrittenHolds(vault, partitions, storage, elastic, redis, n - 1, i);
      SecretNamesAreDistinct(partitions, storage, elastic, redis, i, n - 1);
    }
  }

  lemma PartitionPart(partition: string, elastic: string, j: Part)
    ensures PartitionSecrets(partition, elastic)[j] == Pair(partition + PartEnding(j), PartValue(j, elastic))
  {}

  lemma LastPart(partitions: seq<string>, storage: string, elastic: string, redis: string, j: Part)
    requires partitions != []
    ensures var pairs, n := SecretList(partitions, storage, elastic, redis), |partitions| - 1;
      pairs[3 + 3 * n + j] == PartitionSecrets(partitions[n], elastic)[j]
  {}

  lemma FrontPart(partitions: seq<string>, storage: string, elastic: string, redis: string, i: nat)
    requires partitions != [] && i < 3 * |partitions|
    ensures SecretList(partitions, storage, elastic, redis)[i]
         == SecretList(partitions[..|partitions| - 1], storage, elastic, redis)[i]
  {}

  ghost predicate HasPart(partitions: seq<string>, storage: string, elastic: string, redis: string,
                          i: nat, partition: string, j: Part)
  {
    && i < 3 + 3 * |partitions|
    && SecretList(partitions, storage, elastic, redis)[i] == Pair(partition + PartEnding(j), PartValue(j, elastic))
  }

  lemma FrontHasPart(partitions: seq<string>, storage: string, elastic: string, redis: string,
                     i: nat, partition: string, j: Part)
    requires partitions != [] && HasPart(partitions[..|partitions| - 1], storage, elastic, redis, i, partition, j)
    ensures HasPart(partitions, storage, elastic, redis, i, partition, j)
  {
    FrontPart(partitions, storage, elastic, redis, i);
  }

  lemma LastHasPart(partitions: seq<string>, storage: string, elastic: string, redis: string, j: Part)
    requires partitions != []
    ensures var n := |partitions| - 1; HasPart(partitions, storage, elastic, redis, 3 + 3 * n + j, partitions[n], j)
  {
    LastPart(partitions, storage, elastic, redis, j);
    PartitionPart(partitions[|partitions| - 1], elastic, j);
  }

  lemma {:induction false} PartAt(partitions: seq<string>, storage: string, elastic: string, redis: string,
                                  k: nat, j: Part)
    requires k < |partitions|
    ensures HasPart(partitions, storage, elastic, redis, 3 + 3 * k + j, partitions[k], j)
  {
    var n := |partitions| - 1;
    if k < n {
      PartAt(partitions[..n], storage, elastic, redis, k, j);
      FrontHasPart(partitions, storage, elastic, redis, 3 + 3 * k + j, partitions[k], j);
    } else {
      LastHasPart(partitions, storage, elastic, redis, j);
    }
  }

  lemma {:induction false} FixedAt(partitions: seq<string>, storage: string, elastic: string, redis: string, i: Part)
    ensures SecretList(partitions, storage, elastic, redis)[i] == FixedSecrets(storage, redis)[i]
  {
    if partitions != [] {
      FixedAt(partitions[..|partitions| - 1], storage, elastic, redis, i);
    }
  }

  ghost predicate Holds(vault: Secrets, name: string, value: string) {
    name in vault && vault[name] == value
  }

  /** A complete write leaves storage endpoint, redis host and redis password under their names. */
  lemma VaultHoldsFixed(vault: Secrets, partitions: seq<string>, storage: string, elastic: string, redis: string)
    requires forall a, b :: 0 <= a < b < |partitions| ==> partitions[a] != partitions[b]
    ensures var done := Written(vault, SecretList(partitions, storage, elastic, redis), 3 + 3 * |partitions|);
      && Holds(done, "tbl-storage-endpoint", "https://" + storage + ".table.core.windows.net/")
      && Holds(done, "redis-hostname", "platform-redis-master.platform.svc.cluster.local")
      && Holds(done, "redis-password", redis)
  {
    HoldsFixed(vault, partitions, storage, elastic, redis, 0);
    HoldsFixed(vault, partitions, storage, elastic, redis, 1);
    HoldsFixed(vault, partitions, storage, elastic, redis, 2);
  }

  lemma HoldsFixed(vault: Secrets, partitions: seq<string>, storage: string, elastic: string, redis: string, i: Part)
    requires forall a, b :: 0 <= a < b < |partitions| ==> partitions[a] != partitions[b]
    ensures var pair := FixedSecrets(storage, redis)[i];
      Holds(Written(vault, SecretList(partitions, storage, elastic, redis), 3 + 3 * |partitions|),
            pair.name, pair.value)
  {
    FixedAt(partitions, storage, elastic, redis, i);
    WrittenHolds(vault, partitions, storage, elastic, redis, 3 + 3 * |partitions|, i);
  }

  lemma HoldsPart(vault: Secrets, partitions: seq<string>, storage: string, elastic: string, redis: string,
                  k: nat, j: Part)
    requires forall a, b :: 0 <= a < b < |partitions| ==> partitions[a] != partitions[b]
    requires k < |partitions|
    ensures Holds(Written(vault, SecretList(partitions, storage, elastic, redis), 3 + 3 * |partitions|),
                  partitions[k] + PartEnding(j), PartValue(j, elastic))
  {
    PartAt(partitions, storage, elastic, redis, k, j);
    WrittenHolds(vault, partitions, storage, elastic, redis, 3 + 3 * |partitions|, 3 + 3 * k + j);
  }

  /** And every partition's search endpoint, user and password under the partition's names. */
  lemma VaultHoldsParts(vault: Secrets, partitions: seq<string>, storage: string, elastic: string, redis: string,
                        p: string)
    requires forall a, b :: 0 <= a < b < |partitions| ==> partitions[a] != partitions[b]
    requires p in partitions
    ensures var done := Written(vault, SecretList(partitions, storage, elastic, redis), 3 + 3 * |partitions|);
      && Holds(done, p + "-elastic-endpoint", "https://elasticsearch-es-http.platform.svc:9200")
      && Holds(done, p + "-elastic-username", "elastic")
      && Holds(done, p + "-elastic-password", elastic)
  {
    var k :| 0 <= k < |partitions| && partitions[k] == p;
    HoldsPart(vault, partitions, storage, elastic, redis, k, 0);
    HoldsPart(vault, partitions, storage, elastic, redis, k, 1);
    HoldsPart(vault, partitions, storage, elastic, redis, k, 2);
  }

  /** The passwords, as far as the cluster has them too. */
  lemma VaultHoldsThePasswords(vault: Secrets, partitions: seq<string>, storage: string, elastic: string, redis: string)
    requires forall a, b :: 0 <= a < b < |partitions| ==> partitions[a] != partitions[b]
    ensures var done := Written(vault, SecretList(partitions, storage, elastic, redis), 3 + 3 * |partitions|);
      && FixedName(2) in done && done[FixedName(2)] == redis
      && forall p :: p in partitions ==> p + PartEnding(2) in done && done[p + PartEnding(2)] == elastic
  {
    HoldsFixed(vault, partitions, storage, elastic, redis, 2);
    forall p | p in partitions
      ensures var done := Written(vault, SecretList(partitions, storage, elastic, redis), 3 + 3 * |partitions|);
        p + PartEnding(2) in done && done[p + PartEnding(2)] == elastic
    {
      var k :| 0 <= k < |partitions| && partitions[k] == p;
      HoldsPart(vault, partitions, storage, elastic, redis, k, 2);
    }
  }
}
