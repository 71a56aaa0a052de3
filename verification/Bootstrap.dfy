/** The end of a deployment: cluster secrets and Key Vault are filled from one seed. */
module Bootstrap {
  import opened SeedSecrets
  import KeyVault

  /** The vault secrets of a deployment that uses `seed`, over what the vault held. */
  function Vault(vault: KeyVault.Secrets, partitions: seq<string>, storage: string, seed: Seed): KeyVault.Secrets
    requires HasAll(seed)
  {
    KeyVault.Written(vault, KeyVault.SecretList(partitions, storage, seed[ElasticPassword], seed[RedisPassword]),
                     3 + 3 * |partitions|)
  }

  /** Every password a service finds in the vault is the one the cluster's own secrets carry. */
  ghost predicate Matches(made: Store, held: KeyVault.Secrets, partitions: seq<string>) {
    && KeyVault.FixedName(2) in held
    && Carries(made, RedisCredentials, "password", held[KeyVault.FixedName(2)])
    && forall p :: p in partitions ==>
         var name := p + KeyVault.PartEnding(2);
         && name in held
         && Carries(made, ElasticUser, "elastic", held[name])
         && Carries(made, IndexerElastic, "ELASTIC_PASS_SYSTEM", held[name])
         && Carries(made, SearchElastic, "ELASTIC_PASS_SYSTEM", held[name])
  }

  /**
   After a deployment whose second seed read is answered the vault matches the cluster,
   whatever either held before and also when the first read failed.
   */
  lemma VaultMatchesCluster(s: Store, first: Use, second: Use, vault: KeyVault.Secrets, partitions: seq<string>,
                            storage: string)
    requires HasAll(first.minted) && HasAll(second.minted)
    requires first.ensure && Completes(s, first)
    requires !second.ensure && second.answered
    requires forall a, b :: 0 <= a < b < |partitions| ==> partitions[a] != partitions[b]
    ensures HasAll(Current(After(s, first).seed, second.minted, true))
    ensures var made := After(s, first);
      Matches(made, Vault(vault, partitions, storage, Current(made.seed, second.minted, true)), partitions)
  {
    VaultGetsTheSamePasswords(s, first, second);
    var made := After(s, first);
    var seed := Current(made.seed, second.minted, true);
    KeyVault.VaultHoldsThePasswords(vault, partitions, storage, seed[ElasticPassword], seed[RedisPassword]);
    ContentCarries(made, seed);
  }

  /**
   For fresh passwords that differ from those in use, the vault matches the cluster exactly
   when the second read was answered.
   */
  lemma VaultMatchesExactly(s: Store, first: Use, second: Use, vault: KeyVault.Secrets, partitions: seq<string>,
                            storage: string)
    requires HasAll(first.minted) && HasAll(second.minted)
    requires first.ensure && Completes(s, first) && !second.ensure
    requires forall a, b :: 0 <= a < b < |partitions| ==> partitions[a] != partitions[b]
    requires var made := After(s, first);
      && made.seed.Some? && RedisPassword in made.seed.value
      && made.seed.value[RedisPassword] != second.minted[RedisPassword]
    ensures HasAll(Current(After(s, first).seed, second.minted, second.answered))
    ensures var made := After(s, first);
      Matches(made, Vault(vault, partitions, storage, Current(made.seed, second.minted, second.answered)), partitions)
      <==> second.answered
  {
    if second.answered {
      VaultMatchesCluster(s, first, second, vault, partitions, storage);
    } else {
      var made := After(s, first);
      CompletedEnsure(s, first);
      FilledShape(map[], second.minted, |SEED_KEYS|);
      FilledIsComplete(map[], second.minted);
      var seed := Current(made.seed, second.minted, false);
      KeyVault.VaultHoldsThePasswords(vault, partitions, storage, seed[ElasticPassword], seed[RedisPassword]);
      ContentCarries(made, made.seed.value);
    }
  }

  /** The same for one partition's search password. */
  lemma PartitionMatchesExactly(s: Store, first: Use, second: Use, vault: KeyVault.Secrets,
                                partitions: seq<string>, storage: string, p: string)
    requires HasAll(first.minted) && HasAll(second.minted)
    requires first.ensure && Completes(s, first) && !second.ensure
    requires forall a, b :: 0 <= a < b < |partitions| ==> partitions[a] != partitions[b]
    requires p in partitions
    requires var made := After(s, first);
      && made.seed.Some? && ElasticPassword in made.seed.value
      && made.seed.value[ElasticPassword] != second.minted[ElasticPassword]
    ensures HasAll(Current(After(s, first).seed, second.minted, second.answered))
    ensures var made := After(s, first);
      var held := Vault(vault, partitions, storage, Current(made.seed, second.minted, second.answered));
      var name := p + KeyVault.PartEnding(2);
      name in held && (Carries(made, ElasticUser, "elastic", held[name]) <==> second.answered)
  {
    var made := After(s, first);
    if second.answered {
      VaultMatchesCluster(s, first, second, vault, partitions, storage);
    } else {
      CompletedEnsure(s, first);
      FilledShape(map[], second.minted, |SEED_KEYS|);
      FilledIsComplete(map[], second.minted);
      var seed := Current(made.seed, second.minted, false);
      KeyVault.VaultHoldsThePasswords(vault, partitions, storage, seed[ElasticPassword], seed[RedisPassword]);
      ContentCarries(made, made.seed.value);
    }
  }
}
