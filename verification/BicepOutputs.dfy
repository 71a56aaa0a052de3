/** Zipping the parallel arrays of the Bicep outputs back into one key for each partition and kind. */
module BicepOutputs {
  import opened Text

  type Outputs = map<string, string>

  const SHARED: nat := 15

  /** The keys that belong to no partition, and the Bicep output each is filled from. */
  function SharedKey(k: nat): string
    requires k < SHARED
  {
    match k
    case 0 => "identity_client_id"
    case 1 => "identity_principal_id"
    case 2 => "identity_id"
    case 3 => "keyvault_uri"
    case 4 => "keyvault_id"
    case 5 => "acr_id"
    case 6 => "acr_login_server"
    case 7 => "graph_endpoint"
    case 8 => "graph_account_id"
    case 9 => "common_storage_name"
    case 10 => "common_storage_id"
    case 11 => "external_dns_client_id"
    case 12 => "external_dns_principal_id"
    case 13 => "app_insights_connection_string"
    case _ => "app_insights_instrumentation_key"
  }

  function BicepName(k: nat): string
    requires k < SHARED
  {
    match k
    case 0 => "identityClientId"
    case 1 => "identityPrincipalId"
    case 2 => "identityResourceId"
    case 3 => "keyvaultUri"
    case 4 => "keyvaultId"
    case 5 => "acrId"
    case 6 => "acrLoginServer"
    case 7 => "graphEndpoint"
    case 8 => "graphAccountId"
    case 9 => "commonStorageName"
    case 10 => "commonStorageId"
    case 11 => "externalDnsClientId"
    case 12 => "externalDnsPrincipalId"
    case 13 => "appInsightsConnectionString"
    case _ => "appInsightsInstrumentationKey"
  }

  datatype Kind = CosmosEndpoint | CosmosAccountId | BusId | BusNamespace | StorageId | StorageName

  const KINDS: seq<Kind> := [CosmosEndpoint, CosmosAccountId, BusId, BusNamespace, StorageId, StorageName]

  function Ending(kind: Kind): string {
    match kind
    case CosmosEndpoint => "_cosmos_endpoint"
    case CosmosAccountId => "_cosmos_account_id"
    case BusId => "_servicebus_id"
    case BusNamespace => "_sb_namespace"
    case StorageId => "_storage_id"
    case StorageName => "_storage_name"
  }

  /** The parallel arrays; a missing one is empty. */
  datatype Columns = Columns(
    cosmosEndpoints: seq<string>, cosmosAccountIds: seq<string>, busIds: seq<string>,
    busNames: seq<string>, storageIds: seq<string>, storageNames: seq<string>)

  function Column(c: Columns, kind: Kind): seq<string> {
    match kind
    case CosmosEndpoint => c.cosmosEndpoints
    case CosmosAccountId => c.cosmosAccountIds
    case BusId => c.busIds
    case BusNamespace => c.busNames
    case StorageId => c.storageIds
    case StorageName => c.storageNames
  }

  function Get(bicep: map<string, string>, name: string): string {
    if name in bicep then bicep[name] else ""
  }

  function Base(bicep: map<string, string>, n: nat): Outputs
    requires n <= SHARED
  {
    if n == 0 then map[] else Base(bicep, n - 1)[SharedKey(n - 1) := Get(bicep, BicepName(n - 1))]
  }

  /** One conditional assignment: a column that is too short writes nothing. */
  function Put(out: Outputs, partition: string, i: nat, c: Columns, kind: Kind): Outputs {
    if i < |Column(c, kind)| then out[partition + Ending(kind) := Column(c, kind)[i]] else out
  }

  function Row(out: Outputs, partition: string, i: nat, c: Columns, n: nat): Outputs
    requires n <= |KINDS|
  {
    if n == 0 then out else Put(Row(out, partition, i, c, n - 1), partition, i, c, KINDS[n - 1])
  }

  function Rows(out: Outputs, partitions: seq<string>, c: Columns, n: nat): Outputs
    requires n <= |partitions|
  {
    if n == 0 then out else Row(Rows(out, partitions, c, n - 1), partitions[n - 1], n - 1, c, |KINDS|)
  }

  function Reshaped(bicep: map<string, string>, partitions: seq<string>, c: Columns): Outputs {
    Rows(Base(bicep, SHARED), partitions, c, |partitions|)
  }

  method Reshape(bicep: map<string, string>, partitions: seq<string>, c: Columns) returns (out: Outputs)
    ensures out == Reshaped(bicep, partitions, c)
  {
    out := map[];
    for k := 0 to SHARED
      invariant out == Base(bicep, k)
    {
      out := out[SharedKey(k) := Get(bicep, BicepName(k))];
    }
    for i := 0 to |partitions|
      invariant out == Rows(Base(bicep, SHARED), partitions, c, i)
    {
      out := ReshapeRow(out, partitions[i], i, c);
    }
  }

  method ReshapeRow(before: Outputs, partition: string, i: nat, c: Columns) returns (out: Outputs)
    ensures out == Row(before, partition, i, c, |KINDS|)
  {
    out := before;
    if i < |c.cosmosEndpoints| {
      out := out[partition + Ending(CosmosEndpoint) := c.cosmosEndpoints[i]];
    }
    assert out == Row(before, partition, i, c, 1);
    if i < |c.cosmosAccountIds| {
      out := out[partition + Ending(CosmosAccountId) := c.cosmosAccountIds[i]];
    }
    assert out == Row(before, partition, i, c, 2);
    if i < |c.busIds| {
      out := out[partition + Ending(BusId) := c.busIds[i]];
    }
    assert out == Row(before, partition, i, c, 3);
    if i < |c.busNames| {
      out := out[partition + Ending(BusNamespace) := c.busNames[i]];
    }
    assert out == Row(before, partition, i, c, 4);
    if i < |c.storageIds| {
      out := out[partition + Ending(StorageId) := c.storageIds[i]];
    }
    assert out == Row(before, partition, i, c, 5);
    if i < |c.storageNames| {
      out := out[partition + Ending(StorageName) := c.storageNames[i]];
    }
    assert out == Row(before, partition, i, c, 6);
  }

  // ---- keys ----

  lemma EndingsAreSuffixFree(a: Kind, b: Kind)
    requires a != b
    ensures !EndsWith(Ending(a), Ending(b))
  {
    var s, t := Ending(a), Ending(b);
    NotSuffix(s, t, if s[|s| - 1] != t[|t| - 1] then 1 else if s[|s| - 2] != t[|t| - 2] then 2 else 4);
  }

  /** No two pairs of partition and kind share a key. */
  lemma KeyIsInjective(p: string, a: Kind, q: string, b: Kind)
    requires p + Ending(a) == q + Ending(b)
    ensures p == q && a == b
  {
    if a != b {
      EndingsAreSuffixFree(a, b);
      EndingsAreSuffixFree(b, a);
      DifferentEndings(p, Ending(a), q, Ending(b));
    }
    SameEnding(p, q, Ending(a));
  }

  /** The one kind, if any, that closes a shared key. */
  function Closing(k: nat): Option<Kind> {
    if k == 9 then Some(StorageName) else if k == 10 then Some(StorageId) else None
  }

  /** A position, counted from the end, where the shared key and the ending differ. */
  function Difference(k: nat, kind: Kind): nat {
    match kind
    case CosmosEndpoint => if k == 7 then 10 else 1
    case CosmosAccountId =>
      if k == 8 then 12
      else if k == 0 || k == 11 then 6
      else if k == 4 then 5
      else if k in {1, 2, 5, 10, 12} then 4
      else 1
    case BusId => if k in {0, 1, 2, 4, 5, 8, 10, 11, 12} then 4 else 1
    case BusNamespace => if k == 9 then 2 else 1
    case StorageId => if k in {0, 1, 2, 4, 5, 8, 11, 12} then 4 else 1
    case StorageName => 1
  }

  lemma AccountEndingDiffers(k: nat)
    requires k < SHARED
    ensures !EndsWith(SharedKey(k), Ending(CosmosAccountId))
  {
    NotSuffix(SharedKey(k), Ending(CosmosAccountId), Difference(k, CosmosAccountId));
  }

  lemma BusEndingsDiffer(k: nat, kind: Kind)
    requires k < SHARED && (kind.BusId? || kind.BusNamespace?)
    ensures !EndsWith(SharedKey(k), Ending(kind))
  {
    NotSuffix(SharedKey(k), Ending(kind), Difference(k, kind));
  }

  lemma EndpointEndingDiffers(k: nat)
    requires k < SHARED
    ensures !EndsWith(SharedKey(k), Ending(CosmosEndpoint))
  {
    NotSuffix(SharedKey(k), Ending(CosmosEndpoint), Difference(k, CosmosEndpoint));
  }

  lemma StorageEndingsDiffer(k: nat, kind: Kind)
    requires k < SHARED && Closing(k) != Some(kind) && (kind.StorageId? || kind.StorageName?)
    ensures !EndsWith(SharedKey(k), Ending(kind))
  {
    NotSuffix(SharedKey(k), Ending(kind), Difference(k, kind));
  }

  lemma SharedKeyCloses(k: nat, kind: Kind)
    requires k < SHARED && Closing(k) != Some(kind)
    ensures !EndsWith(SharedKey(k), Ending(kind))
  {
    match kind
    case CosmosEndpoint => EndpointEndingDiffers(k);
    case CosmosAccountId => AccountEndingDiffers(k);
    case BusId => BusEndingsDiffer(k, kind);
    case BusNamespace => BusEndingsDiffer(k, kind);
    case StorageId => StorageEndingsDiffer(k, kind);
    case StorageName => StorageEndingsDiffer(k, kind);
  }

  lemma SharedKeysAreDistinct(k: nat, l: nat)
    requires k < l < SHARED
    ensures SharedKey(k) != SharedKey(l)
  {
    assert |SharedKey(k)| == |SharedKey(l)| ==> SharedKey(k)[0] != SharedKey(l)[0];
  }

  // ---- what every key holds ----

  lemma {:induction false} RowHolds(out: Outputs, partition: string, i: nat, c: Columns, n: nat, k: nat)
    requires k < n <= |KINDS| && i < |Column(c, KINDS[k])|
    ensures partition + Ending(KINDS[k]) in Row(out, partition, i, c, n)
    ensures Row(out, partition, i, c, n)[partition + Ending(KINDS[k])] == Column(c, KINDS[k])[i]
  {
    if k < n - 1 {
      RowHolds(out, partition, i, c, n - 1, k);
      KindsAreDistinct(k, n - 1);
      if partition + Ending(KINDS[k]) == partition + Ending(KINDS[n - 1]) {
        KeyIsInjective(partition, KINDS[k], partition, KINDS[n - 1]);
      }
    }
  }

  lemma KindsAreDistinct(k: nat, l: nat)
    requires k < l < |KINDS|
    ensures KINDS[k] != KINDS[l]
  {}

  /** A row touches no key but its own partition's, and those only where the column is long enough. */
  lemma {:induction false} RowFrame(out: Outputs, partition: string, i: nat, c: Columns, n: nat, key: string)
    requires n <= |KINDS|
    requires forall kind: Kind :: i < |Column(c, kind)| ==> key != partition + Ending(kind)
    ensures key in Row(out, partition, i, c, n) <==> key in out
    ensures key in out ==> Row(out, partition, i, c, n)[key] == out[key]
  {
    if n > 0 {
      RowFrame(out, partition, i, c, n - 1, key);
    }
  }

  lemma {:induction false} RowsFrame(out: Outputs, partitions: seq<string>, c: Columns, n: nat, key: string)
    requires n <= |partitions|
    requires forall i: nat, kind: Kind :: i < n && i < |Column(c, kind)| ==> key != partitions[i] + Ending(kind)
    ensures key in Rows(out, partitions, c, n) <==> key in out
    ensures key in out ==> Rows(out, partitions, c, n)[key] == out[key]
  {
    if n > 0 {
      RowsFrame(out, partitions, c, n - 1, key);
      RowFrame(Rows(out, partitions, c, n - 1), partitions[n - 1], n - 1, c, |KINDS|, key);
    }
  }

  lemma {:induction false} RowsHold(out: Outputs, partitions: seq<string>, c: Columns, n: nat, i: nat, kind: Kind)
    requires forall a, b :: 0 <= a < b < |partitions| ==> partitions[a] != partitions[b]
    requires i < n <= |partitions| && i < |Column(c, kind)|
    ensures partitions[i] + Ending(kind) in Rows(out, partitions, c, n)
    ensures Rows(out, partitions, c, n)[partitions[i] + Ending(kind)] == Column(c, kind)[i]
  {
    var before, key := Rows(out, partitions, c, n - 1), partitions[i] + Ending(kind);
    if i == n - 1 {
      RowHolds(before, partitions[i], i, c, |KINDS|, KindIndex(kind));
    } else {
      RowsHold(out, partitions, c, n - 1, i, kind);
      forall other: Kind | key == partitions[n - 1] + Ending(other)
        ensures false
      {
        KeyIsInjective(partitions[i], kind, partitions[n - 1], other);
      }
      RowFrame(before, partitions[n - 1], n - 1, c, |KINDS|, key);
    }
  }

  function KindIndex(kind: Kind): (k: nat)
    ensures k < |KINDS| && KINDS[k] == kind
  {
    match kind
    case CosmosEndpoint => 0
    case CosmosAccountId => 1
    case BusId => 2
    case BusNamespace => 3
    case StorageId => 4
    case StorageName => 5
  }

  /** For distinct partitions every key holds its own element of its own column, whatever the array lengths. */
  lemma OwnElement(bicep: map<string, string>, partitions: seq<string>, c: Columns, i: nat, kind: Kind)
    requires forall a, b :: 0 <= a < b < |partitions| ==> partitions[a] != partitions[b]
    requires i < |partitions| && i < |Column(c, kind)|
    ensures var out := Reshaped(bicep, partitions, c);
      partitions[i] + Ending(kind) in out && out[partitions[i] + Ending(kind)] == Column(c, kind)[i]
  {
    RowsHold(Base(bicep, SHARED), partitions, c, |partitions|, i, kind);
  }

  lemma {:induction false} BaseHolds(bicep: map<string, string>, n: nat, k: nat)
    requires k < n <= SHARED
    ensures SharedKey(k) in Base(bicep, n)
    ensures Base(bicep, n)[SharedKey(k)] == Get(bicep, BicepName(k))
  {
    if k < n - 1 {
      BaseHolds(bicep, n - 1, k);
      SharedKeysAreDistinct(k, n - 1);
    }
  }

  lemma {:induction false} BaseHasNoOther(bicep: map<string, string>, n: nat, key: string)
    requires n <= SHARED
    requires forall k: nat :: k < n ==> key != SharedKey(k)
    ensures key !in Base(bicep, n)
  {
    if n > 0 {
      BaseHasNoOther(bicep, n - 1, key);
    }
  }

  /** There are no keys but the shared ones and those of the partitions' elements. */
  lemma NoOtherKeys(bicep: map<string, string>, partitions: seq<string>, c: Columns, key: string)
    requires forall k: nat :: k < SHARED ==> key != SharedKey(k)
    requires forall i: nat, kind: Kind :: i < |partitions| && i < |Column(c, kind)| ==>
      key != partitions[i] + Ending(kind)
    ensures key !in Reshaped(bicep, partitions, c)
  {
    BaseHasNoOther(bicep, SHARED, key);
    RowsFrame(Base(bicep, SHARED), partitions, c, |partitions|, key);
  }

  /**
   The shared keys keep their Bicep values. The two of the common storage account do so
   exactly when the partition called "common", if there is one, has no element in that
   column or the same one.
   */
  lemma SharedKeysExactly(bicep: map<string, string>, partitions: seq<string>, c: Columns, k: nat)
    requires forall a, b :: 0 <= a < b < |partitions| ==> partitions[a] != partitions[b]
    requires k < SHARED
    ensures SharedKey(k) in Reshaped(bicep, partitions, c)
    ensures Reshaped(bicep, partitions, c)[SharedKey(k)] == Get(bicep, BicepName(k))
       <==> (Closing(k).None?
             || forall i: nat :: i < |partitions| && i < |Column(c, Closing(k).value)| && partitions[i] == "common" ==>
                  Column(c, Closing(k).value)[i] == Get(bicep, BicepName(k)))
  {
    BaseHolds(bicep, SHARED, k);
    var key := SharedKey(k);
    if i: nat :| Closing(k).Some?
                 && i < |partitions| && i < |Column(c, Closing(k).value)| && partitions[i] == "common" {
      CommonKey(k);
      OwnElement(bicep, partitions, c, i, Closing(k).value);
    } else {
      forall i: nat, kind: Kind | i < |partitions| && i < |Column(c, kind)|
        ensures key != partitions[i] + Ending(kind)
      {
        ConcatEndsWith(partitions[i], Ending(kind));
        if Closing(k) != Some(kind) {
          SharedKeyCloses(k, kind);
        } else {
          CommonKey(k);
          if key == partitions[i] + Ending(kind) {
            KeyIsInjective(partitions[i], kind, "common", kind);
          }
        }
      }
      RowsFrame(Base(bicep, SHARED), partitions, c, |partitions|, key);
    }
  }

  lemma CommonKey(k: nat)
    requires k < SHARED && Closing(k).Some?
    ensures SharedKey(k) == "common" + Ending(Closing(k).value)
  {
    assert "common_storage_name" == "common" + "_storage_name";
    assert "common_storage_id" == "common" + "_storage_id";
  }

  // ---- by name ----

  ghost predicate Holds(out: Outputs, key: string, value: string) {
    key in out && out[key] == value
  }

  /** Each array's element stands under its own kind's key of its own partition. */
  lemma ElementsByName(bicep: map<string, string>, partitions: seq<string>, c: Columns, i: nat)
    requires forall a, b :: 0 <= a < b < |partitions| ==> partitions[a] != partitions[b]
    requires i < |partitions|
    ensures var out, p := Reshaped(bicep, partitions, c), partitions[i];
      && (i < |c.cosmosEndpoints| ==> Holds(out, p + "_cosmos_endpoint", c.cosmosEndpoints[i]))
      && (i < |c.cosmosAccountIds| ==> Holds(out, p + "_cosmos_account_id", c.cosmosAccountIds[i]))
      && (i < |c.busIds| ==> Holds(out, p + "_servicebus_id", c.busIds[i]))
      && (i < |c.busNames| ==> Holds(out, p + "_sb_namespace", c.busNames[i]))
      && (i < |c.storageIds| ==> Holds(out, p + "_storage_id", c.storageIds[i]))
      && (i < |c.storageNames| ==> Holds(out, p + "_storage_name", c.storageNames[i]))
  {
    forall kind: Kind | i < |Column(c, kind)|
      ensures Holds(Reshaped(bicep, partitions, c), partitions[i] + Ending(kind), Column(c, kind)[i])
    {
      OwnElement(bicep, partitions, c, i, kind);
    }
    assert Column(c, CosmosEndpoint) == c.cosmosEndpoints && Column(c, CosmosAccountId) == c.cosmosAccountIds;
    assert Column(c, BusId) == c.busIds && Column(c, BusNamespace) == c.busNames;
    assert Column(c, StorageId) == c.storageIds && Column(c, StorageName) == c.storageNames;
  }

  lemma SharedKeyKept(bicep: map<string, string>, partitions: seq<string>, c: Columns, k: nat)
    requires forall a, b :: 0 <= a < b < |partitions| ==> partitions[a] != partitions[b]
    requires k < SHARED && (Closing(k).Some? ==> "common" !in partitions)
    ensures Holds(Reshaped(bicep, partitions, c), SharedKey(k), Get(bicep, BicepName(k)))
  {
    SharedKeysExactly(bicep, partitions, c, k);
  }

  /** Identity, vault, registry and graph keys are filled from the Bicep outputs of their names. */
  lemma PlatformByName(bicep: map<string, string>, partitions: seq<string>, c: Columns)
    requires forall a, b :: 0 <= a < b < |partitions| ==> partitions[a] != partitions[b]
    ensures var out := Reshaped(bicep, partitions, c);
      && Holds(out, "identity_client_id", Get(bicep, "identityClientId"))
      && Holds(out, "identity_principal_id", Get(bicep, "identityPrincipalId"))
      && Holds(out, "identity_id", Get(bicep, "identityResourceId"))
      && Holds(out, "keyvault_uri", Get(bicep, "keyvaultUri")) && Holds(out, "keyvault_id", Get(bicep, "keyvaultId"))
      && Holds(out, "acr_id", Get(bicep, "acrId")) && Holds(out, "acr_login_server", Get(bicep, "acrLoginServer"))
      && Holds(out, "graph_endpoint", Get(bicep, "graphEndpoint"))
      && Holds(out, "graph_account_id", Get(bicep, "graphAccountId"))
  {
    SharedKeyKept(bicep, partitions, c, 0);
    SharedKeyKept(bicep, partitions, c, 1);
    SharedKeyKept(bicep, partitions, c, 2);
    SharedKeyKept(bicep, partitions, c, 3);
    SharedKeyKept(bicep, partitions, c, 4);
    SharedKeyKept(bicep, partitions, c, 5);
    SharedKeyKept(bicep, partitions, c, 6);
    SharedKeyKept(bicep, partitions, c, 7);
    SharedKeyKept(bicep, partitions, c, 8);
  }

  /** So are DNS and telemetry. */
  lemma TelemetryByName(bicep: map<string, string>, partitions: seq<string>, c: Columns)
    requires forall a, b :: 0 <= a < b < |partitions| ==> partitions[a] != partitions[b]
    ensures var out := Reshaped(bicep, partitions, c);
      && Holds(out, "external_dns_client_id", Get(bicep, "externalDnsClientId"))
      && Holds(out, "external_dns_principal_id", Get(bicep, "externalDnsPrincipalId"))
      && Holds(out, "app_insights_connection_string", Get(bicep, "appInsightsConnectionString"))
      && Holds(out, "app_insights_instrumentation_key", Get(bicep, "appInsightsInstrumentationKey"))
  {
    SharedKeyKept(bicep, partitions, c, 11);
    SharedKeyKept(bicep, partitions, c, 12);
    SharedKeyKept(bicep, partitions, c, 13);
    SharedKeyKept(bicep, partitions, c, 14);
  }

  /** So is the common storage account, unless a partition is called "common". */
  lemma CommonByName(bicep: map<string, string>, partitions: seq<string>, c: Columns)
    requires forall a, b :: 0 <= a < b < |partitions| ==> partitions[a] != partitions[b]
    requires "common" !in partitions
    ensures var out := Reshaped(bicep, partitions, c);
      && Holds(out, "common_storage_name", Get(bicep, "commonStorageName"))
      && Holds(out, "common_storage_id", Get(bicep, "commonStorageId"))
  {
    SharedKeyKept(bicep, partitions, c, 9);
    SharedKeyKept(bicep, partitions, c, 10);
  }
}
