/** Every variable of a completed handoff, and the stale ones it removes. */
module HandoffVariables {
  import opened Handoff

  /** The variables of a handoff, in the order they are written. */
  const VARIABLES: seq<string> := [
    "K8S_DEPLOYMENT_NAME", "K8S_CONTAINER_NAME", "AZURE_CLIENT_ID",
    "AKS_RESOURCE_GROUP", "AKS_CLUSTER_NAME", "K8S_NAMESPACE", "FLUX_NAMESPACE", "AAD_CLIENT_ID",
    "NO_DATA_ACCESS_TESTER_CLIENT_ID", "NO_DATA_ACCESS_TESTER_PRINCIPAL_ID",
    "NO_DATA_ACCESS_TESTER_IDENTITY_NAME", "NO_DATA_ACCESS_TOKEN_ENV",
    "KEYVAULT_NAME", "GATEWAY_URL"]

  lemma VariablesAreDistinct(i: nat, j: nat)
    requires i < j < |VARIABLES|
    ensures VARIABLES[i] != VARIABLES[j]
  {
    var lengths := [19, 18, 15, 18, 16, 13, 14, 13, 31, 34, 35, 24, 13, 11];
    assert |VARIABLES[i]| == lengths[i] && |VARIABLES[j]| == lengths[j];
    if lengths[i] == lengths[j] {
      assert VARIABLES[i][1] != VARIABLES[j][1];
    }
  }

  /** The writes set or delete the variables at the positions `at`, which increase from `low` and stay below `high`. */
  ghost predicate InOrder(writes: seq<Write>, at: seq<nat>, low: nat, high: nat) {
    && |at| == |writes| && high <= |VARIABLES|
    && (forall i :: 0 <= i < |at| ==> low <= at[i] < high)
    && (forall i :: 0 <= i < |at| ==> !writes[i].SetSecret? && writes[i].name == VARIABLES[at[i]])
    && (forall i, j :: 0 <= i < j < |at| ==> at[i] < at[j])
  }

  lemma InOrderConcat(a: seq<Write>, atA: seq<nat>, b: seq<Write>, atB: seq<nat>, low: nat, middle: nat, high: nat)
    requires InOrder(a, atA, low, middle) && InOrder(b, atB, middle, high) && low <= middle <= high
    ensures InOrder(a + b, atA + atB, low, high)
  {}

  lemma FixedAreInOrder(target: Target, inp: Inputs)
    ensures InOrder(LeadingVariables(target, inp), [0, 1, 2], 0, 3)
    ensures InOrder(ClusterVariables(inp), [3, 4, 5, 6, 7], 3, 8)
  {}

  lemma OptionalAreInOrder(inp: Inputs)
    ensures InOrder(NoDataVariables(inp.noData), [8, 9, 10, 11], 8, 12)
    ensures InOrder(VaultVariable(inp), if inp.keyvault != "" then [12] else [], 12, 13)
    ensures InOrder(GatewayVariable(inp), if inp.gatewayUrl != "" then [13] else [], 13, 14)
  {}

  lemma HandoffIsInOrder(target: Target, inp: Inputs) returns (at: seq<nat>)
    ensures InOrder(VariableWrites(target, inp), at, 0, 14)
    ensures (inp.keyvault == "" ==> 12 !in at) && (inp.gatewayUrl == "" ==> 13 !in at)
  {
    FixedAreInOrder(target, inp);
    OptionalAreInOrder(inp);
    var vault, gateway := if inp.keyvault != "" then [12] else [], if inp.gatewayUrl != "" then [13] else [];
    var a, b := ClusterVariables(inp), NoDataVariables(inp.noData);
    InOrderConcat(a, [3, 4, 5, 6, 7], b, [8, 9, 10, 11], 3, 8, 12);
    var atAB := [3, 4, 5, 6, 7] + [8, 9, 10, 11];
    InOrderConcat(a + b, atAB, VaultVariable(inp), vault, 3, 12, 13);
    InOrderConcat(a + b + VaultVariable(inp), atAB + vault, GatewayVariable(inp), gateway, 3, 13, 14);
    InOrderConcat(LeadingVariables(target, inp), [0, 1, 2], TrailingVariables(inp), atAB + vault + gateway, 0, 3, 14);
    at := [0, 1, 2] + (atAB + vault + gateway);
  }

  /** The write is what the variables show. */
  ghost predicate Shows(variables: map<string, string>, w: Write) {
    match w
    case SetVariable(name, value) => name in variables && variables[name] == value
    case DeleteVariable(name) => name !in variables
    case SetSecret(_, _) => true
  }

  lemma {:induction false} EveryWriteShows(repo: Repo, writes: seq<Write>, at: seq<nat>, i: nat)
    requires InOrder(writes, at, 0, 14) && i < |writes|
    ensures Shows(ApplyAll(repo, writes).variables, writes[i])
  {
    var n := |writes| - 1;
    if i < n {
      VariablesAreDistinct(at[i], at[n]);
      assert writes[..n][i] == writes[i];
      EveryWriteShows(repo, writes[..n], at[..n], i);
    }
  }

  lemma {:induction false} OthersStay(repo: Repo, writes: seq<Write>, name: string)
    requires forall i :: 0 <= i < |writes| ==> writes[i].SetSecret? || writes[i].name != name
    ensures name in ApplyAll(repo, writes).variables <==> name in repo.variables
    ensures name in repo.variables ==> ApplyAll(repo, writes).variables[name] == repo.variables[name]
  {
    if writes != [] {
      OthersStay(repo, writes[..|writes| - 1], name);
    }
  }

  lemma {:induction false} SecretsLeaveVariables(repo: Repo, writes: seq<Write>)
    requires forall i :: 0 <= i < |writes| ==> writes[i].SetSecret?
    ensures ApplyAll(repo, writes).variables == repo.variables
  {
    if writes != [] {
      SecretsLeaveVariables(repo, writes[..|writes| - 1]);
    }
  }

  lemma CompletedIsAll(repo: Repo, a: Attempt) returns (start: Repo)
    requires Completes(repo, a)
    ensures start.variables == repo.variables
    ensures After(repo, a) == ApplyAll(start, VariableWrites(a.target, a.inp))
  {
    var secrets := if WritesSecrets(repo, a.target, a.force, a.listed) then SecretWrites(a.target) else [];
    var plan := Plan(repo, a.target, a.inp, a.force, a.listed);
    assert plan == secrets + VariableWrites(a.target, a.inp) && Cut(plan, a.writes) == plan;
    ApplyConcat(repo, secrets, VariableWrites(a.target, a.inp));
    SecretsLeaveVariables(repo, secrets);
    start := ApplyAll(repo, secrets);
  }

  /**
   After a completed handoff every variable has the value this handoff gave it, the variables
   of an identity it no longer uses are gone, and all others are as they were.
   */
  lemma CompletedVariables(repo: Repo, a: Attempt, name: string)
    requires Completes(repo, a)
    ensures forall w :: w in VariableWrites(a.target, a.inp) ==> Shows(After(repo, a).variables, w)
    ensures (forall w :: w in VariableWrites(a.target, a.inp) ==> w.name != name) ==>
      (name in After(repo, a).variables <==> name in repo.variables)
      && (name in repo.variables ==> After(repo, a).variables[name] == repo.variables[name])
  {
    var at := HandoffIsInOrder(a.target, a.inp);
    var start := CompletedIsAll(repo, a);
    OrderedEffect(start, VariableWrites(a.target, a.inp), at, name);
  }

  lemma OrderedEffect(repo: Repo, writes: seq<Write>, at: seq<nat>, name: string)
    requires InOrder(writes, at, 0, 14)
    ensures forall w :: w in writes ==> Shows(ApplyAll(repo, writes).variables, w)
    ensures (forall w :: w in writes ==> w.name != name) ==>
      (name in ApplyAll(repo, writes).variables <==> name in repo.variables)
      && (name in repo.variables ==> ApplyAll(repo, writes).variables[name] == repo.variables[name])
  {
    forall w | w in writes ensures Shows(ApplyAll(repo, writes).variables, w) {
      var i :| 0 <= i < |writes| && writes[i] == w;
      EveryWriteShows(repo, writes, at, i);
    }
    if forall w :: w in writes ==> w.name != name {
      OthersStay(repo, writes, name);
    }
  }

  // ---- by name ----

  ghost predicate Holds(variables: map<string, string>, name: string, value: string) {
    name in variables && variables[name] == value
  }

  ghost predicate Unchanged(before: map<string, string>, after: map<string, string>, name: string) {
    (name in after <==> name in before) && (name in before ==> after[name] == before[name])
  }

  lemma PartsAreWritten(target: Target, inp: Inputs)
    ensures forall w :: w in VariableWrites(target, inp) <==>
      || w in LeadingVariables(target, inp) || w in ClusterVariables(inp) || w in NoDataVariables(inp.noData)
      || w in VaultVariable(inp) || w in GatewayVariable(inp)
  {}

  /** Deployment, container and client, then the five of the cluster: each holds its own input. */
  lemma FixedByName(repo: Repo, a: Attempt)
    requires Completes(repo, a)
    ensures var v := After(repo, a).variables;
      && Holds(v, "K8S_DEPLOYMENT_NAME", a.inp.deployment) && Holds(v, "K8S_CONTAINER_NAME", a.inp.container)
      && Holds(v, "AZURE_CLIENT_ID", a.target.client)
      && Holds(v, "AKS_RESOURCE_GROUP", a.inp.clusterGroup) && Holds(v, "AKS_CLUSTER_NAME", a.inp.cluster)
      && Holds(v, "K8S_NAMESPACE", a.inp.kubeNamespace) && Holds(v, "FLUX_NAMESPACE", a.inp.fluxNamespace)
      && Holds(v, "AAD_CLIENT_ID", "https://management.azure.com")
  {
    PartsAreWritten(a.target, a.inp);
    CompletedVariables(repo, a, "");
    var leading, cluster := LeadingVariables(a.target, a.inp), ClusterVariables(a.inp);
    assert leading[0] in leading && leading[1] in leading && leading[2] in leading;
    assert cluster[0] in cluster && cluster[1] in cluster && cluster[2] in cluster;
    assert cluster[3] in cluster && cluster[4] in cluster;
  }

  /** The four of the no-data identity hold its fields when the profile uses it, and are gone when it does not. */
  lemma NoDataByName(repo: Repo, a: Attempt)
    requires Completes(repo, a)
    ensures var v := After(repo, a).variables;
      match a.inp.noData
      case Some(id) =>
        && Holds(v, "NO_DATA_ACCESS_TESTER_CLIENT_ID", id.client)
        && Holds(v, "NO_DATA_ACCESS_TESTER_PRINCIPAL_ID", id.principal)
        && Holds(v, "NO_DATA_ACCESS_TESTER_IDENTITY_NAME", id.name)
        && Holds(v, "NO_DATA_ACCESS_TOKEN_ENV", id.tokenEnv)
      case None =>
        && "NO_DATA_ACCESS_TESTER_CLIENT_ID" !in v && "NO_DATA_ACCESS_TESTER_PRINCIPAL_ID" !in v
        && "NO_DATA_ACCESS_TESTER_IDENTITY_NAME" !in v && "NO_DATA_ACCESS_TOKEN_ENV" !in v
  {
    PartsAreWritten(a.target, a.inp);
    CompletedVariables(repo, a, "");
    var noData := NoDataVariables(a.inp.noData);
    assert noData[0] in noData && noData[1] in noData && noData[2] in noData && noData[3] in noData;
  }

  /** Vault and gateway hold what is given, and are left alone when nothing is. */
  lemma OptionalByName(repo: Repo, a: Attempt)
    requires Completes(repo, a)
    ensures var v := After(repo, a).variables;
      && (a.inp.keyvault != "" ==> Holds(v, "KEYVAULT_NAME", a.inp.keyvault))
      && (a.inp.gatewayUrl != "" ==> Holds(v, "GATEWAY_URL", a.inp.gatewayUrl))
      && (a.inp.keyvault == "" ==> Unchanged(repo.variables, v, "KEYVAULT_NAME"))
      && (a.inp.gatewayUrl == "" ==> Unchanged(repo.variables, v, "GATEWAY_URL"))
  {
    PartsAreWritten(a.target, a.inp);
    CompletedVariables(repo, a, VARIABLES[12]);
    CompletedVariables(repo, a, VARIABLES[13]);
    if a.inp.keyvault == "" {
      UnwrittenName(a.target, a.inp, 12);
    } else {
      assert VaultVariable(a.inp)[0] in VaultVariable(a.inp);
    }
    if a.inp.gatewayUrl == "" {
      UnwrittenName(a.target, a.inp, 13);
    } else {
      assert GatewayVariable(a.inp)[0] in GatewayVariable(a.inp);
    }
  }

  lemma UnwrittenName(target: Target, inp: Inputs, k: nat)
    requires (k == 12 && inp.keyvault == "") || (k == 13 && inp.gatewayUrl == "")
    ensures forall w :: w in VariableWrites(target, inp) ==> w.name != VARIABLES[k]
  {
    var at := OtherPositions(target, inp, k);
    var writes := VariableWrites(target, inp);
    forall w | w in writes ensures w.name != VARIABLES[k] {
      var i :| 0 <= i < |writes| && writes[i] == w;
      if at[i] < k {
        VariablesAreDistinct(at[i], k);
      } else {
        VariablesAreDistinct(k, at[i]);
      }
    }
  }

  lemma OtherPositions(target: Target, inp: Inputs, k: nat) returns (at: seq<nat>)
    requires (k == 12 && inp.keyvault == "") || (k == 13 && inp.gatewayUrl == "")
    ensures InOrder(VariableWrites(target, inp), at, 0, 14) && k !in at
  {
    at := HandoffIsInOrder(target, inp);
  }
}
