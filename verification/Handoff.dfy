/**
 The handoff `spi onboard` writes to a repository: three secrets, then variables.
 The AZURE_CLIENT_ID variable is what a later run compares its identity with.
 */
module Handoff {
  import opened Text

  const AAD_TOKEN_RESOURCE := "https://management.azure.com"

  /** The identity a run hands over, with the tenant and subscription it lives in. */
  datatype Target = Target(client: string, tenant: string, subscription: string)

  datatype NoDataIdentity = NoDataIdentity(client: string, principal: string, name: string, tokenEnv: string)

  /** What a run knows besides the target; `noData` is None when the profile does not use it. */
  datatype Inputs = Inputs(
    deployment: string, container: string, clusterGroup: string, cluster: string,
    kubeNamespace: string, fluxNamespace: string,
    noData: Option<NoDataIdentity>, keyvault: string, gatewayUrl: string)

  datatype Write =
    | SetSecret(name: string, value: string)
    | SetVariable(name: string, value: string)
    | DeleteVariable(name: string)

  datatype Repo = Repo(secrets: map<string, string>, variables: map<string, string>)

  function Apply(repo: Repo, w: Write): Repo {
    match w
    case SetSecret(name, value) => repo.(secrets := repo.secrets[name := value])
    case SetVariable(name, value) => repo.(variables := repo.variables[name := value])
    case DeleteVariable(name) => repo.(variables := repo.variables - {name})
  }

  function ApplyAll(repo: Repo, writes: seq<Write>): Repo {
    if writes == [] then repo else Apply(ApplyAll(repo, writes[..|writes| - 1]), writes[|writes| - 1])
  }

  // ---- the decision ----

  function LinkedClient(repo: Repo): string {
    if "AZURE_CLIENT_ID" in repo.variables then Strip(repo.variables["AZURE_CLIENT_ID"]) else ""
  }

  predicate IsRehome(linked: string, client: string) {
    linked != "" && client != "" && linked != client
  }

  predicate ShouldWriteSecrets(secretPresent: bool, isRehome: bool, force: bool) {
    !secretPresent || isRehome || force
  }

  /** `listed` is false when listing the secrets failed, which reads as no secret at all. */
  predicate WritesSecrets(repo: Repo, target: Target, force: bool, listed: bool) {
    ShouldWriteSecrets(listed && "AZURE_CLIENT_ID" in repo.secrets, IsRehome(LinkedClient(repo), target.client), force)
  }

  // ---- the writes ----

  function SecretWrites(target: Target): seq<Write> {
    [SetSecret("AZURE_CLIENT_ID", target.client),
     SetSecret("AZURE_TENANT_ID", target.tenant),
     SetSecret("AZURE_SUBSCRIPTION_ID", target.subscription)]
  }

  function LeadingVariables(target: Target, inp: Inputs): seq<Write> {
    [SetVariable("K8S_DEPLOYMENT_NAME", inp.deployment),
     SetVariable("K8S_CONTAINER_NAME", inp.container),
     SetVariable("AZURE_CLIENT_ID", target.client)]
  }

  function ClusterVariables(inp: Inputs): seq<Write> {
    [SetVariable("AKS_RESOURCE_GROUP", inp.clusterGroup),
     SetVariable("AKS_CLUSTER_NAME", inp.cluster),
     SetVariable("K8S_NAMESPACE", inp.kubeNamespace),
     SetVariable("FLUX_NAMESPACE", inp.fluxNamespace),
     SetVariable("AAD_CLIENT_ID", AAD_TOKEN_RESOURCE)]
  }

  function VaultVariable(inp: Inputs): seq<Write> {
    if inp.keyvault != "" then [SetVariable("KEYVAULT_NAME", inp.keyvault)] else []
  }

  function GatewayVariable(inp: Inputs): seq<Write> {
    if inp.gatewayUrl != "" then [SetVariable("GATEWAY_URL", inp.gatewayUrl)] else []
  }

  function TrailingVariables(inp: Inputs): seq<Write> {
    ClusterVariables(inp) + NoDataVariables(inp.noData) + VaultVariable(inp) + GatewayVariable(inp)
  }

  function VariableWrites(target: Target, inp: Inputs): seq<Write> {
    LeadingVariables(target, inp) + TrailingVariables(inp)
  }

  function NoDataVariables(noData: Option<NoDataIdentity>): seq<Write> {
    match noData
    case Some(id) =>
      [SetVariable("NO_DATA_ACCESS_TESTER_CLIENT_ID", id.client),
       SetVariable("NO_DATA_ACCESS_TESTER_PRINCIPAL_ID", id.principal),
       SetVariable("NO_DATA_ACCESS_TESTER_IDENTITY_NAME", id.name),
       SetVariable("NO_DATA_ACCESS_TOKEN_ENV", id.tokenEnv)]
    case None =>
      [DeleteVariable("NO_DATA_ACCESS_TESTER_CLIENT_ID"),
       DeleteVariable("NO_DATA_ACCESS_TESTER_PRINCIPAL_ID"),
       DeleteVariable("NO_DATA_ACCESS_TESTER_IDENTITY_NAME"),
       DeleteVariable("NO_DATA_ACCESS_TOKEN_ENV")]
  }

  function Plan(repo: Repo, target: Target, inp: Inputs, force: bool, listed: bool): seq<Write> {
    (if WritesSecrets(repo, target, force, listed) then SecretWrites(target) else [])
    + VariableWrites(target, inp)
  }

  /** The writes that go through when the run has a budget of `n`. */
  function Cut(writes: seq<Write>, n: nat): seq<Write> {
    writes[..if n < |writes| then n else |writes|]
  }

  /** A run and how it goes: `read` is whether the variable could be read. */
  datatype Attempt = Attempt(target: Target, inp: Inputs, force: bool, read: bool, listed: bool, writes: nat)

  function After(repo: Repo, a: Attempt): Repo {
    if a.read then ApplyAll(repo, Cut(Plan(repo, a.target, a.inp, a.force, a.listed), a.writes)) else repo
  }

  predicate Completes(repo: Repo, a: Attempt) {
    a.read && a.writes >= |Plan(repo, a.target, a.inp, a.force, a.listed)|
  }

  class Repository {
    var state: Repo

    constructor ()
      ensures state == Repo(map[], map[])
    {
      state := Repo(map[], map[]);
    }

    /** One gh command; it fails when the budget is used up. */
    method Send(w: Write, left: nat) returns (ok: bool, rest: nat)
      modifies this
      ensures ok <==> left > 0
      ensures state == if ok then Apply(old(state), w) else old(state)
      ensures rest == if ok then left - 1 else 0
    {
      if left == 0 {
        return false, 0;
      }
      state := Apply(state, w);
      return true, left - 1;
    }

    method SendAll(writes: seq<Write>, left: nat) returns (ok: bool, rest: nat)
      modifies this
      ensures ok <==> left >= |writes|
      ensures state == ApplyAll(old(state), Cut(writes, left))
      ensures rest == if ok then left - |writes| else 0
    {
      ok, rest := true, left;
      var i := 0;
      while i < |writes|
        invariant i <= |writes| && i <= left && ok && rest == left - i
        invariant state == ApplyAll(old(state), writes[..i])
      {
        var sent;
        sent, rest := Send(writes[i], rest);
        if !sent {
          return false, 0;
        }
        assert writes[..i + 1][..i] == writes[..i];
        i := i + 1;
      }
    }

    /** A dry run reads the same and lists its writes instead of sending them. */
    method WriteHandoff(a: Attempt, dryRun: bool) returns (ok: bool, planned: seq<Write>)
      modifies this
      ensures state == if dryRun then old(state) else After(old(state), a)
      ensures ok <==> if dryRun then a.read else Completes(old(state), a)
      ensures planned == if a.read then Plan(old(state), a.target, a.inp, a.force, a.listed) else []
    {
      planned := [];
      if !a.read {
        return false, planned;
      }
      var linked := LinkedClient(state);
      var isRehome := linked != "" && a.target.client != "" && linked != a.target.client;
      var secretPresent := a.listed && "AZURE_CLIENT_ID" in state.secrets;
      var secrets: seq<Write> := [];
      if ShouldWriteSecrets(secretPresent, isRehome, a.force) {
        secrets := SecretWrites(a.target);
      }
      planned := secrets + VariableWrites(a.target, a.inp);
      ok := true;
      if !dryRun {
        ok := SendBoth(secrets, VariableWrites(a.target, a.inp), a.writes);
      }
    }

    /** Secrets first; the variables only after every secret went through. */
    method SendBoth(secrets: seq<Write>, variables: seq<Write>, writes: nat) returns (ok: bool)
      modifies this
      ensures ok <==> writes >= |secrets + variables|
      ensures state == ApplyAll(old(state), Cut(secrets + variables, writes))
    {
      CutConcat(state, secrets, variables, writes);
      var left;
      ok, left := SendAll(secrets, writes);
      if ok {
        ok, left := SendAll(variables, left);
      }
    }
  }

  /** A budget that covers the first list goes on into the second. */
  lemma CutConcat(repo: Repo, a: seq<Write>, b: seq<Write>, n: nat)
    ensures ApplyAll(repo, Cut(a + b, n))
         == if n < |a| then ApplyAll(repo, Cut(a, n)) else ApplyAll(ApplyAll(repo, Cut(a, n)), Cut(b, n - |a|))
  {
    if n < |a| {
      assert (a + b)[..n] == a[..n];
    } else {
      assert Cut(a, n) == a;
      assert Cut(a + b, n) == a + Cut(b, n - |a|);
      ApplyConcat(repo, a, Cut(b, n - |a|));
    }
  }

  lemma {:induction false} ApplyConcat(repo: Repo, a: seq<Write>, b: seq<Write>)
    ensures ApplyAll(repo, a + b) == ApplyAll(ApplyAll(repo, a), b)
  {
    if b == [] {
      assert a + b == a;
    } else {
      ApplyConcat(repo, a, b[..|b| - 1]);
      assert (a + b)[..|a + b| - 1] == a + b[..|b| - 1];
    }
  }
}
