/** The secrets and the client variable of a repository stay in step. */
module HandoffProperties {
  import opened Text
  import opened Handoff

  const CLIENT := "AZURE_CLIENT_ID"
  const TENANT := "AZURE_TENANT_ID"
  const SUBSCRIPTION := "AZURE_SUBSCRIPTION_ID"

  /** Client ids are not blank and carry no outer white space. */
  ghost predicate Usable(t: Target) {
    t.client != "" && Strip(t.client) == t.client
  }

  /** White space around the client variable does not matter; without the variable no client is linked. */
  lemma LinkReads(repo: Repo, left: string, client: string, right: string)
    requires AllSpace(left) && AllSpace(right) && Trimmed(client) && client != ""
    ensures LinkedClient(repo.(variables := repo.variables[CLIENT := left + client + right])) == client
    ensures LinkedClient(repo.(variables := repo.variables - {CLIENT})) == ""
  {
    StripsPadding(left, client, right);
  }

  ghost predicate SecretsMatch(repo: Repo, t: Target) {
    && Has(repo.secrets, CLIENT, t.client)
    && Has(repo.secrets, TENANT, t.tenant)
    && Has(repo.secrets, SUBSCRIPTION, t.subscription)
  }

  ghost predicate LockStep(repo: Repo, t: Target) {
    SecretsMatch(repo, t) && LinkedClient(repo) == t.client
  }

  /** Where each client lives. */
  type Directory = map<string, Target>

  ghost predicate Known(dir: Directory, t: Target) {
    Usable(t) && t.client in dir && dir[t.client] == t
  }

  /** A client secret is only there beside a variable naming the identity all three secrets belong to. */
  ghost predicate Linked(repo: Repo, dir: Directory) {
    CLIENT in repo.secrets ==>
      var client := LinkedClient(repo);
      client != "" && client in dir && LockStep(repo, dir[client])
  }

  // ---- effect of a run, write by write ----

  lemma ApplyThree(repo: Repo, a: Write, b: Write, c: Write, n: nat)
    ensures ApplyAll(repo, Cut([a, b, c], n))
         == if n == 0 then repo
            else if n == 1 then Apply(repo, a)
            else if n == 2 then Apply(Apply(repo, a), b)
            else Apply(Apply(Apply(repo, a), b), c)
  {
    assert [a][..0] == [] && [a, b][..1] == [a] && [a, b, c][..2] == [a, b];
    assert ApplyAll(repo, [a]) == Apply(ApplyAll(repo, []), a);
    assert ApplyAll(repo, [a, b]) == Apply(ApplyAll(repo, [a]), b);
    assert ApplyAll(repo, [a, b, c]) == Apply(ApplyAll(repo, [a, b]), c);
    assert Cut([a, b, c], n) == if n == 0 then [] else if n == 1 then [a] else if n == 2 then [a, b] else [a, b, c];
  }

  /** Variable writes leave the secrets alone; the third one links the client. */
  lemma VariablesEffect(repo: Repo, t: Target, inp: Inputs, n: nat)
    requires Usable(t)
    ensures var after := ApplyAll(repo, Cut(VariableWrites(t, inp), n));
      && after.secrets == repo.secrets
      && LinkedClient(after) == if n < 3 then LinkedClient(repo) else t.client
  {
    CutConcat(repo, LeadingVariables(t, inp), TrailingVariables(inp), n);
    LeadingEffect(repo, t, inp, n);
    if n >= 3 {
      TrailingLeavesLink(inp);
      TrailingKeepsLink(ApplyAll(repo, Cut(LeadingVariables(t, inp), n)), Cut(TrailingVariables(inp), n - 3));
    }
  }

  lemma LeadingEffect(repo: Repo, t: Target, inp: Inputs, n: nat)
    requires Usable(t)
    ensures var after := ApplyAll(repo, Cut(LeadingVariables(t, inp), n));
      && after.secrets == repo.secrets
      && LinkedClient(after) == if n < 3 then LinkedClient(repo) else t.client
  {
    assert "K8S_DEPLOYMENT_NAME"[0] != CLIENT[0] && "K8S_CONTAINER_NAME"[0] != CLIENT[0];
    ApplyThree(repo, SetVariable("K8S_DEPLOYMENT_NAME", inp.deployment),
               SetVariable("K8S_CONTAINER_NAME", inp.container), SetVariable(CLIENT, t.client), n);
  }

  lemma TrailingLeavesLink(inp: Inputs)
    ensures forall i :: 0 <= i < |TrailingVariables(inp)| ==> LeavesLink(TrailingVariables(inp)[i])
  {
    assert CLIENT[1] == 'Z';
    forall w | w in NoDataVariables(inp.noData) ensures LeavesLink(w) {
      assert "NO_DATA"[1] == 'O';
    }
    assert forall w :: w in TrailingVariables(inp) ==> LeavesLink(w);
  }

  /** A write that changes neither a secret nor the client variable. */
  predicate LeavesLink(w: Write) {
    match w
    case SetSecret(_, _) => false
    case SetVariable(name, _) => name != CLIENT
    case DeleteVariable(name) => name != CLIENT
  }

  lemma {:induction false} TrailingKeepsLink(repo: Repo, writes: seq<Write>)
    requires forall i :: 0 <= i < |writes| ==> LeavesLink(writes[i])
    ensures ApplyAll(repo, writes).secrets == repo.secrets
    ensures LinkedClient(ApplyAll(repo, writes)) == LinkedClient(repo)
  {
    if writes != [] {
      TrailingKeepsLink(repo, writes[..|writes| - 1]);
      assert LeavesLink(writes[|writes| - 1]);
    }
  }

  /** The first `n` of the three secrets, written over those the repository had. */
  function SecretsAfter(secrets: map<string, string>, t: Target, n: nat): map<string, string> {
    if n == 0 then secrets
    else if n == 1 then secrets[CLIENT := t.client]
    else if n == 2 then secrets[CLIENT := t.client][TENANT := t.tenant]
    else secrets[CLIENT := t.client][TENANT := t.tenant][SUBSCRIPTION := t.subscription]
  }

  lemma SecretsEffect(repo: Repo, t: Target, n: nat)
    ensures ApplyAll(repo, Cut(SecretWrites(t), n)) == Repo(SecretsAfter(repo.secrets, t, n), repo.variables)
  {
    ApplyThree(repo, SetSecret(CLIENT, t.client), SetSecret(TENANT, t.tenant),
               SetSecret(SUBSCRIPTION, t.subscription), n);
  }

  ghost predicate Has(secrets: map<string, string>, name: string, value: string) {
    name in secrets && secrets[name] == value
  }

  /** Which secrets are the target's after `n` writes; the others are as before. */
  lemma SecretsAfterHold(secrets: map<string, string>, t: Target, n: nat)
    ensures var r := SecretsAfter(secrets, t, n);
      && (if n >= 1 then Has(r, CLIENT, t.client) else r == secrets)
      && (n >= 2 ==> Has(r, TENANT, t.tenant))
      && (n < 2 ==> forall v :: Has(r, TENANT, v) <==> Has(secrets, TENANT, v))
      && (n >= 3 ==> Has(r, SUBSCRIPTION, t.subscription))
      && (n < 3 ==> forall v :: Has(r, SUBSCRIPTION, v) <==> Has(secrets, SUBSCRIPTION, v))
  {
    assert CLIENT[6] != TENANT[6] && CLIENT[6] != SUBSCRIPTION[6] && TENANT[6] != SUBSCRIPTION[6];
  }

  /** What a readable run does to the secrets and to the link, whatever it is cut off at. */
  lemma AttemptEffect(repo: Repo, a: Attempt)
    requires a.read && Usable(a.target)
    ensures var writes := WritesSecrets(repo, a.target, a.force, a.listed);
      && After(repo, a).secrets == (if writes then SecretsAfter(repo.secrets, a.target, a.writes) else repo.secrets)
      && LinkedClient(After(repo, a)) ==
           if a.writes < (if writes then 6 else 3) then LinkedClient(repo) else a.target.client
  {
    if WritesSecrets(repo, a.target, a.force, a.listed) {
      CutConcat(repo, SecretWrites(a.target), VariableWrites(a.target, a.inp), a.writes);
      SecretsEffect(repo, a.target, a.writes);
      if a.writes >= 3 {
        VariablesEffect(ApplyAll(repo, Cut(SecretWrites(a.target), a.writes)), a.target, a.inp, a.writes - 3);
      }
    } else {
      assert Plan(repo, a.target, a.inp, a.force, a.listed) == VariableWrites(a.target, a.inp);
      VariablesEffect(repo, a.target, a.inp, a.writes);
    }
  }

  lemma CompletedEffect(repo: Repo, a: Attempt)
    requires Completes(repo, a) && Usable(a.target)
    ensures LinkedClient(After(repo, a)) == a.target.client
    ensures if WritesSecrets(repo, a.target, a.force, a.listed) then SecretsMatch(After(repo, a), a.target)
      else After(repo, a).secrets == repo.secrets
  {
    AttemptEffect(repo, a);
    SecretsAfterHold(repo.secrets, a.target, a.writes);
  }

  // ---- completed handoffs ----

  /** A completed handoff is in lock-step exactly when it rewrote the secrets or they already matched. */
  lemma LockStepExactly(repo: Repo, a: Attempt)
    requires Completes(repo, a) && Usable(a.target)
    ensures LockStep(After(repo, a), a.target)
       <==> WritesSecrets(repo, a.target, a.force, a.listed) || SecretsMatch(repo, a.target)
  {
    CompletedEffect(repo, a);
  }

  /**
   From a linked repository every completed handoff, re-home or not, ends in lock-step
   with its target; losing the client secret outside keeps the repository linked.
   */
  lemma CompletedHandoff(repo: Repo, dir: Directory, a: Attempt)
    requires Linked(repo, dir) && Known(dir, a.target) && Completes(repo, a)
    ensures LockStep(After(repo, a), a.target) && Linked(After(repo, a), dir)
    ensures Linked(repo.(secrets := repo.secrets - {CLIENT}), dir)
  {
    LockStepExactly(repo, a);
  }

  // ---- interrupted handoffs ----

  /**
   After a first handoff cut off at any write, the next completed one, to whatever identity, is
   in lock-step exactly when nothing was written, it repeats a target whose three secrets were,
   the variable was written, or it is forced or sees no secret.
   */
  lemma FirstHandoffHealsExactly(repo: Repo, dir: Directory, a: Attempt, b: Attempt)
    requires LinkedClient(repo) == ""
    requires CLIENT !in repo.secrets && TENANT !in repo.secrets && SUBSCRIPTION !in repo.secrets
    requires Known(dir, a.target) && Known(dir, b.target) && a.read && Completes(After(repo, a), b)
    ensures LockStep(After(After(repo, a), b), b.target) <==>
      || a.writes == 0 || (a.writes >= 3 && b.target == a.target) || a.writes >= 6
      || b.force || !b.listed
  {
    AttemptEffect(repo, a);
    SecretsAfterHold(repo.secrets, a.target, a.writes);
    LockStepExactly(After(repo, a), b);
  }

  /**
   After a re-home cut off at any write, the next completed handoff, to whatever identity, is in
   lock-step exactly when nothing was written, the variable had moved, it goes elsewhere than
   where the repository came from, or it is forced or sees no secret.
   */
  lemma RehomeHealsExactly(repo: Repo, origin: Target, dir: Directory, a: Attempt, b: Attempt)
    requires Known(dir, origin) && Known(dir, a.target) && Known(dir, b.target)
    requires LockStep(repo, origin) && a.read && a.target.client != origin.client
    requires Completes(After(repo, a), b)
    ensures LockStep(After(After(repo, a), b), b.target) <==>
      a.writes == 0 || a.writes >= 6 || b.target.client != origin.client || b.force || !b.listed
  {
    AttemptEffect(repo, a);
    SecretsAfterHold(repo.secrets, a.target, a.writes);
    LockStepExactly(After(repo, a), b);
  }

  // ---- histories ----

  /** What a completed handoff leaves, also after the client secret was lost. */
  ghost predicate Settled(repo: Repo, dir: Directory) {
    var client := LinkedClient(repo);
    && (client == "" ==> CLIENT !in repo.secrets)
    && (client != "" ==> client in dir && Known(dir, dir[client]) && Held(repo, dir[client]))
  }

  /** Tenant and subscription belong to the target, and so does the client secret if it is there. */
  ghost predicate Held(repo: Repo, t: Target) {
    && Has(repo.secrets, TENANT, t.tenant)
    && Has(repo.secrets, SUBSCRIPTION, t.subscription)
    && (CLIENT in repo.secrets ==> repo.secrets[CLIENT] == t.client)
  }

  datatype Event = Hand(a: Attempt) | LoseClientSecret

  function Next(repo: Repo, e: Event): Repo {
    match e
    case Hand(a) => After(repo, a)
    case LoseClientSecret => repo.(secrets := repo.secrets - {CLIENT})
  }

  /**
   What earlier cut-offs left: nothing; a re-home that has not moved the variable; or a first
   handoff without a variable, with all three secrets written or not.
   */
  datatype Phase = Steady | Moving | First(target: Target, written: bool)

  function NextPhase(repo: Repo, phase: Phase, e: Event): Phase {
    match e
    case LoseClientSecret => if phase.First? then Steady else phase
    case Hand(a) =>
      var linked := LinkedClient(repo);
      var writes := WritesSecrets(repo, a.target, a.force, a.listed);
      if !a.read || a.writes == 0 then phase
      else if IsRehome(linked, a.target.client) then if a.writes >= 6 then Steady else Moving
      else if linked != "" then if writes && a.writes >= 3 then Steady else phase
      else if writes then if a.writes >= 6 then Steady else First(a.target, a.writes >= 3)
      else if a.writes >= 3 then Steady else phase
  }

  /**
   Which handoffs may follow: any that is forced or finds no client secret; after a cut-off
   re-home any that leaves the identity the repository is linked to; after a cut-off first
   handoff the same one again, if its secrets were written.
   */
  ghost predicate Disciplined(repo: Repo, phase: Phase, dir: Directory, e: Event) {
    e.Hand? ==>
      && Known(dir, e.a.target)
      && (e.a.force || !e.a.listed || CLIENT !in repo.secrets
          || match phase
             case Steady => true
             case Moving => e.a.target.client != LinkedClient(repo)
             case First(target, written) => written && e.a.target == target)
  }

  ghost predicate Consistent(repo: Repo, phase: Phase, dir: Directory) {
    match phase
    case Steady => Settled(repo, dir)
    case Moving => LinkedClient(repo) != ""
    case First(target, written) => LinkedClient(repo) == "" && (written ==> SecretsMatch(repo, target))
  }

  lemma OthersKept(secrets: map<string, string>, name: string)
    requires name != CLIENT
    ensures forall v :: Has(secrets - {CLIENT}, name, v) <==> Has(secrets, name, v)
  {
  }

  lemma LostSecretKeepsConsistent(repo: Repo, phase: Phase, dir: Directory)
    requires Consistent(repo, phase, dir)
    ensures Consistent(Next(repo, LoseClientSecret), NextPhase(repo, phase, LoseClientSecret), dir)
  {
    assert CLIENT[6] != TENANT[6] && CLIENT[6] != SUBSCRIPTION[6];
    OthersKept(repo.secrets, TENANT);
    OthersKept(repo.secrets, SUBSCRIPTION);
    assert LinkedClient(Next(repo, LoseClientSecret)) == LinkedClient(repo);
  }

  /** A run against the linked target: at every cut the repository stays settled on it. */
  lemma SameTargetStaysSettled(repo: Repo, dir: Directory, a: Attempt)
    requires Settled(repo, dir) && Known(dir, a.target) && a.read && LinkedClient(repo) == a.target.client
    ensures Settled(After(repo, a), dir) && LinkedClient(After(repo, a)) == a.target.client
  {
    AttemptEffect(repo, a);
    SecretsAfterHold(repo.secrets, a.target, a.writes);
  }

  /** A re-home: either the variable has moved and all secrets with it, or it has not moved. */
  lemma RehomeMovesAtOnce(repo: Repo, dir: Directory, a: Attempt)
    requires Known(dir, a.target) && a.read && LinkedClient(repo) != "" && LinkedClient(repo) != a.target.client
    ensures LinkedClient(After(repo, a)) == LinkedClient(repo)
         || (LockStep(After(repo, a), a.target) && Settled(After(repo, a), dir))
    ensures Completes(repo, a) ==> LockStep(After(repo, a), a.target)
  {
    AttemptEffect(repo, a);
    SecretsAfterHold(repo.secrets, a.target, a.writes);
  }

  /** A disciplined handoff that completes has written the secrets or found its own. */
  lemma CompletedInStep(repo: Repo, phase: Phase, dir: Directory, a: Attempt)
    requires Consistent(repo, phase, dir) && Disciplined(repo, phase, dir, Hand(a)) && Completes(repo, a)
    ensures LockStep(After(repo, a), a.target) && Settled(After(repo, a), dir)
  {
    LockStepExactly(repo, a);
  }

  /** A handoff to the linked identity after a cut-off re-home. */
  lemma MovingBack(repo: Repo, dir: Directory, a: Attempt)
    requires Known(dir, a.target) && a.read && LinkedClient(repo) == a.target.client
    requires WritesSecrets(repo, a.target, a.force, a.listed)
    ensures LinkedClient(After(repo, a)) == a.target.client
    ensures a.writes >= 3 ==> Settled(After(repo, a), dir)
  {
    AttemptEffect(repo, a);
    SecretsAfterHold(repo.secrets, a.target, a.writes);
  }

  /** A handoff to a repository without a link. */
  lemma FirstSteps(repo: Repo, dir: Directory, a: Attempt)
    requires Known(dir, a.target) && a.read && LinkedClient(repo) == ""
    requires WritesSecrets(repo, a.target, a.force, a.listed) || SecretsMatch(repo, a.target)
    ensures var writes := WritesSecrets(repo, a.target, a.force, a.listed);
      && (a.writes >= (if writes then 6 else 3) ==> Settled(After(repo, a), dir))
      && (a.writes < (if writes then 6 else 3) ==> LinkedClient(After(repo, a)) == "")
      && (a.writes >= 3 || !writes ==> SecretsMatch(After(repo, a), a.target))
  {
    AttemptEffect(repo, a);
    SecretsAfterHold(repo.secrets, a.target, a.writes);
  }

  lemma NothingSent(repo: Repo, a: Attempt)
    requires !a.read || a.writes == 0
    ensures After(repo, a) == repo
  {
    if a.read {
      assert Cut(Plan(repo, a.target, a.inp, a.force, a.listed), 0) == [];
    }
  }

  lemma HandKeepsConsistent(repo: Repo, phase: Phase, dir: Directory, a: Attempt)
    requires Consistent(repo, phase, dir) && Disciplined(repo, phase, dir, Hand(a))
    ensures Consistent(After(repo, a), NextPhase(repo, phase, Hand(a)), dir)
  {
    var linked := LinkedClient(repo);
    if !a.read || a.writes == 0 {
      NothingSent(repo, a);
    } else if IsRehome(linked, a.target.client) {
      RehomeMovesAtOnce(repo, dir, a);
      AttemptEffect(repo, a);
    } else if linked == "" {
      FirstSteps(repo, dir, a);
    } else if phase.Steady? {
      SameTargetStaysSettled(repo, dir, a);
    } else {
      MovingBack(repo, dir, a);
    }
  }

  lemma EventKeepsConsistent(repo: Repo, phase: Phase, dir: Directory, e: Event)
    requires Consistent(repo, phase, dir) && Disciplined(repo, phase, dir, e)
    ensures Consistent(Next(repo, e), NextPhase(repo, phase, e), dir)
    ensures e.Hand? && Completes(repo, e.a) ==> LockStep(Next(repo, e), e.a.target)
  {
    match e
    case LoseClientSecret => LostSecretKeepsConsistent(repo, phase, dir);
    case Hand(a) =>
      HandKeepsConsistent(repo, phase, dir, a);
      if Completes(repo, a) {
        CompletedInStep(repo, phase, dir, a);
      }
  }

  /** The repository after a list of events, and what cut-offs have left. */
  function History(repo: Repo, events: seq<Event>): (Repo, Phase) {
    if events == [] then (repo, Steady)
    else
      var (before, phase) := History(repo, events[..|events| - 1]);
      var e := events[|events| - 1];
      (Next(before, e), NextPhase(before, phase, e))
  }

  ghost predicate DisciplinedHistory(repo: Repo, dir: Directory, events: seq<Event>) {
    forall i :: 0 <= i < |events| ==>
      var (before, phase) := History(repo, events[..i]);
      Disciplined(before, phase, dir, events[i])
  }

  /**
   Over any history of handoffs cut off at any write and lost client secrets, in which a
   handoff after a cut-off meets its exact condition, each completed handoff ends with
   secrets and variable equal to its target.
   */
  lemma {:induction false} HistoryStaysInStep(repo: Repo, dir: Directory, events: seq<Event>)
    requires Settled(repo, dir) && DisciplinedHistory(repo, dir, events)
    ensures Consistent(History(repo, events).0, History(repo, events).1, dir)
    ensures
      && events != []
      && events[|events| - 1].Hand?
      && Completes(History(repo, events[..|events| - 1]).0, events[|events| - 1].a)
      ==> LockStep(History(repo, events).0, events[|events| - 1].a.target)
  {
    if events != [] {
      var front, last := events[..|events| - 1], events[|events| - 1];
      forall i | 0 <= i < |front|
        ensures var (before, phase) := History(repo, front[..i]); Disciplined(before, phase, dir, front[i])
      {
        assert front[..i] == events[..i];
      }
      HistoryStaysInStep(repo, dir, front);
      EventKeepsConsistent(History(repo, front).0, History(repo, front).1, dir, last);
    }
  }
}
