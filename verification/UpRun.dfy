/** What one `spi up` does to the group, in terms of the group, its options and the answers it gets. */
module UpRun {
  import opened Text
  import opened ResourceGroup

  // ---- how far a run gets ----

  /** The run has a suffix to put on names: its own tag, or a fresh one unless a legacy vault is seen. */
  predicate CarriesSuffix(g: Group, u: Up) {
    u.named && (ReadSuffix(g, u.probes.suffixRead).Some? || !(u.probes.vaultList && LegacyVault in g.resources))
  }

  /** How many writes resolving the suffix takes. */
  function SuffixWrites(g: Group, u: Up): nat {
    if u.named && ReadSuffix(g, u.probes.suffixRead).None?
       && ((u.probes.vaultList && LegacyVault in g.resources) || (u.probes.existsForSuffix && g.present))
    then 1
    else 0
  }

  /** How many writes resolving the mode takes: a real run tags an existing group that has none. */
  function ModeWrites(g: Group, u: Up): nat {
    if g.present && ReadMode(g).Unset? && !u.dryRun then 1 else 0
  }

  /** The mode can be resolved, and the request does not contradict it. */
  predicate ResolvesMode(g: Group, u: Up) {
    && u.probes.modeRead
    && match ReadMode(g)
       case Unset => UntaggedMode(g, u).Some?
       case Mode(enabled) => u.request != Some(!enabled)
       case Unreadable => false
  }

  /** The run gets as far as creating the group. */
  predicate ReachesCreate(g: Group, u: Up) {
    u.writes >= SuffixWrites(g, u) + ModeWrites(g, u) && ResolvesMode(g, u) && u.configured
  }

  /** The create step writes: the group is new, or not found. */
  function CreateWrites(g: Group, u: Up): nat {
    if g.present && u.probes.existsForCreate then 0 else 1
  }

  /** How many writes come before the main template once the group is there. */
  function LaterWrites(g: Group, u: Up): nat {
    (if Cluster in g.resources && u.clusterReady then 0 else 1) + (if u.softDeletedVault then 1 else 0)
  }

  /** The run leaves a record of the main template, whether that succeeds or fails half-way. */
  predicate Deploys(g: Group, u: Up) {
    var before := SuffixWrites(g, u) + ModeWrites(g, u) + CreateWrites(g, u) + LaterWrites(g, u);
    && !u.dryRun && ReachesCreate(g, u)
    && (u.writes > before || (u.writes == before && u.recorded))
  }

  // ---- stage by stage ----

  lemma StagesStep(g: Group, u: Up, n: nat)
    requires 0 < n <= |STAGES|
    ensures var r := Stages(g, u, n - 1);
      Stages(g, u, n) == if r.status.Running? then StageOf(STAGES[n - 1], u, r) else r
  {}

  lemma FirstStage(g: Group, u: Up)
    ensures Stages(g, u, 1) == SuffixStage(u, Run(g, "", false, u.writes, Running))
  {
    StagesStep(g, u, 1);
    assert STAGES[0] == ResolveSuffix;
  }

  lemma SuffixStageKeepsTheRest(u: Up, r: Run)
    ensures var h := SuffixStage(u, r).group;
      h.resources == r.group.resources && h.deployments == r.group.deployments && ReadMode(h) == ReadMode(r.group)
  {}

  lemma ModeStageKeepsOthers(u: Up, r: Run)
    ensures var after := ModeStage(u, r);
      && after.group.present == r.group.present && after.group.resources == r.group.resources
      && after.group.deployments == r.group.deployments && after.suffix == r.suffix
      && (forall name :: name != InsightsMode ==>
            (name in after.group.tags <==> name in r.group.tags)
            && (name in r.group.tags ==> after.group.tags[name] == r.group.tags[name]))
      && (!r.group.present ==> after.group == r.group)
  {}

  lemma SuffixResolved(u: Up, r: Run)
    requires r.status.Running? && r.writes == u.writes && r.suffix == ""
    ensures var g, after := r.group, SuffixStage(u, r);
      && (after.status.Running? <==> u.writes >= SuffixWrites(g, u))
      && after.group.present == g.present && after.group.resources == g.resources
      && after.group.deployments == g.deployments
      && ReadMode(after.group) == ReadMode(g)
      && (forall name :: name != NameSuffix ==>
            (name in after.group.tags <==> name in g.tags)
            && (name in g.tags ==> after.group.tags[name] == g.tags[name]))
      && (after.status.Running? ==> after.writes == u.writes - SuffixWrites(g, u))
      && (after.suffix != "" ==> CarriesSuffix(g, u))
      && (u.minted != "" && CarriesSuffix(g, u) ==> after.suffix != "")
  {}

  lemma ModeResolved(u: Up, r: Run)
    requires r.status.Running?
    ensures var after := ModeStage(u, r);
      && (after.status.Running? <==> ResolvesMode(r.group, u) && r.writes >= ModeWrites(r.group, u))
      && (after.status.Running? ==> after.writes == r.writes - ModeWrites(r.group, u))
      && (ReadMode(r.group).Mode? ==> after.group == r.group)
      && (ReadMode(r.group).Mode? && after.status.Running? ==> after.mode == ReadMode(r.group).enabled)
  {}

  /** Resolving the mode looks at nothing of the group but its mode tag and its contents. */
  lemma SameModeInputs(g: Group, h: Group, u: Up)
    requires g.present == h.present && g.resources == h.resources && g.deployments == h.deployments
    requires ReadMode(g) == ReadMode(h)
    ensures ResolvesMode(g, u) == ResolvesMode(h, u) && ModeWrites(g, u) == ModeWrites(h, u)
  {
    assert InferredMode(g, u.probes) == InferredMode(h, u.probes);
  }

  /** Whether a run arrives at the create step, and what it brings. */
  lemma ArrivalAtCreate(g: Group, u: Up)
    ensures var r1, r := Stages(g, u, 1), Stages(g, u, 3);
      && (r.status.Running? <==> ReachesCreate(g, u))
      && r.group.present == g.present
      && r.group.resources == g.resources && r.group.deployments == g.deployments
      && (forall name :: name != NameSuffix && name != InsightsMode ==>
            (name in r.group.tags <==> name in g.tags)
            && (name in g.tags ==> r.group.tags[name] == g.tags[name]))
      && (NameSuffix in r.group.tags <==> NameSuffix in r1.group.tags)
      && (NameSuffix in r1.group.tags ==> r.group.tags[NameSuffix] == r1.group.tags[NameSuffix])
      && (ReadMode(g).Mode? ==> ReadMode(r.group) == ReadMode(g))
      && (r.status.Running? && ReadMode(g).Mode? ==> r.mode == ReadMode(g).enabled)
      && (r.status.Running? ==> r.writes == u.writes - SuffixWrites(g, u) - ModeWrites(g, u))
      && (r.status.Running? ==> r.suffix == r1.suffix)
      && (r1.suffix != "" ==> CarriesSuffix(g, u))
      && (u.minted != "" && CarriesSuffix(g, u) ==> r1.suffix != "")
  {
    var r1 := Stages(g, u, 1);
    FirstStage(g, u);
    SuffixResolved(u, Run(g, "", false, u.writes, Running));
    SameModeInputs(g, r1.group, u);
    StagesStep(g, u, 2);
    if r1.status.Running? {
      ModeResolved(u, r1);
      ModeStageKeepsOthers(u, r1);
    }
    StagesStep(g, u, 3);
    assert STAGES[1] == ResolveMode && STAGES[2] == Configure;
  }

  lemma StoppedBeforeCreate(g: Group, u: Up)
    requires !ReachesCreate(g, u)
    ensures After(g, u) == Stages(g, u, 3).group
  {
    ArrivalAtCreate(g, u);
    StoppedStays(g, u, 3, |STAGES|);
  }

  /** The suffix tag after the create step. */
  lemma CreatedSuffix(u: Up, r: Run)
    requires r.status.Running? && r.suffix != ""
    ensures var h := CreateStage(u, r).group;
      if (u.probes.existsForCreate && r.group.present) || r.writes == 0 then h == r.group
      else h.present && NameSuffix in h.tags && h.tags[NameSuffix] == r.suffix
  {
    var tags := CreateTags(u.dryRun, r.mode, r.suffix);
    assert NameSuffix in tags && tags[NameSuffix] == r.suffix;
  }

  lemma LaterStage(u: Up, r: Run, n: nat)
    requires 4 <= n < 7 && r.status.Running?
    ensures var after := StageOf(STAGES[n], u, r);
      && after.group.present == r.group.present && after.group.tags == r.group.tags && after.mode == r.mode
      && (forall d :: d in after.group.deployments ==> d in r.group.deployments || d.enabled == Some(r.mode))
      && (u.dryRun ==> after.group == r.group)
  {}

  lemma {:induction false} LaterStagesKeepTags(g: Group, u: Up, from: nat, n: nat)
    requires 4 <= from <= n <= |STAGES|
    ensures Stages(g, u, n).group.present == Stages(g, u, from).group.present
    ensures Stages(g, u, n).group.tags == Stages(g, u, from).group.tags
  {
    if n > from {
      LaterStagesKeepTags(g, u, from, n - 1);
      StagesStep(g, u, n);
      if Stages(g, u, n - 1).status.Running? {
        LaterStage(u, Stages(g, u, n - 1), n - 1);
      }
    }
  }

  lemma StageGrows(u: Up, r: Run, n: nat)
    requires n < |STAGES| && r.status.Running?
    ensures r.group.resources <= StageOf(STAGES[n], u, r).group.resources
  {
    match n
    case 0 => SuffixStageKeepsTheRest(u, r);
    case 1 => ModeStageKeepsOthers(u, r);
    case _ =>
  }

  lemma {:induction false} ResourcesGrow(g: Group, u: Up, from: nat, n: nat)
    requires from <= n <= |STAGES|
    ensures Stages(g, u, from).group.resources <= Stages(g, u, n).group.resources
  {
    if n > from {
      ResourcesGrow(g, u, from, n - 1);
      StagesStep(g, u, n);
      if Stages(g, u, n - 1).status.Running? {
        StageGrows(u, Stages(g, u, n - 1), n - 1);
      }
    }
  }

  // ---- the deployment ----

  /** From the create step on: what the three templates make of the deployments. */
  lemma TailDeploys(g: Group, u: Up)
    requires Stages(g, u, 4).status.Running? && !u.dryRun
    ensures var r := Stages(g, u, 4);
      var before := LaterWrites(r.group, u);
      After(g, u).deployments == r.group.deployments
        + if r.writes > before || (r.writes == before && u.recorded) then [MainDeployment(r.mode, r.suffix)] else []
  {
    var r4, r5, r6 := Stages(g, u, 4), Stages(g, u, 5), Stages(g, u, 6);
    assert STAGES[4] == DeployCluster && STAGES[5] == RecoverVault && STAGES[6] == DeployMain;
    assert r5 == StageOf(DeployCluster, u, r4) by { StagesStep(g, u, 5); }
    ClusterAndVault(u, r4);
    StagesStep(g, u, 6);
    StagesStep(g, u, 7);
    if r6.status.Running? {
      MainDeploys(u, r6);
    }
  }

  lemma ClusterAndVault(u: Up, r: Run)
    requires r.status.Running? && !u.dryRun
    ensures var r5 := StageOf(DeployCluster, u, r);
      var r6 := if r5.status.Running? then StageOf(RecoverVault, u, r5) else r5;
      && r6.group.deployments == r.group.deployments && r6.mode == r.mode && r6.suffix == r.suffix
      && (r6.status.Running? <==> r.writes >= LaterWrites(r.group, u))
      && (r6.status.Running? ==> r6.writes == r.writes - LaterWrites(r.group, u))
  {}

  lemma MainDeploys(u: Up, r: Run)
    requires r.status.Running? && !u.dryRun
    ensures StageOf(DeployMain, u, r).group.deployments == r.group.deployments
      + if r.writes > 0 || u.recorded then [MainDeployment(r.mode, r.suffix)] else []
  {}

  lemma CreateKeepsContents(u: Up, r: Run)
    requires r.status.Running?
    ensures var after, need := CreateStage(u, r), CreateWrites(r.group, u);
      && after.group.resources == r.group.resources && after.group.deployments == r.group.deployments
      && after.mode == r.mode && after.suffix == r.suffix
      && (after.status.Running? <==> r.writes >= need)
      && (after.status.Running? ==> after.writes == r.writes - need)
  {}

  /** A run adds one deployment, under the suffix it resolved first, exactly when it deploys. */
  lemma DeploysExactly(g: Group, u: Up) returns (mode: bool)
    ensures After(g, u).deployments ==
      g.deployments + if Deploys(g, u) then [MainDeployment(mode, Stages(g, u, 1).suffix)] else []
  {
    var r := Stages(g, u, 3);
    mode := r.mode;
    ArrivalAtCreate(g, u);
    if !ReachesCreate(g, u) {
      StoppedBeforeCreate(g, u);
    } else if u.dryRun {
      DryRunDeploysNothing(g, u, |STAGES|);
    } else {
      StagesStep(g, u, 4);
      assert STAGES[3] == CreateGroup;
      CreateKeepsContents(u, r);
      if Stages(g, u, 4).status.Running? {
        TailDeploys(g, u);
      } else {
        StoppedStays(g, u, 4, |STAGES|);
      }
    }
  }

  lemma {:induction false} DryRunDeploysNothing(g: Group, u: Up, n: nat)
    requires u.dryRun && n <= |STAGES|
    ensures Stages(g, u, n).group.resources == g.resources && Stages(g, u, n).group.deployments == g.deployments
  {
    if n > 0 {
      DryRunDeploysNothing(g, u, n - 1);
    }
  }
}
