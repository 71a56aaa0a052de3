/** What any history of `spi up` runs keeps about the suffix of resource names, and about tags of others. */
module SuffixHistory {
  import opened Text
  import opened ResourceGroup
  import opened UpRun
  import opened EnvironmentHistory

  /** Minted suffixes are hex digits. */
  ghost predicate WellFormed(suffix: string) {
    suffix != "" && suffix != "None" && Trimmed(suffix)
  }

  ghost predicate Tagged(g: Group, suffix: string) {
    g.present && NameSuffix in g.tags && g.tags[NameSuffix] == suffix
  }

  /** White space around the suffix in its tag does not matter; blank, or the word None, is no suffix. */
  lemma SuffixTagReads(left: string, core: string, right: string)
    requires AllSpace(left) && AllSpace(right) && Trimmed(core)
    ensures SuffixOf(left + core + right) == if core == "" || core == "None" then None else Some(core)
  {
    if core == "" {
      var s := left + core + right;
      assert forall i :: 0 <= i < |s| ==> s[i] == if i < |left| then left[i] else right[i - |left|];
      BlankExactly(s);
    } else {
      StripsPadding(left, core, right);
    }
  }

  /** Once anything was created the suffix tag is set, and every main deployment used it. */
  ghost predicate SuffixFixed(g: Group) {
    && LegacyVault !in g.resources
    && (!g.present ==> g.tags == map[] && g.resources == {} && g.deployments == [])
    && (NameSuffix in g.tags ==> WellFormed(g.tags[NameSuffix]))
    && (g.resources != {} || g.deployments != [] ==> NameSuffix in g.tags)
    && (forall d :: d in g.deployments ==> Tagged(g, d.suffix))
  }

  ghost predicate SameSuffix(g: Group, h: Group) {
    forall suffix :: Tagged(g, suffix) ==> Tagged(h, suffix)
  }

  ghost predicate Mints(u: Up) {
    u.named && WellFormed(u.minted)
  }

  /**
   The queries whose failure is silent: reading the tag of a tagged group, and for an untagged
   one the first of the two `exists` queries, unless the second fails as well and creates the group anew.
   */
  predicate AsksSuffix(g: Group, u: Up) {
    g.present ==>
      if NameSuffix in g.tags then u.probes.suffixRead else u.probes.existsForSuffix || !u.probes.existsForCreate
  }

  ghost predicate OnSuffix(start: Group, u: Up, r: Run, n: nat) {
    && SuffixFixed(r.group) && SameSuffix(start, r.group)
    && (n >= 1 && r.status.Running? ==> WellFormed(r.suffix))
    && (n >= 1 && r.status.Running? && r.group.present && NameSuffix in r.group.tags ==> Tagged(r.group, r.suffix))
    && (n >= 1 && r.status.Running? && r.group.present && NameSuffix !in r.group.tags ==> !u.probes.existsForCreate)
    && (n >= 4 && r.status.Running? ==> Tagged(r.group, r.suffix))
  }

  lemma SuffixStageOnSuffix(start: Group, u: Up, r: Run)
    requires OnSuffix(start, u, r, 0) && r.status.Running? && Mints(u) && AsksSuffix(r.group, u)
    ensures OnSuffix(start, u, StageOf(ResolveSuffix, u, r), 1)
  {
  }

  lemma ModeStageOnSuffix(start: Group, u: Up, r: Run)
    requires OnSuffix(start, u, r, 1) && r.status.Running?
    ensures OnSuffix(start, u, StageOf(ResolveMode, u, r), 2)
  {
    ModeStageKeepsOthers(u, r);
  }

  lemma CreateStageOnSuffix(start: Group, u: Up, r: Run)
    requires OnSuffix(start, u, r, 3) && r.status.Running?
    ensures OnSuffix(start, u, StageOf(CreateGroup, u, r), 4)
  {
    var tags := CreateTags(u.dryRun, r.mode, r.suffix);
    assert NameSuffix in tags && tags[NameSuffix] == r.suffix;
  }

  lemma LaterStageOnSuffix(start: Group, u: Up, r: Run, n: nat)
    requires 4 <= n < 7 && OnSuffix(start, u, r, n) && r.status.Running?
    ensures OnSuffix(start, u, StageOf(STAGES[n], u, r), n + 1)
  {
    LaterStage(u, r, n);
    LaterStageKeepsSuffix(u, r, n);
  }

  lemma LaterStageKeepsSuffix(u: Up, r: Run, n: nat)
    requires 4 <= n < 7 && r.status.Running? && r.suffix != "" && LegacyVault !in r.group.resources
    ensures var after := StageOf(STAGES[n], u, r);
      && after.suffix == r.suffix && LegacyVault !in after.group.resources
      && (forall d :: d in after.group.deployments ==> d in r.group.deployments || d.suffix == r.suffix)
  {
    match n
    case 4 =>
    case 5 =>
    case _ =>
  }

  lemma StageOnSuffix(start: Group, u: Up, r: Run, n: nat)
    requires n < 7 && OnSuffix(start, u, r, n) && r.status.Running?
    requires n == 0 ==> Mints(u) && AsksSuffix(r.group, u)
    ensures OnSuffix(start, u, StageOf(STAGES[n], u, r), n + 1)
  {
    match n
    case 0 => SuffixStageOnSuffix(start, u, r);
    case 1 => ModeStageOnSuffix(start, u, r);
    case 2 =>
    case 3 => CreateStageOnSuffix(start, u, r);
    case _ => LaterStageOnSuffix(start, u, r, n);
  }

  lemma {:induction false} StagesOnSuffix(g: Group, u: Up, n: nat)
    requires n <= |STAGES| && SuffixFixed(g) && Mints(u) && AsksSuffix(g, u)
    ensures OnSuffix(g, u, Stages(g, u, n), n)
  {
    if n > 0 {
      StagesOnSuffix(g, u, n - 1);
      StagesStep(g, u, n);
      var r := Stages(g, u, n - 1);
      if r.status.Running? {
        StageOnSuffix(g, u, r, n - 1);
      }
    }
  }

  // ---- what becomes of the tag in one run ----

  /** A run that does not read the suffix tag, and sees no legacy vault, leaves the tag as it is. */
  predicate LeavesTag(g: Group, u: Up) {
    if u.probes.existsForSuffix then u.writes == 0
    else u.probes.existsForCreate || !ReachesCreate(g, u) || u.writes == ModeWrites(g, u)
  }

  ghost predicate SameTag(g: Group, h: Group) {
    && (NameSuffix in h.tags <==> NameSuffix in g.tags)
    && (NameSuffix in g.tags ==> h.tags[NameSuffix] == g.tags[NameSuffix])
  }

  /** Otherwise it puts its own fresh suffix there. */
  lemma UnreadTagExactly(g: Group, u: Up)
    requires g.present && Mints(u) && ReadSuffix(g, u.probes.suffixRead).None?
    requires !(u.probes.vaultList && LegacyVault in g.resources)
    ensures After(g, u).present
    ensures if LeavesTag(g, u) then SameTag(g, After(g, u)) else Tagged(After(g, u), u.minted)
    ensures Stages(g, u, 1).suffix == u.minted
  {
    UnreadFirstStage(g, u);
    ArrivalAtCreate(g, u);
    if ReachesCreate(g, u) {
      CreatedSuffix(u, Stages(g, u, 3));
      assert Stages(g, u, 4) == CreateStage(u, Stages(g, u, 3)) by {
        StagesStep(g, u, 4);
        assert STAGES[3] == CreateGroup;
      }
      LaterStagesKeepTags(g, u, 4, |STAGES|);
    } else {
      StoppedBeforeCreate(g, u);
    }
  }

  lemma UnreadFirstStage(g: Group, u: Up)
    requires g.present && Mints(u) && ReadSuffix(g, u.probes.suffixRead).None?
    requires !(u.probes.vaultList && LegacyVault in g.resources)
    ensures SuffixWrites(g, u) == if u.probes.existsForSuffix then 1 else 0
    ensures var r := Stages(g, u, 1);
      && r.suffix == u.minted
      && (r.status.Running? <==> !u.probes.existsForSuffix || u.writes > 0)
      && (if u.probes.existsForSuffix && u.writes > 0 then Tagged(r.group, u.minted) else r.group == g)
  {
    FirstStage(g, u);
  }

  lemma WellFormedReads(g: Group, suffix: string)
    requires Tagged(g, suffix) && WellFormed(suffix)
    ensures ReadSuffix(g, true) == Some(suffix)
  {}

  /** Whatever the suffix, a run under one leaves no bare vault behind. */
  lemma {:induction false} NoLegacyVault(g: Group, u: Up, n: nat)
    requires LegacyVault !in g.resources && Stages(g, u, 1).suffix != "" && 1 <= n <= |STAGES|
    ensures LegacyVault !in Stages(g, u, n).group.resources
    ensures Stages(g, u, n).suffix == Stages(g, u, 1).suffix
  {
    if n == 1 {
      FirstStage(g, u);
    } else {
      NoLegacyVault(g, u, n - 1);
      StagesStep(g, u, n);
      var r := Stages(g, u, n - 1);
      if n == 2 {
        ModeStageKeepsOthers(u, r);
      } else if n > 4 && r.status.Running? {
        LaterStageKeepsSuffix(u, r, n - 1);
      }
    }
  }

  /**
   A set suffix tag survives a run, real or dry and stopped anywhere, exactly when the run reads
   it, or fails to and leaves it alone.
   */
  lemma SuffixTagIsKeptExactly(g: Group, u: Up, suffix: string)
    requires Tagged(g, suffix) && WellFormed(suffix) && LegacyVault !in g.resources
    requires Mints(u) && u.minted != suffix
    ensures Tagged(After(g, u), suffix) <==> u.probes.suffixRead || LeavesTag(g, u)
  {
    if u.probes.suffixRead {
      StagesUnderSuffix(g, g, u, suffix, |STAGES|);
    } else {
      UnreadTagExactly(g, u);
    }
  }

  // ---- a tagged group ----

  /** Deployments were only added, and the added ones used the suffix, which is still the tag. */
  ghost predicate UnderSuffix(start: Group, g: Group, suffix: string) {
    && Tagged(g, suffix)
    && start.deployments <= g.deployments
    && (forall i :: |start.deployments| <= i < |g.deployments| ==> g.deployments[i].suffix == suffix)
  }

  ghost predicate OnUnderSuffix(start: Group, r: Run, suffix: string, n: nat) {
    UnderSuffix(start, r.group, suffix) && (n >= 1 && r.status.Running? ==> r.suffix == suffix)
  }

  lemma StageUnderSuffix(start: Group, u: Up, r: Run, suffix: string, n: nat)
    requires n < 7 && OnUnderSuffix(start, r, suffix, n) && r.status.Running?
    requires WellFormed(suffix) && u.named && u.probes.suffixRead
    ensures OnUnderSuffix(start, StageOf(STAGES[n], u, r), suffix, n + 1)
  {
    match n
    case 0 => WellFormedReads(r.group, suffix);
    case 1 => ModeStageKeepsOthers(u, r);
    case 2 =>
    case 3 => CreatedUnderSuffix(start, u, r, suffix);
    case _ => LaterUnderSuffix(start, u, r, suffix, n);
  }

  lemma CreatedUnderSuffix(start: Group, u: Up, r: Run, suffix: string)
    requires OnUnderSuffix(start, r, suffix, 3) && r.status.Running? && suffix != ""
    ensures OnUnderSuffix(start, StageOf(CreateGroup, u, r), suffix, 4)
  {
    CreatedSuffix(u, r);
    CreateKeepsContents(u, r);
  }

  lemma LaterUnderSuffix(start: Group, u: Up, r: Run, suffix: string, n: nat)
    requires 4 <= n < 7 && OnUnderSuffix(start, r, suffix, n) && r.status.Running?
    ensures OnUnderSuffix(start, StageOf(STAGES[n], u, r), suffix, n + 1)
  {
    var after := StageOf(STAGES[n], u, r);
    LaterStage(u, r, n);
    assert after.group.deployments == r.group.deployments
      || after.group.deployments == r.group.deployments + [MainDeployment(r.mode, r.suffix)];
  }

  lemma {:induction false} StagesUnderSuffix(start: Group, g: Group, u: Up, suffix: string, n: nat)
    requires n <= |STAGES| && UnderSuffix(start, g, suffix) && WellFormed(suffix)
    requires u.named && u.probes.suffixRead
    ensures OnUnderSuffix(start, Stages(g, u, n), suffix, n)
  {
    if n > 0 {
      var r := Stages(g, u, n - 1);
      StagesUnderSuffix(start, g, u, suffix, n - 1);
      StagesStep(g, u, n);
      if r.status.Running? {
        StageUnderSuffix(start, u, r, suffix, n - 1);
      }
    }
  }

  /** The run reads the tag, or fails to and neither touches it nor deploys. */
  ghost predicate SparesSuffix(g: Group, u: Up) {
    && Mints(u)
    && (u.probes.suffixRead
        || (!(u.probes.vaultList && LegacyVault in g.resources) && LeavesTag(g, u) && !Deploys(g, u)))
  }

  lemma SparedSuffixStays(start: Group, g: Group, u: Up, suffix: string)
    requires UnderSuffix(start, g, suffix) && WellFormed(suffix) && SparesSuffix(g, u)
    ensures UnderSuffix(start, After(g, u), suffix)
  {
    if u.probes.suffixRead {
      StagesUnderSuffix(start, g, u, suffix, |STAGES|);
    } else {
      UnreadTagExactly(g, u);
      var mode := DeploysExactly(g, u);
    }
  }

  /** On a tagged group a run keeps to the suffix, in its tag and in what it deploys, exactly then. */
  lemma SuffixIsSparedExactly(g: Group, u: Up, suffix: string)
    requires Tagged(g, suffix) && WellFormed(suffix) && LegacyVault !in g.resources
    requires Mints(u) && u.minted != suffix
    ensures UnderSuffix(g, After(g, u), suffix) <==> SparesSuffix(g, u)
  {
    if SparesSuffix(g, u) {
      SparedSuffixStays(g, g, u, suffix);
    } else {
      UnreadTagExactly(g, u);
      var mode := DeploysExactly(g, u);
      if Deploys(g, u) {
        assert After(g, u).deployments[|g.deployments|].suffix == u.minted;
      }
    }
  }

  /**
   From any group that carries a suffix, however it came by it: over any history whose runs
   spare it, the tag stays, deployments are only added, and every added one uses the suffix.
   */
  lemma {:induction false} TaggedSuffixGoverns(g: Group, runs: seq<Up>, suffix: string)
    requires Tagged(g, suffix) && WellFormed(suffix)
    requires forall i :: 0 <= i < |runs| ==> SparesSuffix(History(g, runs[..i]), runs[i])
    ensures UnderSuffix(g, History(g, runs), suffix)
  {
    if runs != [] {
      var front := runs[..|runs| - 1];
      forall i | 0 <= i < |front| ensures SparesSuffix(History(g, front[..i]), front[i]) {
        assert front[..i] == runs[..i];
      }
      TaggedSuffixGoverns(g, front, suffix);
      assert runs[..|front|] == front;
      SparedSuffixStays(g, History(g, front), runs[|runs| - 1], suffix);
    }
  }

  // ---- tag and deployments together ----

  /**
   The run keeps tag and contents on one suffix: it asks for it, or it fails to read a tag that
   it leaves alone and deploys nothing, or it creates nothing in an untagged group.
   */
  predicate KeepsSuffix(g: Group, u: Up) {
    || AsksSuffix(g, u)
    || if NameSuffix in g.tags then LeavesTag(g, u) && !Deploys(g, u)
       else u.dryRun || !ReachesCreate(g, u) || (u.writes == ModeWrites(g, u) && Cluster !in u.partial)
  }

  /** An empty group that the run finds stays empty exactly when the run does not begin with the cluster. */
  lemma StaysEmptyExactly(g: Group, u: Up)
    requires g.present && g.resources == {} && u.probes.existsForCreate
    ensures After(g, u).resources == {} <==>
      u.dryRun || !ReachesCreate(g, u)
      || (u.writes == SuffixWrites(g, u) + ModeWrites(g, u) && Cluster !in u.partial)
    ensures After(g, u).resources == {} ==> After(g, u).deployments == g.deployments
  {
    var mode := DeploysExactly(g, u);
    if u.dryRun {
      DryRunDeploysNothing(g, u, |STAGES|);
    } else if !ReachesCreate(g, u) {
      ArrivalAtCreate(g, u);
      StoppedBeforeCreate(g, u);
    } else {
      ArrivalAtCreate(g, u);
      StagesStep(g, u, 4);
      StagesStep(g, u, 5);
      assert STAGES[3] == CreateGroup && STAGES[4] == DeployCluster;
      var r5 := Stages(g, u, 5);
      if r5.status.Running? {
        assert Cluster in r5.group.resources;
        ResourcesGrow(g, u, 5, |STAGES|);
      } else {
        StoppedStays(g, u, 5, |STAGES|);
      }
    }
  }

  lemma UnaskedKeepsExactly(g: Group, u: Up)
    requires SuffixFixed(g) && Mints(u) && !AsksSuffix(g, u)
    ensures KeepsSuffix(g, u) ==> SuffixFixed(After(g, u)) && SameSuffix(g, After(g, u))
    ensures SuffixFixed(After(g, u)) && SameSuffix(g, After(g, u)) ==>
      KeepsSuffix(g, u) || (NameSuffix in g.tags && g.tags[NameSuffix] == u.minted)
  {
    var mode := DeploysExactly(g, u);
    UnreadTagExactly(g, u);
    NoLegacyVault(g, u, |STAGES|);
    if NameSuffix in g.tags {
      assert Tagged(g, g.tags[NameSuffix]);
      if Deploys(g, u) {
        assert After(g, u).deployments[|g.deployments|].suffix == u.minted;
      }
    } else {
      StaysEmptyExactly(g, u);
    }
  }

  /**
   Any run, real or dry and stopped anywhere, keeps the group on one suffix, its tag and its
   deployments agreeing, exactly under that condition.
   */
  lemma SuffixIsKeptExactly(g: Group, u: Up)
    requires SuffixFixed(g) && Mints(u) && (NameSuffix in g.tags ==> g.tags[NameSuffix] != u.minted)
    ensures SuffixFixed(After(g, u)) && SameSuffix(g, After(g, u)) <==> KeepsSuffix(g, u)
  {
    if AsksSuffix(g, u) {
      StagesOnSuffix(g, u, |STAGES|);
    } else {
      UnaskedKeepsExactly(g, u);
    }
  }

  lemma RunKeepsSuffix(g: Group, u: Up)
    requires SuffixFixed(g) && Mints(u) && KeepsSuffix(g, u)
    ensures SuffixFixed(After(g, u)) && SameSuffix(g, After(g, u))
  {
    if AsksSuffix(g, u) {
      StagesOnSuffix(g, u, |STAGES|);
    } else {
      UnaskedKeepsExactly(g, u);
    }
  }

  /**
   A run that deploys, or fails to half-way, leaves the suffix it deployed under as the group's
   tag exactly when the group is new, either `exists` query leads to a tag, or the tag was read.
   */
  lemma RunEndsTaggedExactly(g: Group, u: Up)
    requires SuffixFixed(g) && Mints(u) && (NameSuffix in g.tags ==> g.tags[NameSuffix] != u.minted)
    requires Deploys(g, u)
    ensures |After(g, u).deployments| == |g.deployments| + 1
    ensures var suffix := After(g, u).deployments[|g.deployments|].suffix;
      Tagged(After(g, u), suffix) <==>
        || !g.present || u.probes.existsForSuffix || !u.probes.existsForCreate
        || (u.probes.suffixRead && NameSuffix in g.tags)
  {
    var mode := DeploysExactly(g, u);
    assert After(g, u).deployments[|g.deployments|].suffix == Stages(g, u, 1).suffix;
    if AsksSuffix(g, u) {
      StagesOnSuffix(g, u, |STAGES|);
      assert Tagged(After(g, u), After(g, u).deployments[|g.deployments|].suffix);
    } else {
      UnreadTagExactly(g, u);
    }
  }

  /** A resumed group whose first `exists` query fails: a run that finishes and deploys without a tag. */
  lemma UntaggedRunDeploys(g: Group, u: Up)
    requires g == Group(true, map[], {}, []) && Unhindered(u) && Mints(u)
    requires !u.probes.existsForSuffix && u.probes.existsForCreate
    ensures Finished(g, u).status.Running?
    ensures |After(g, u).deployments| == 1 && After(g, u).deployments[0].suffix == u.minted
    ensures NameSuffix !in After(g, u).tags
  {
    UnhinderedRuns(g, u, |STAGES|);
    var mode := DeploysExactly(g, u);
    UnreadTagExactly(g, u);
  }

  // ---- histories ----

  /** An empty group never tagged, or no group at all. */
  ghost predicate Unmarked(g: Group) {
    g.resources == {} && g.deployments == [] && NameSuffix !in g.tags && (!g.present ==> g.tags == map[])
  }

  ghost predicate SuffixSafe(g: Group, runs: seq<Up>) {
    forall i :: 0 <= i < |runs| ==> Mints(runs[i]) && KeepsSuffix(History(g, runs[..i]), runs[i])
  }

  lemma SuffixSafePrefix(g: Group, runs: seq<Up>)
    requires runs != [] && SuffixSafe(g, runs)
    ensures SuffixSafe(g, runs[..|runs| - 1])
    ensures Mints(runs[|runs| - 1]) && KeepsSuffix(History(g, runs[..|runs| - 1]), runs[|runs| - 1])
  {
    var front := runs[..|runs| - 1];
    forall i | 0 <= i < |front| ensures Mints(front[i]) && KeepsSuffix(History(g, front[..i]), front[i]) {
      assert front[..i] == runs[..i];
    }
  }

  lemma {:induction false} SuffixStaysFixed(g: Group, runs: seq<Up>)
    requires Unmarked(g) && SuffixSafe(g, runs)
    ensures SuffixFixed(History(g, runs))
  {
    if runs != [] {
      var front := runs[..|runs| - 1];
      SuffixSafePrefix(g, runs);
      SuffixStaysFixed(g, front);
      RunKeepsSuffix(History(g, front), runs[|runs| - 1]);
    }
  }

  lemma {:induction false} SuffixStays(g: Group, runs: seq<Up>, earlier: nat)
    requires Unmarked(g) && SuffixSafe(g, runs) && earlier <= |runs|
    ensures SameSuffix(History(g, runs[..earlier]), History(g, runs))
  {
    if earlier == |runs| {
      assert runs[..earlier] == runs;
    } else {
      var front := runs[..|runs| - 1];
      SuffixSafePrefix(g, runs);
      SuffixStays(g, front, earlier);
      assert runs[..earlier] == front[..earlier];
      SuffixStaysFixed(g, front);
      RunKeepsSuffix(History(g, front), runs[|runs| - 1]);
    }
  }

  /**
   Over any history from an unmarked group, real or dry and cut off anywhere, the suffix some
   run tagged is the one every later run resolves and every main deployment used.
   */
  lemma SuffixIsStable(g: Group, runs: seq<Up>, earlier: nat, next: Up, suffix: string)
    requires Unmarked(g) && SuffixSafe(g, runs) && earlier <= |runs|
    requires Tagged(History(g, runs[..earlier]), suffix) && next.named && next.probes.suffixRead
    ensures Tagged(History(g, runs), suffix)
    ensures forall d :: d in History(g, runs).deployments ==> d.suffix == suffix
    ensures Stages(History(g, runs), next, 1).suffix == suffix
  {
    SuffixStaysFixed(g, runs);
    SuffixStays(g, runs, earlier);
    TaggedSuffixIsResolved(History(g, runs), next, suffix);
  }

  lemma TaggedSuffixIsResolved(g: Group, u: Up, suffix: string)
    requires SuffixFixed(g) && Tagged(g, suffix) && u.named && u.probes.suffixRead
    ensures Stages(g, u, 1).suffix == suffix && Stages(g, u, 1).group == g
  {
    FirstStage(g, u);
  }

  // ---- legacy environments ----

  /** Its vault has the bare name, and no suffix can be read: there is no tag, or only the empty marker. */
  ghost predicate Legacy(g: Group) {
    g.present && LegacyVault in g.resources && ReadSuffix(g, true).None?
  }

  ghost predicate OnLegacy(start: Group, r: Run, n: nat) {
    && Legacy(r.group)
    && (n >= 1 && r.status.Running? ==> r.suffix == "")
    && start.deployments <= r.group.deployments
    && (forall i :: |start.deployments| <= i < |r.group.deployments| ==> r.group.deployments[i].suffix == "")
  }

  lemma EarlyStageOnLegacy(start: Group, u: Up, r: Run, n: nat)
    requires n < 4 && OnLegacy(start, r, n) && r.status.Running? && u.named && u.probes.vaultList
    ensures OnLegacy(start, StageOf(STAGES[n], u, r), n + 1)
  {
    assert STAGES[0] == ResolveSuffix && STAGES[1] == ResolveMode && STAGES[2] == Configure && STAGES[3] == CreateGroup;
    var h := StageOf(STAGES[n], u, r).group;
    if n == 0 {
      assert h == r.group || h == WithTag(r.group, NameSuffix, "");
      assert SuffixOf("") == None by { assert Trimmed(""); }
    } else if n == 1 {
      SameSuffixTagReads(r.group, h);
    } else if n == 3 && h != r.group {
      assert NameSuffix !in CreateTags(u.dryRun, r.mode, "");
      assert ReadSuffix(h, true).None? by {
        if NameSuffix in h.tags {
          SameSuffixTagReads(r.group, h);
        }
      }
    }
  }

  lemma SameSuffixTagReads(g: Group, h: Group)
    requires g.present == h.present
    requires NameSuffix in g.tags <==> NameSuffix in h.tags
    requires NameSuffix in g.tags ==> g.tags[NameSuffix] == h.tags[NameSuffix]
    ensures ReadSuffix(g, true) == ReadSuffix(h, true)
  {
  }

  lemma LateStageOnLegacy(start: Group, u: Up, r: Run, n: nat)
    requires 4 <= n < 7 && OnLegacy(start, r, n) && r.status.Running?
    ensures OnLegacy(start, StageOf(STAGES[n], u, r), n + 1)
  {
    assert STAGES[4] == DeployCluster && STAGES[5] == RecoverVault && STAGES[6] == DeployMain;
    SameSuffixTagReads(r.group, StageOf(STAGES[n], u, r).group);
  }

  lemma {:induction false} StagesOnLegacy(g: Group, u: Up, n: nat)
    requires Legacy(g) && u.named && u.probes.vaultList && n <= |STAGES|
    ensures OnLegacy(g, Stages(g, u, n), n)
  {
    if n > 0 {
      StagesOnLegacy(g, u, n - 1);
      if Stages(g, u, n - 1).status.Running? {
        if n <= 4 {
          EarlyStageOnLegacy(g, u, Stages(g, u, n - 1), n - 1);
        } else {
          LateStageOnLegacy(g, u, Stages(g, u, n - 1), n - 1);
        }
      }
    }
  }

  lemma UnseenVault(g: Group, u: Up)
    requires Legacy(g) && Mints(u) && !u.probes.vaultList
    ensures Legacy(After(g, u)) <==> LeavesTag(g, u)
    ensures Stages(g, u, 1).suffix == u.minted
  {
    UnreadTagExactly(g, u);
    ResourcesGrow(g, u, 0, |STAGES|);
    if LeavesTag(g, u) {
      SameSuffixTagReads(g, After(g, u));
    } else {
      WellFormedReads(After(g, u), u.minted);
    }
  }

  /**
   A run, real or dry and stopped anywhere, leaves a legacy group one exactly when it sees the
   vault, or leaves the tag alone. The empty marker an earlier run wrote makes no difference.
   */
  lemma LegacyIsKeptExactly(g: Group, u: Up)
    requires Legacy(g) && Mints(u)
    ensures Legacy(After(g, u)) <==> u.probes.vaultList || LeavesTag(g, u)
  {
    if u.probes.vaultList {
      StagesOnLegacy(g, u, |STAGES|);
    } else {
      UnseenVault(g, u);
    }
  }

  /** What a run that deploys on a legacy group deploys under. */
  lemma LegacyRunExactly(g: Group, u: Up)
    requires Legacy(g) && Mints(u) && Deploys(g, u)
    ensures |After(g, u).deployments| == |g.deployments| + 1
    ensures After(g, u).deployments[|g.deployments|].suffix == "" <==> u.probes.vaultList
  {
    FirstStage(g, u);
    var mode := DeploysExactly(g, u);
    assert After(g, u).deployments[|g.deployments|] == MainDeployment(mode, Stages(g, u, 1).suffix);
  }

  /** Deployments were only added, and the added ones are unsuffixed. */
  ghost predicate Unsuffixed(g: Group, h: Group) {
    && g.deployments <= h.deployments
    && (forall i :: |g.deployments| <= i < |h.deployments| ==> h.deployments[i].suffix == "")
  }

  /** The run sees the vault, or neither tags the group nor deploys into it. */
  predicate SparesLegacy(g: Group, u: Up) {
    u.probes.vaultList || (LeavesTag(g, u) && !Deploys(g, u))
  }

  lemma LegacyIsSparedExactly(g: Group, u: Up)
    requires Legacy(g) && Mints(u)
    ensures Legacy(After(g, u)) && Unsuffixed(g, After(g, u)) <==> SparesLegacy(g, u)
  {
    LegacyIsKeptExactly(g, u);
    var mode := DeploysExactly(g, u);
    if Deploys(g, u) {
      LegacyRunExactly(g, u);
      assert !u.probes.vaultList ==> !Unsuffixed(g, After(g, u));
    }
  }

  ghost predicate LegacySafe(g: Group, runs: seq<Up>) {
    forall i :: 0 <= i < |runs| ==> Mints(runs[i]) && SparesLegacy(History(g, runs[..i]), runs[i])
  }

  /** Over any history of runs that spare it, a legacy group stays one and is only deployed to unsuffixed. */
  lemma {:induction false} LegacyStaysUnsuffixed(g: Group, runs: seq<Up>)
    requires Legacy(g) && LegacySafe(g, runs)
    ensures Legacy(History(g, runs)) && Unsuffixed(g, History(g, runs))
  {
    if runs != [] {
      var front := runs[..|runs| - 1];
      forall i | 0 <= i < |front| ensures Mints(front[i]) && SparesLegacy(History(g, front[..i]), front[i]) {
        assert front[..i] == runs[..i];
      }
      LegacyStaysUnsuffixed(g, front);
      assert runs[..|front|] == front;
      LegacyIsSparedExactly(History(g, front), runs[|runs| - 1]);
      UnsuffixedTwice(g, History(g, front), History(g, runs));
    }
  }

  lemma UnsuffixedTwice(g: Group, h: Group, k: Group)
    requires Unsuffixed(g, h) && Unsuffixed(h, k)
    ensures Unsuffixed(g, k)
  {}

  // ---- tags of others ----

  /**
   On any existing group a run keeps everyone else's tags exactly when it finds the group at the
   create step, does not get to write there, or has no tag of its own to send.
   */
  lemma ForeignTagsKeptExactly(g: Group, u: Up, name: string)
    requires g.present && u.minted != "" && Foreign(name) in g.tags
    ensures var h := After(g, u);
      Foreign(name) in h.tags && h.tags[Foreign(name)] == g.tags[Foreign(name)] <==>
        || u.probes.existsForCreate || !ReachesCreate(g, u)
        || u.writes == SuffixWrites(g, u) + ModeWrites(g, u)
        || (u.dryRun && !CarriesSuffix(g, u))
  {
    ArrivalAtCreate(g, u);
    if ReachesCreate(g, u) {
      StagesStep(g, u, 4);
      assert STAGES[3] == CreateGroup;
      ForeignAtCreate(u, Stages(g, u, 3), name);
      LaterStagesKeepTags(g, u, 4, |STAGES|);
    } else {
      StoppedBeforeCreate(g, u);
    }
  }

  lemma ForeignAtCreate(u: Up, r: Run, name: string)
    requires r.status.Running? && r.group.present && Foreign(name) in r.group.tags
    ensures var tags := CreateStage(u, r).group.tags;
      Foreign(name) in tags && tags[Foreign(name)] == r.group.tags[Foreign(name)] <==>
        u.probes.existsForCreate || r.writes == 0 || (u.dryRun && r.suffix == "")
  {
    var tags := CreateTags(u.dryRun, r.mode, r.suffix);
    assert Foreign(name) !in tags;
    assert tags == map[] <==> u.dryRun && r.suffix == "" by {
      if !u.dryRun {
        assert InsightsMode in tags;
      } else if r.suffix != "" {
        assert NameSuffix in tags;
      }
    }
  }
}
