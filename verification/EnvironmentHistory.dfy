/** What any history of `spi up` runs keeps about an environment's mode and suffix. */
module EnvironmentHistory {
  import opened Text
  import opened ResourceGroup
  import opened UpRun

  function History(g: Group, runs: seq<Up>): Group {
    if runs == [] then g else After(History(g, runs[..|runs| - 1]), runs[|runs| - 1])
  }

  // ---- the Application Insights mode ----

  /** Once anything was created the mode tag is set, and every main deployment used that mode. */
  ghost predicate ModeFixed(g: Group) {
    && !ReadMode(g).Unreadable?
    && (!g.present ==> g.tags == map[] && g.resources == {} && g.deployments == [])
    && (g.resources != {} || g.deployments != [] ==> ReadMode(g).Mode?)
    && (forall d :: d in g.deployments ==> ReadMode(g).Mode? && d.enabled == Some(ReadMode(g).enabled))
  }

  ghost predicate SameMode(g: Group, h: Group) {
    ReadMode(g).Mode? ==> ReadMode(h) == ReadMode(g)
  }

  /**
   A dry run that creates an existing group again, because its `exists` query goes unanswered,
   and so replaces the tags by a suffix alone.
   */
  predicate DropsMode(g: Group, u: Up) {
    && u.dryRun && g.present && ReadMode(g).Mode? && !u.probes.existsForCreate
    && ReachesCreate(g, u) && CarriesSuffix(g, u) && u.writes > SuffixWrites(g, u)
  }

  lemma {:induction false} LowerIsIdentity(s: string)
    requires forall i :: 0 <= i < |s| ==> !('A' <= s[i] <= 'Z')
    ensures Lower(s) == s
  {
    if s != "" {
      LowerIsIdentity(s[1..]);
    }
  }

  lemma ModeTextReads(mode: bool)
    ensures ModeOf(ModeText(mode)) == Mode(mode)
  {
    var text := ModeText(mode);
    assert Trimmed(text);
    LowerIsIdentity(text);
    assert text[0] == if mode then 't' else 'f';
  }

  /** White space and letter case of the tag do not matter; blank or "none" is no mode, anything else is refused. */
  lemma ModeTagReads(left: string, core: string, right: string)
    requires AllSpace(left) && AllSpace(right) && Trimmed(core)
    ensures core == "" || Lower(core) == "none" ==> ModeOf(left + core + right) == Unset
    ensures forall mode :: Lower(core) == ModeText(mode) ==> ModeOf(left + core + right) == Mode(mode)
    ensures core != "" && Lower(core) != "none" && Lower(core) != "true" && Lower(core) != "false" ==>
      ModeOf(left + core + right) == Unreadable
  {
    if core == "" {
      var s := left + core + right;
      assert forall i :: 0 <= i < |s| ==> s[i] == if i < |left| then left[i] else right[i - |left|];
      BlankExactly(s);
    } else {
      StripsPadding(left, core, right);
      assert "true"[0] == 't' && "false"[0] == 'f' && "none"[0] == 'n';
    }
  }

  lemma TagReads(g: Group, mode: bool)
    requires g.present && InsightsMode in g.tags && g.tags[InsightsMode] == ModeText(mode)
    ensures ReadMode(g) == Mode(mode)
  {
    ModeTextReads(mode);
  }

  lemma UntaggedModeIsFree(g: Group, u: Up)
    requires ModeFixed(g) && ReadMode(g).Unset? && UntaggedMode(g, u).Some?
    ensures UntaggedMode(g, u).value == (u.request == Some(true))
  {
    if !g.present {
      assert InferredMode(g, u.probes) == Some(false);
    } else {
      assert g.resources == {};
    }
  }

  /** The mode invariant of a run that has completed `n` stages, started from a group `start`. */
  ghost predicate OnMode(start: Group, u: Up, r: Run, n: nat) {
    && ModeFixed(r.group) && SameMode(start, r.group)
    && (n < 4 ==> r.group.present == start.present)
    && (n >= 2 && r.status.Running? && r.group.present && !u.dryRun ==> ReadMode(r.group) == Mode(r.mode))
    && (n >= 4 && r.status.Running? ==> r.group.present)
    && (u.dryRun && !ReadMode(start).Mode? ==> !ReadMode(r.group).Mode?)
  }

  lemma SameModeTwice(g: Group, h: Group, k: Group)
    requires SameMode(g, h) && SameMode(h, k)
    ensures SameMode(g, k)
  {}

  /** A group that reads as one mode, and whose further deployments used it, is as fixed as the one before. */
  lemma ModeCarriesOver(start: Group, g: Group, h: Group, mode: bool)
    requires ModeFixed(g) && SameMode(start, g) && h.present && ReadMode(h) == Mode(mode)
    requires ReadMode(g).Mode? ==> ReadMode(g) == Mode(mode)
    requires forall d :: d in h.deployments ==> d in g.deployments || d.enabled == Some(mode)
    ensures ModeFixed(h) && SameMode(start, h)
  {
    SameModeTwice(start, g, h);
  }

  lemma SuffixStageOnMode(start: Group, u: Up, r: Run)
    requires OnMode(start, u, r, 0) && r.status.Running?
    ensures OnMode(start, u, StageOf(ResolveSuffix, u, r), 1)
  {
  }

  lemma WrittenModeIsFixed(g: Group, mode: bool)
    requires ModeFixed(g) && g.present && ReadMode(g).Unset?
    ensures var h := WithTag(g, InsightsMode, ModeText(mode));
      ModeFixed(h) && ReadMode(h) == Mode(mode)
  {
    TagReads(WithTag(g, InsightsMode, ModeText(mode)), mode);
  }

  lemma ModeStageOnMode(start: Group, u: Up, r: Run)
    requires OnMode(start, u, r, 1) && r.status.Running?
    ensures OnMode(start, u, StageOf(ResolveMode, u, r), 2)
  {
    var after := ModeStage(u, r);
    if after.group != r.group {
      assert ReadMode(r.group).Unset? && r.group.present && !u.dryRun;
      assert after.group == WithTag(r.group, InsightsMode, ModeText(after.mode));
      WrittenModeIsFixed(r.group, after.mode);
    } else if after.status.Running? && r.group.present && !u.dryRun && !ReadMode(r.group).Mode? {
      assert ReadMode(r.group).Unset? && after.group == WithTag(r.group, InsightsMode, ModeText(after.mode));
      WrittenModeIsFixed(r.group, after.mode);
    }
  }

  /** The create step leaves a set mode alone. */
  ghost predicate CreateKeepsMode(u: Up, r: Run) {
    u.dryRun && r.group.present && !u.probes.existsForCreate && ReadMode(r.group).Mode? ==>
      r.writes == 0 || r.suffix == ""
  }

  lemma CreateStageOnMode(start: Group, u: Up, r: Run)
    requires OnMode(start, u, r, 3) && r.status.Running? && CreateKeepsMode(u, r)
    ensures OnMode(start, u, StageOf(CreateGroup, u, r), 4)
  {
    if !(u.probes.existsForCreate && r.group.present) && r.writes > 0 {
      CreatedGroup(u, r);
      if u.dryRun {
        DryCreateKeepsReading(u, r);
      }
      CreatedOnMode(start, u, r, CreateStage(u, r));
    }
  }

  lemma DryCreateKeepsReading(u: Up, r: Run)
    requires u.dryRun && r.status.Running? && r.writes > 0 && CreateKeepsMode(u, r)
    requires !(u.probes.existsForCreate && r.group.present)
    requires !ReadMode(r.group).Unreadable? && (!r.group.present ==> r.group.tags == map[])
    ensures ReadMode(CreateStage(u, r).group) == ReadMode(r.group)
  {
    if r.suffix == "" {
      assert CreateTags(true, r.mode, r.suffix) == map[];
    } else {
      assert InsightsMode !in CreateTags(true, r.mode, r.suffix);
      assert NameSuffix in CreateTags(true, r.mode, r.suffix);
    }
  }

  lemma CreatedOnMode(start: Group, u: Up, r: Run, after: Run)
    requires OnMode(start, u, r, 3) && r.status.Running?
    requires after.group.present && after.mode == r.mode && after.group.deployments == r.group.deployments
    requires !u.dryRun ==> InsightsMode in after.group.tags && after.group.tags[InsightsMode] == ModeText(r.mode)
    requires u.dryRun ==> ReadMode(after.group) == ReadMode(r.group) && after.group.resources == r.group.resources
    ensures OnMode(start, u, after, 4)
  {
    if !u.dryRun {
      TagReads(after.group, r.mode);
      ModeCarriesOver(start, r.group, after.group, r.mode);
    }
  }

  /** The group a create command leaves: new tags on the old contents. */
  lemma CreatedGroup(u: Up, r: Run)
    requires !(u.probes.existsForCreate && r.group.present) && r.writes > 0
    ensures var h := CreateStage(u, r).group;
      && h.present && h.resources == r.group.resources && h.deployments == r.group.deployments
      && (!u.dryRun ==> InsightsMode in h.tags && h.tags[InsightsMode] == ModeText(r.mode))
      && (u.dryRun && !r.group.present && r.group.tags == map[] ==> InsightsMode !in h.tags)
  {
    var tags := CreateTags(u.dryRun, r.mode, r.suffix);
    assert !u.dryRun ==> InsightsMode in tags && tags[InsightsMode] == ModeText(r.mode);
    assert u.dryRun ==> InsightsMode !in tags;
  }

  /** A later stage writes no tag; a real one that deploys uses the tagged mode. */
  lemma DeployStageOnMode(start: Group, u: Up, r: Run, n: nat)
    requires 4 <= n < 7 && OnMode(start, u, r, n) && r.status.Running?
    ensures OnMode(start, u, StageOf(STAGES[n], u, r), n + 1)
  {
    var after := StageOf(STAGES[n], u, r);
    LaterStage(u, r, n);
    assert ReadMode(after.group) == ReadMode(r.group);
    if after.group != r.group {
      ModeCarriesOver(start, r.group, after.group, r.mode);
    }
  }

  lemma StageOnMode(start: Group, u: Up, r: Run, n: nat)
    requires n < 7 && OnMode(start, u, r, n) && r.status.Running? && (n == 3 ==> CreateKeepsMode(u, r))
    ensures OnMode(start, u, StageOf(STAGES[n], u, r), n + 1)
  {
    match n
    case 0 => SuffixStageOnMode(start, u, r);
    case 1 => ModeStageOnMode(start, u, r);
    case 2 => ConfigureStageOnMode(start, u, r);
    case 3 => CreateStageOnMode(start, u, r);
    case _ => DeployStageOnMode(start, u, r, n);
  }

  lemma ConfigureStageOnMode(start: Group, u: Up, r: Run)
    requires OnMode(start, u, r, 2) && r.status.Running?
    ensures OnMode(start, u, StageOf(Configure, u, r), 3)
  {
    assert StageOf(Configure, u, r).group == r.group;
  }

  lemma CreateSparesMode(g: Group, u: Up)
    requires g.present && ReadMode(g).Mode? && !DropsMode(g, u) && Stages(g, u, 3).status.Running?
    ensures CreateKeepsMode(u, Stages(g, u, 3))
  {
    ArrivalAtCreate(g, u);
  }

  lemma StoppedOnMode(start: Group, u: Up, r: Run, n: nat)
    requires OnMode(start, u, r, n) && !r.status.Running?
    ensures OnMode(start, u, r, n + 1)
  {}

  lemma {:induction false} StagesOnMode(g: Group, u: Up, n: nat)
    requires n <= |STAGES| && ModeFixed(g) && !DropsMode(g, u)
    ensures OnMode(g, u, Stages(g, u, n), n)
  {
    if n > 0 {
      var r := Stages(g, u, n - 1);
      StagesOnMode(g, u, n - 1);
      StagesStep(g, u, n);
      if !r.status.Running? {
        StoppedOnMode(g, u, r, n - 1);
      } else {
        if n == 4 && ReadMode(g).Mode? {
          CreateSparesMode(g, u);
        }
        StageOnMode(g, u, r, n - 1);
      }
    }
  }

  /**
   One run, real or dry, refused or cut off after any write: the mode stays fixed, and a
   mode once set stays what it is.
   */
  lemma RunKeepsMode(g: Group, u: Up)
    requires ModeFixed(g) && !DropsMode(g, u)
    ensures ModeFixed(After(g, u)) && SameMode(g, After(g, u))
  {
    StagesOnMode(g, u, |STAGES|);
  }

  /** No dry run of the history replaces the tags of a group that carries a mode. */
  ghost predicate TagsSafe(g: Group, runs: seq<Up>) {
    forall i :: 0 <= i < |runs| ==> !DropsMode(History(g, runs[..i]), runs[i])
  }

  lemma TagsSafePrefix(g: Group, runs: seq<Up>)
    requires runs != [] && TagsSafe(g, runs)
    ensures TagsSafe(g, runs[..|runs| - 1])
    ensures !DropsMode(History(g, runs[..|runs| - 1]), runs[|runs| - 1])
  {
    var front := runs[..|runs| - 1];
    forall i | 0 <= i < |front| ensures !DropsMode(History(g, front[..i]), front[i]) {
      assert front[..i] == runs[..i];
    }
  }

  /** An environment nothing was deployed into: no group, or an empty one without a mode. */
  ghost predicate Blank(g: Group) {
    && g.resources == {} && g.deployments == []
    && ReadMode(g).Unset?
    && (!g.present ==> g.tags == map[])
  }

  /**
   Over any history from an absent or empty group, resources imply a mode tag, every main
   deployment used that mode, and no later run changes a mode an earlier one had set.
   */
  lemma {:induction false} ModeIsImmutable(g: Group, runs: seq<Up>, earlier: nat)
    requires Blank(g) && TagsSafe(g, runs) && earlier <= |runs|
    ensures ModeFixed(History(g, runs))
    ensures SameMode(History(g, runs[..earlier]), History(g, runs))
  {
    ModeStaysFixed(g, runs);
    if earlier == |runs| {
      assert runs[..earlier] == runs;
    } else {
      var front := runs[..|runs| - 1];
      TagsSafePrefix(g, runs);
      assert SameMode(History(g, runs[..earlier]), History(g, front)) by {
        ModeIsImmutable(g, front, earlier);
        assert runs[..earlier] == front[..earlier];
      }
      assert SameMode(History(g, front), History(g, runs)) by {
        ModeStaysFixed(g, front);
        RunKeepsMode(History(g, front), runs[|runs| - 1]);
      }
      SameModeTwice(History(g, runs[..earlier]), History(g, front), History(g, runs));
    }
  }

  lemma {:induction false} ModeStaysFixed(g: Group, runs: seq<Up>)
    requires Blank(g) && TagsSafe(g, runs)
    ensures ModeFixed(History(g, runs))
  {
    if runs != [] {
      var front := runs[..|runs| - 1];
      TagsSafePrefix(g, runs);
      ModeStaysFixed(g, front);
      RunKeepsMode(History(g, front), runs[|runs| - 1]);
    }
  }

  /** A request against the tagged mode is refused, or stopped earlier, and deploys nothing. */
  lemma ContradictionDeploysNothing(g: Group, u: Up)
    requires ReadMode(g).Mode? && u.request == Some(!ReadMode(g).enabled)
    ensures !Finished(g, u).status.Running?
    ensures After(g, u).resources == g.resources && After(g, u).deployments == g.deployments
    ensures ReadMode(After(g, u)) == ReadMode(g)
  {
    var r1 := Stages(g, u, 1);
    FirstStage(g, u);
    SuffixStageKeepsTheRest(u, Run(g, "", false, u.writes, Running));
    var stop := RejectedAfter(g, u, r1);
    StoppedStays(g, u, stop, |STAGES|);
  }

  lemma RejectedAfter(g: Group, u: Up, r1: Run) returns (stop: nat)
    requires r1 == Stages(g, u, 1)
    requires ReadMode(r1.group).Mode? && u.request == Some(!ReadMode(r1.group).enabled)
    ensures stop <= |STAGES| && !Stages(g, u, stop).status.Running? && Stages(g, u, stop).group == r1.group
  {
    stop := 1;
    if r1.status.Running? {
      stop := 2;
      StagesStep(g, u, 2);
      ContradictionIsRejected(u, r1);
    }
  }

  lemma ContradictionIsRejected(u: Up, r: Run)
    requires ReadMode(r.group).Mode? && u.request == Some(!ReadMode(r.group).enabled)
    ensures ModeStage(u, r) == r.(status := Rejected)
  {}

  // ---- environments that were there before the tag ----

  /** A deployment record that asks for telemetry: by its switch, or from before the switch by a name. */
  ghost predicate RecordShows(d: Deployment) {
    || d.enabled == Some(true)
    || (d.enabled.None? && d.insightsName.Some? && !AllSpace(d.insightsName.value))
  }

  /** What an untagged environment was deployed with, as far as Azure shows. */
  ghost predicate ShowsInsights(g: Group) {
    || Insights in g.resources || LogWorkspace in g.resources
    || (g.deployments != [] && RecordShows(g.deployments[|g.deployments| - 1]))
  }

  lemma RecordIsRead(g: Group)
    ensures DeployedMode(g) == Some(true) <==>
      g.deployments != [] && RecordShows(g.deployments[|g.deployments| - 1])
  {
    if g.deployments != [] {
      var last := g.deployments[|g.deployments| - 1];
      if last.enabled.None? && last.insightsName.Some? {
        BlankExactly(last.insightsName.value);
      }
    }
  }

  /** What a run records is what a later one reads back; an older record is read by its name. */
  lemma RecordedModeReadsBack(g: Group, mode: bool, suffix: string, name: string)
    ensures DeployedMode(g.(deployments := g.deployments + [MainDeployment(mode, suffix)])) == Some(mode)
    ensures DeployedMode(g.(deployments := g.deployments + [Deployment(None, Some(name), suffix)]))
         == Some(!AllSpace(name))
    ensures DeployedMode(g.(deployments := g.deployments + [Deployment(None, None, suffix)])) == None
    ensures g.deployments == [] ==> DeployedMode(g) == None
  {
    BlankExactly(name);
  }

  /** A query the inference needs fails: each is asked only when the ones before showed nothing. */
  ghost predicate InferenceFails(g: Group, probes: Probes) {
    || !probes.insights
    || (Insights !in g.resources && !probes.workspace)
    || (Insights !in g.resources && LogWorkspace !in g.resources && !probes.deployment)
  }

  /**
   The mode of a group without the tag: as asked for when nothing is there, off by default; what
   the resources show otherwise; and none exactly when a needed query fails or the request
   contradicts the resources.
   */
  lemma UntaggedModeExactly(g: Group, u: Up)
    ensures var inUse := g.present && g.resources != {};
      && (UntaggedMode(g, u).None? <==>
            || !u.probes.existsForMode || (g.present && !u.probes.contents)
            || (inUse && (InferenceFails(g, u.probes) || u.request == Some(!ShowsInsights(g)))))
      && (UntaggedMode(g, u).Some? ==>
            UntaggedMode(g, u).value == if inUse then ShowsInsights(g) else u.request == Some(true))
  {
    RecordIsRead(g);
  }

  ghost predicate ModeAnswered(probes: Probes) {
    && probes.modeRead && probes.existsForMode && probes.contents
    && probes.insights && probes.workspace && probes.deployment
  }

  lemma ModeIsAdopted(u: Up, r: Run)
    requires r.group.present && r.group.resources != {} && ReadMode(r.group).Unset?
    requires r.status.Running? && !u.dryRun && r.writes > 0 && ModeAnswered(u.probes)
    ensures var after := ModeStage(u, r);
      if u.request == Some(!ShowsInsights(r.group)) then after == r.(status := Rejected)
      else after.status.Running? && after.mode == ShowsInsights(r.group) && ReadMode(after.group) == Mode(after.mode)
  {
    RecordIsRead(r.group);
    assert InferredMode(r.group, u.probes) == Some(ShowsInsights(r.group));
    if u.request != Some(!ShowsInsights(r.group)) {
      TagReads(ModeStage(u, r).group, ShowsInsights(r.group));
    }
  }

  /** Deployments were only added, and the added ones used the mode. */
  ghost predicate Governed(start: Group, g: Group, mode: bool) {
    && g.present && ReadMode(g) == Mode(mode)
    && start.deployments <= g.deployments
    && (forall i :: |start.deployments| <= i < |g.deployments| ==> g.deployments[i].enabled == Some(mode))
  }

  ghost predicate OnGoverned(start: Group, r: Run, mode: bool, n: nat) {
    Governed(start, r.group, mode) && (n >= 2 && r.status.Running? ==> r.mode == mode)
  }

  lemma StageOnGoverned(start: Group, u: Up, r: Run, mode: bool, n: nat)
    requires n < 7 && OnGoverned(start, r, mode, n) && r.status.Running?
    requires n == 3 ==> CreateKeepsMode(u, r)
    ensures OnGoverned(start, StageOf(STAGES[n], u, r), mode, n + 1)
  {
    match n
    case 0 => SuffixStageKeepsTheRest(u, r);
    case 1 => ModeOnGoverned(u, r);
    case 2 =>
    case 3 => CreateOnGoverned(start, u, r, mode);
    case _ => LaterOnGoverned(start, u, r, mode, n);
  }

  lemma ModeOnGoverned(u: Up, r: Run)
    requires ReadMode(r.group).Mode?
    ensures ModeStage(u, r).group == r.group
    ensures ModeStage(u, r).status.Running? ==> ModeStage(u, r).mode == ReadMode(r.group).enabled
  {}

  lemma CreateOnGoverned(start: Group, u: Up, r: Run, mode: bool)
    requires OnGoverned(start, r, mode, 3) && r.status.Running? && CreateKeepsMode(u, r)
    ensures OnGoverned(start, StageOf(CreateGroup, u, r), mode, 4)
  {
    if !u.probes.existsForCreate && r.writes > 0 {
      CreatedGroup(u, r);
      if u.dryRun {
        DryCreateKeepsReading(u, r);
      } else {
        TagReads(CreateStage(u, r).group, mode);
      }
    }
  }

  lemma LaterOnGoverned(start: Group, u: Up, r: Run, mode: bool, n: nat)
    requires 4 <= n < 7 && OnGoverned(start, r, mode, n) && r.status.Running?
    ensures OnGoverned(start, StageOf(STAGES[n], u, r), mode, n + 1)
  {
    var after := StageOf(STAGES[n], u, r);
    LaterStage(u, r, n);
    assert ReadMode(after.group) == ReadMode(r.group);
    assert after.group.deployments == r.group.deployments
      || after.group.deployments == r.group.deployments + [MainDeployment(r.mode, r.suffix)];
  }

  lemma {:induction false} StagesOnGoverned(start: Group, g: Group, u: Up, mode: bool, n: nat)
    requires n <= |STAGES| && Governed(start, g, mode) && !DropsMode(g, u)
    ensures OnGoverned(start, Stages(g, u, n), mode, n)
  {
    if n > 0 {
      StagesOnGoverned(start, g, u, mode, n - 1);
      StagesStep(g, u, n);
      var r := Stages(g, u, n - 1);
      if r.status.Running? {
        if n == 4 {
          CreateSparesMode(g, u);
        }
        StageOnGoverned(start, u, r, mode, n - 1);
      }
    }
  }

  /** The same from the second stage on, for a real run, whose create step sends the mode. */
  lemma {:induction false} TailOnGoverned(start: Group, g: Group, u: Up, mode: bool, n: nat)
    requires 2 <= n <= |STAGES| && !u.dryRun && OnGoverned(start, Stages(g, u, 2), mode, 2)
    ensures OnGoverned(start, Stages(g, u, n), mode, n)
  {
    if n > 2 {
      TailOnGoverned(start, g, u, mode, n - 1);
      StagesStep(g, u, n);
      var r := Stages(g, u, n - 1);
      if r.status.Running? {
        StageOnGoverned(start, u, r, mode, n - 1);
      }
    }
  }

  /**
   A real run on resources that carry no mode, with its queries answered and a write for the
   tag left, adopts the mode they show for good, or deploys nothing and leaves the mode open:
   exactly when it asks for the other one.
   */
  lemma AdoptedExactly(g: Group, u: Up)
    requires g.present && g.resources != {} && ReadMode(g).Unset?
    requires !u.dryRun && ModeAnswered(u.probes) && u.writes > SuffixWrites(g, u)
    ensures Governed(g, After(g, u), ShowsInsights(g)) <==> u.request != Some(!ShowsInsights(g))
    ensures u.request == Some(!ShowsInsights(g)) ==>
      Finished(g, u).status == Rejected && ReadMode(After(g, u)).Unset?
      && After(g, u).resources == g.resources && After(g, u).deployments == g.deployments
  {
    var r1 := Stages(g, u, 1);
    FirstStage(g, u);
    SuffixResolved(u, Run(g, "", false, u.writes, Running));
    assert InferredMode(r1.group, u.probes) == InferredMode(g, u.probes);
    assert ShowsInsights(r1.group) == ShowsInsights(g);
    ModeIsAdopted(u, r1);
    StagesStep(g, u, 2);
    if u.request == Some(!ShowsInsights(g)) {
      StoppedStays(g, u, 2, |STAGES|);
    } else {
      ModeStageKeepsOthers(u, r1);
      TailOnGoverned(g, g, u, ShowsInsights(g), |STAGES|);
    }
  }

  /**
   From any group that carries a mode, however it came by it: over any history no run changes
   the mode, and every main deployment from then on uses it.
   */
  lemma {:induction false} TaggedModeGoverns(g: Group, runs: seq<Up>)
    requires ReadMode(g).Mode?
    requires TagsSafe(g, runs)
    ensures Governed(g, History(g, runs), ReadMode(g).enabled)
  {
    if runs != [] {
      TagsSafePrefix(g, runs);
      TaggedModeGoverns(g, runs[..|runs| - 1]);
      StagesOnGoverned(g, History(g, runs[..|runs| - 1]), runs[|runs| - 1], ReadMode(g).enabled, |STAGES|);
    }
  }

  // ---- telemetry ----

  /** No telemetry resource beyond those of `start`. */
  ghost predicate NoNewTelemetry(start: Group, g: Group) {
    && (Insights in g.resources ==> Insights in start.resources)
    && (LogWorkspace in g.resources ==> LogWorkspace in start.resources)
  }

  lemma StageAddsNoTelemetry(start: Group, u: Up, r: Run, n: nat)
    requires n < 7 && OnGoverned(start, r, false, n) && r.status.Running? && NoNewTelemetry(start, r.group)
    ensures NoNewTelemetry(start, StageOf(STAGES[n], u, r).group)
  {
    match n
    case 0 => SuffixStageKeepsTheRest(u, r);
    case 1 => ModeStageKeepsOthers(u, r);
    case 2 =>
    case 3 => CreateKeepsContents(u, r);
    case 4 =>
    case 5 =>
    case _ =>
  }

  lemma {:induction false} StagesAddNoTelemetry(start: Group, g: Group, u: Up, n: nat)
    requires n <= |STAGES| && Governed(start, g, false) && !DropsMode(g, u) && NoNewTelemetry(start, g)
    ensures NoNewTelemetry(start, Stages(g, u, n).group)
  {
    if n > 0 {
      var r := Stages(g, u, n - 1);
      StagesAddNoTelemetry(start, g, u, n - 1);
      StagesOnGoverned(start, g, u, false, n - 1);
      StagesStep(g, u, n);
      if r.status.Running? {
        StageAddsNoTelemetry(start, u, r, n - 1);
      }
    }
  }

  /** From any group whose mode is off: over any such history no run creates a telemetry resource. */
  lemma {:induction false} OffStaysQuiet(g: Group, runs: seq<Up>)
    requires ReadMode(g) == Mode(false) && TagsSafe(g, runs)
    ensures NoNewTelemetry(g, History(g, runs))
  {
    if runs != [] {
      var front := runs[..|runs| - 1];
      TagsSafePrefix(g, runs);
      OffStaysQuiet(g, front);
      TaggedModeGoverns(g, front);
      StagesAddNoTelemetry(g, History(g, front), runs[|runs| - 1], |STAGES|);
    }
  }

  /** Dry runs alone leave the environment blank. */
  lemma {:induction false} DryHistoryStaysBlank(g: Group, runs: seq<Up>)
    requires Blank(g)
    requires forall i :: 0 <= i < |runs| ==> runs[i].dryRun
    ensures Blank(History(g, runs))
  {
    if runs != [] {
      var front, last := runs[..|runs| - 1], runs[|runs| - 1];
      DryHistoryStaysBlank(g, front);
      StagesOnMode(History(g, front), last, |STAGES|);
      DryRunDeploysNothing(History(g, front), last, |STAGES|);
    }
  }

  /** A real run that is answered and not cut off. */
  ghost predicate Unhindered(u: Up) {
    && !u.dryRun && u.configured && u.writes >= |STAGES|
    && u.probes.modeRead && u.probes.existsForMode && u.probes.contents
  }

  ghost predicate OnOpen(u: Up, r: Run, n: nat) {
    && r.status.Running? && r.writes + n >= |STAGES|
    && (n < 2 ==> ReadMode(r.group).Unset?)
    && (n >= 2 ==> r.mode == (u.request == Some(true)))
    && (n < 4 ==> r.group.resources == {})
    && (n < 7 ==> r.group.deployments == [])
    && (n == 7 ==> r.group.deployments == [MainDeployment(r.mode, r.suffix)])
  }

  lemma EarlyStageOnOpen(u: Up, r: Run, n: nat)
    requires n < 2 && OnOpen(u, r, n) && Unhindered(u) && ModeFixed(r.group)
    ensures OnOpen(u, StageOf(STAGES[n], u, r), n + 1)
  {
    assert STAGES[0] == ResolveSuffix && STAGES[1] == ResolveMode;
    if n == 1 {
      assert UntaggedMode(r.group, u).Some?;
      UntaggedModeIsFree(r.group, u);
    } else {
      assert ReadMode(SuffixStage(u, r).group) == ReadMode(r.group);
    }
  }

  lemma LateStageOnOpen(u: Up, r: Run, n: nat)
    requires 2 <= n < 7 && OnOpen(u, r, n) && Unhindered(u)
    ensures OnOpen(u, StageOf(STAGES[n], u, r), n + 1)
  {
    assert STAGES[2] == Configure && STAGES[3] == CreateGroup && STAGES[4] == DeployCluster;
    assert STAGES[5] == RecoverVault && STAGES[6] == DeployMain;
  }

  lemma {:induction false} UnhinderedRuns(g: Group, u: Up, n: nat)
    requires Blank(g) && Unhindered(u) && n <= |STAGES|
    ensures OnOpen(u, Stages(g, u, n), n)
  {
    if n > 0 {
      UnhinderedRuns(g, u, n - 1);
      var r := Stages(g, u, n - 1);
      if n <= 2 {
        StagesOnMode(g, u, n - 1);
        EarlyStageOnOpen(u, r, n - 1);
      } else {
        LateStageOnOpen(u, r, n - 1);
      }
    }
  }

  /** After dry runs only, a real run deploys in whichever mode it asks for, off by default. */
  lemma DryRunsLeaveModeOpen(g: Group, runs: seq<Up>, u: Up)
    requires Blank(g)
    requires forall i :: 0 <= i < |runs| ==> runs[i].dryRun
    requires Unhindered(u)
    ensures var h := After(History(g, runs), u);
      && Finished(History(g, runs), u).status.Running?
      && ReadMode(h) == Mode(u.request == Some(true))
      && |h.deployments| == 1 && h.deployments[0].enabled == Some(u.request == Some(true))
  {
    DryHistoryStaysBlank(g, runs);
    UnhinderedRuns(History(g, runs), u, |STAGES|);
    StagesOnMode(History(g, runs), u, |STAGES|);
  }

  /** A run loses a set mode exactly when it is a dry run that replaces the tags. */
  lemma ModeIsKeptExactly(g: Group, u: Up)
    requires g.present && ReadMode(g).Mode? && u.minted != ""
    ensures ReadMode(After(g, u)) == ReadMode(g) <==> !DropsMode(g, u)
  {
    if DropsMode(g, u) {
      ModeIsDropped(g, u);
    } else {
      StagesOnGoverned(g, g, u, ReadMode(g).enabled, |STAGES|);
    }
  }

  lemma ModeIsDropped(g: Group, u: Up)
    requires DropsMode(g, u) && u.minted != ""
    ensures ReadMode(After(g, u)).Unset?
  {
    var r := Stages(g, u, 3);
    assert r.status.Running? && r.writes > 0 && r.suffix != "" by { ArrivalAtCreate(g, u); }
    assert Stages(g, u, 4) == CreateStage(u, r) by { StagesStep(g, u, 4); }
    CreateDropsMode(u, r);
    LaterStagesKeepTags(g, u, 4, |STAGES|);
  }

  lemma CreateDropsMode(u: Up, r: Run)
    requires u.dryRun && r.status.Running? && !u.probes.existsForCreate && r.writes > 0 && r.suffix != ""
    ensures ReadMode(CreateStage(u, r).group).Unset?
  {
    assert InsightsMode !in CreateTags(true, r.mode, r.suffix);
    assert NameSuffix in CreateTags(true, r.mode, r.suffix);
  }

  /** Over a mode-fixed group a run keeps the invariant exactly when it does not replace the tags. */
  lemma RunKeepsModeExactly(g: Group, u: Up)
    requires ModeFixed(g) && u.minted != ""
    ensures ModeFixed(After(g, u)) && SameMode(g, After(g, u)) <==> !DropsMode(g, u)
  {
    if DropsMode(g, u) {
      ModeIsKeptExactly(g, u);
    } else {
      RunKeepsMode(g, u);
    }
  }
}
