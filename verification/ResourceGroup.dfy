/**
 The Azure resource group of one environment. Two of its tags carry decisions that
 must outlive a run: the Application Insights mode and the suffix of resource names.
 */
module ResourceGroup {
  import opened Text

  /** The tags `spi-name-suffix` and `spi-application-insights`, and everyone else's. */
  datatype TagName = NameSuffix | InsightsMode | Foreign(name: string)

  type Tags = map<TagName, string>

  datatype Resource = Cluster | Insights | LogWorkspace | LegacyVault | Other

  /** A main deployment: its recorded parameters, and the suffix its names carried. */
  datatype Deployment = Deployment(enabled: Option<bool>, insightsName: Option<string>, suffix: string)

  datatype Group = Group(
    present: bool, tags: Tags, resources: set<Resource>, deployments: seq<Deployment>)

  const ABSENT := Group(false, map[], {}, [])

  /** Whether each query of a run gets an answer; the three `exists` queries are in order. */
  datatype Probes = Probes(
    suffixRead: bool, vaultList: bool, existsForSuffix: bool,
    modeRead: bool, existsForMode: bool, contents: bool,
    insights: bool, workspace: bool, deployment: bool,
    existsForCreate: bool)

  /**
   One `spi up`. `minted` is the suffix it would mint; `configured` is whether the steps
   between resolving and provisioning pass; `created` is what the main template gets to
   create; `writes` is how many Azure writes go through before the run is cut off. A template
   that fails leaves `partial` behind, and its deployment record when `recorded`.
   */
  datatype Up = Up(
    named: bool, request: Option<bool>, dryRun: bool, minted: string, configured: bool,
    clusterReady: bool, softDeletedVault: bool, created: set<Resource>, probes: Probes, writes: nat,
    partial: set<Resource>, recorded: bool)

  datatype Status = Running | Rejected | CutOff

  /** A run under way: the group, what was resolved so far, and the writes left. */
  datatype Run = Run(group: Group, suffix: string, mode: bool, writes: nat, status: Status)

  // ---- reading tags ----

  function ReadSuffix(g: Group, answered: bool): Option<string> {
    if !answered || !g.present || NameSuffix !in g.tags then None
    else SuffixOf(g.tags[NameSuffix])
  }

  function SuffixOf(text: string): Option<string> {
    var value := Strip(text);
    if value == "" || value == "None" then None else Some(value)
  }

  datatype ModeTag = Unset | Mode(enabled: bool) | Unreadable

  function ReadMode(g: Group): ModeTag {
    if !g.present || InsightsMode !in g.tags then Unset else ModeOf(g.tags[InsightsMode])
  }

  function ModeOf(text: string): ModeTag {
    var value := Lower(Strip(text));
    if value == "" || value == "none" then Unset
    else if value == "true" then Mode(true)
    else if value == "false" then Mode(false)
    else Unreadable
  }

  function ModeText(enabled: bool): string {
    if enabled then "true" else "false"
  }

  function DeployedMode(g: Group): Option<bool> {
    if g.deployments == [] then None
    else
      var last := g.deployments[|g.deployments| - 1];
      match last.enabled
      case Some(enabled) => Some(enabled)
      case None =>
        match last.insightsName
        case Some(name) => Some(Strip(name) != "")
        case None => None
  }

  // ---- the stages of a run ----

  datatype Stage = ResolveSuffix | ResolveMode | Configure | CreateGroup | DeployCluster | RecoverVault | DeployMain

  const STAGES: seq<Stage> :=
    [ResolveSuffix, ResolveMode, Configure, CreateGroup, DeployCluster, RecoverVault, DeployMain]

  function WithTag(g: Group, tag: TagName, value: string): Group {
    g.(tags := g.tags[tag := value])
  }

  /** One Azure write, if the run has one left. */
  function Written(r: Run, g: Group): Run {
    if r.writes == 0 then r.(status := CutOff) else r.(group := g, writes := r.writes - 1)
  }

  /** The suffix of the run; also a dry run persists what it mints for an existing group. */
  function SuffixStage(u: Up, r: Run): Run {
    if !u.named then r.(suffix := "")
    else
      match ReadSuffix(r.group, u.probes.suffixRead)
      case Some(suffix) => r.(suffix := suffix)
      case None =>
        if u.probes.vaultList && LegacyVault in r.group.resources then
          Written(r.(suffix := ""), WithTag(r.group, NameSuffix, ""))
        else if u.probes.existsForSuffix && r.group.present then
          Written(r.(suffix := u.minted), WithTag(r.group, NameSuffix, u.minted))
        else r.(suffix := u.minted)
  }

  /** The mode of the run; a real run on an existing group persists it before going on. */
  function ModeStage(u: Up, r: Run): Run {
    var g := r.group;
    if !u.probes.modeRead || ReadMode(g).Unreadable? then r.(status := Rejected)
    else if ReadMode(g).Mode? then
      if u.request.Some? && u.request.value != ReadMode(g).enabled then r.(status := Rejected)
      else r.(mode := ReadMode(g).enabled)
    else
      match UntaggedMode(g, u)
      case None => r.(status := Rejected)
      case Some(mode) =>
        if u.dryRun || !g.present then r.(mode := mode)
        else Written(r.(mode := mode), WithTag(g, InsightsMode, ModeText(mode)))
  }

  /** The mode of a group without the tag; None when a query fails or the request contradicts it. */
  function UntaggedMode(g: Group, u: Up): Option<bool> {
    if !u.probes.existsForMode || (g.present && !u.probes.contents) then None
    else if g.present && g.resources == {} then Some(u.request == Some(true))
    else
      match InferredMode(g, u.probes)
      case None => None
      case Some(inferred) =>
        if g.present && u.request.Some? && u.request.value != inferred then None
        else if u.request.Some? then u.request
        else Some(inferred)
  }

  /** None when a query the inference needs fails. */
  function InferredMode(g: Group, probes: Probes): Option<bool> {
    if !g.present then Some(false)
    else if !probes.insights then None
    else if Insights in g.resources then Some(true)
    else if !probes.workspace then None
    else if LogWorkspace in g.resources then Some(true)
    else if !probes.deployment then None
    else Some(DeployedMode(g) == Some(true))
  }

  function CreateTags(dryRun: bool, mode: bool, suffix: string): Tags {
    if dryRun then
      if suffix == "" then map[] else map[NameSuffix := suffix]
    else if suffix == "" then map[InsightsMode := ModeText(mode)]
    else map[InsightsMode := ModeText(mode), NameSuffix := suffix]
  }

  /** `az group create --tags` replaces the whole tag set of a group that exists already. */
  function CreateStage(u: Up, r: Run): Run {
    if u.probes.existsForCreate && r.group.present then r
    else
      var tags := CreateTags(u.dryRun, r.mode, r.suffix);
      Written(r, r.group.(present := true, tags := if tags == map[] then r.group.tags else tags))
  }

  /** What the main template may create: telemetry only when enabled, the bare vault only unsuffixed. */
  function Creatable(created: set<Resource>, mode: bool, suffix: string): set<Resource> {
    created
    - (if mode then {} else {Insights, LogWorkspace})
    - (if suffix == "" then {} else {LegacyVault})
  }

  function MainDeployment(mode: bool, suffix: string): Deployment {
    Deployment(Some(mode), Some(if mode then "osdu-insights" else ""), suffix)
  }

  function Deployed(g: Group, created: set<Resource>, mode: bool, suffix: string): Group {
    g.(resources := g.resources + Creatable(created, mode, suffix),
       deployments := g.deployments + [MainDeployment(mode, suffix)])
  }

  /** A template deployment: one write that either goes through or fails half-way. */
  function Templated(r: Run, whole: Group, half: Group): Run {
    if r.writes == 0 then r.(group := half, status := CutOff) else Written(r, whole)
  }

  function HalfDeployed(g: Group, u: Up, mode: bool, suffix: string): Group {
    var h := g.(resources := g.resources + Creatable(u.partial, mode, suffix));
    if u.recorded then h.(deployments := g.deployments + [MainDeployment(mode, suffix)]) else h
  }

  function StageOf(stage: Stage, u: Up, r: Run): Run {
    match stage
    case ResolveSuffix => SuffixStage(u, r)
    case ResolveMode => ModeStage(u, r)
    case Configure => if u.configured then r else r.(status := Rejected)
    case CreateGroup => CreateStage(u, r)
    case DeployCluster =>
      if u.dryRun || (Cluster in r.group.resources && u.clusterReady) then r
      else
        Templated(r, r.group.(resources := r.group.resources + {Cluster}),
                  r.group.(resources := r.group.resources + u.partial * {Cluster}))
    case RecoverVault =>
      if u.dryRun || !u.softDeletedVault then r
      else Written(r, r.group.(resources := r.group.resources + {if r.suffix == "" then LegacyVault else Other}))
    case DeployMain =>
      if u.dryRun then r
      else Templated(r, Deployed(r.group, u.created, r.mode, r.suffix), HalfDeployed(r.group, u, r.mode, r.suffix))
  }

  /** The run after its first `n` stages; a stopped run stays where it is. */
  function Stages(g: Group, u: Up, n: nat): Run
    requires n <= |STAGES|
  {
    if n == 0 then Run(g, "", false, u.writes, Running)
    else
      var r := Stages(g, u, n - 1);
      if r.status.Running? then StageOf(STAGES[n - 1], u, r) else r
  }

  function Finished(g: Group, u: Up): Run {
    Stages(g, u, |STAGES|)
  }

  function After(g: Group, u: Up): Group {
    Finished(g, u).group
  }

  lemma {:induction false} StoppedStays(g: Group, u: Up, i: nat, n: nat)
    requires i <= n <= |STAGES| && !Stages(g, u, i).status.Running?
    ensures Stages(g, u, n) == Stages(g, u, i)
  {
    if i < n {
      StoppedStays(g, u, i, n - 1);
    }
  }

  // ---- the commands, in the order they reach Azure ----

  class Environment {
    var present: bool
    var tags: Tags
    var resources: set<Resource>
    var deployments: seq<Deployment>

    function State(): Group
      reads this
    {
      Group(present, tags, resources, deployments)
    }

    constructor ()
      ensures State() == ABSENT
    {
      present, tags, resources, deployments := false, map[], {}, [];
    }

    method ResolveNameSuffix(u: Up, left: nat) returns (suffix: string, rest: nat, status: Status)
      modifies this
      ensures Run(State(), suffix, false, rest, status)
           == SuffixStage(u, Run(old(State()), "", false, left, Running))
    {
      suffix, rest, status := "", left, Running;
      if !u.named {
        return;
      }
      var existing := ReadSuffix(State(), u.probes.suffixRead);
      if existing.Some? {
        suffix := existing.value;
        return;
      }
      var legacy := u.probes.vaultList && LegacyVault in resources;
      if !legacy {
        suffix := u.minted;
        if !(u.probes.existsForSuffix && present) {
          return;
        }
      }
      if left == 0 {
        status := CutOff;
        return;
      }
      tags, rest := tags[NameSuffix := suffix], left - 1;
    }

    method ResolveApplicationInsights(u: Up, left: nat) returns (mode: bool, rest: nat, status: Status)
      modifies this
      ensures forall suffix :: Run(State(), suffix, mode, rest, status)
                            == ModeStage(u, Run(old(State()), suffix, false, left, Running))
    {
      mode, rest, status := false, left, Running;
      var persisted := ReadMode(State());
      if !u.probes.modeRead || persisted.Unreadable? {
        status := Rejected;
        return;
      }
      if persisted.Mode? {
        if u.request.Some? && u.request.value != persisted.enabled {
          status := Rejected;
        } else {
          mode := persisted.enabled;
        }
        return;
      }
      if !u.probes.existsForMode || (present && !u.probes.contents) {
        status := Rejected;
        return;
      }
      if present && resources == {} {
        mode := u.request == Some(true);
      } else {
        var inferred := false;
        if present {
          if !u.probes.insights {
            status := Rejected;
            return;
          }
          inferred := Insights in resources;
          if !inferred {
            if !u.probes.workspace {
              status := Rejected;
              return;
            }
            inferred := LogWorkspace in resources;
          }
          if !inferred {
            if !u.probes.deployment {
              status := Rejected;
              return;
            }
            inferred := DeployedMode(State()) == Some(true);
          }
          if u.request.Some? && u.request.value != inferred {
            status := Rejected;
            return;
          }
        }
        mode := if u.request.Some? then u.request.value else inferred;
      }
      if !u.dryRun && present {
        if left == 0 {
          status := CutOff;
          return;
        }
        tags, rest := tags[InsightsMode := ModeText(mode)], left - 1;
      }
    }

    method CreateResourceGroup(u: Up, mode: bool, suffix: string, left: nat) returns (rest: nat, status: Status)
      modifies this
      ensures Run(State(), suffix, mode, rest, status) == CreateStage(u, Run(old(State()), suffix, mode, left, Running))
    {
      rest, status := left, Running;
      if u.probes.existsForCreate && present {
        return;
      }
      if left == 0 {
        status := CutOff;
        return;
      }
      var newTags := CreateTags(u.dryRun, mode, suffix);
      present, rest := true, left - 1;
      if newTags != map[] {
        tags := newTags;
      }
    }

    /** Cluster, vault recovery, main template: what a real run does once the group exists. */
    method Deploy(u: Up, mode: bool, suffix: string, left: nat) returns (rest: nat, status: Status)
      requires !u.dryRun
      modifies this
      ensures
        var r0 := Run(old(State()), suffix, mode, left, Running);
        var r1 := StageOf(DeployCluster, u, r0);
        var r2 := if r1.status.Running? then StageOf(RecoverVault, u, r1) else r1;
        var r3 := if r2.status.Running? then StageOf(DeployMain, u, r2) else r2;
        Run(State(), suffix, mode, rest, status) == r3
    {
      rest, status := left, Running;
      if !(Cluster in resources && u.clusterReady) {
        if rest == 0 {
          resources, status := resources + u.partial * {Cluster}, CutOff;
          return;
        }
        resources, rest := resources + {Cluster}, rest - 1;
      }
      if u.softDeletedVault {
        if rest == 0 {
          status := CutOff;
          return;
        }
        resources, rest := resources + {if suffix == "" then LegacyVault else Other}, rest - 1;
      }
      if rest == 0 {
        resources, status := resources + Creatable(u.partial, mode, suffix), CutOff;
        if u.recorded {
          deployments := deployments + [MainDeployment(mode, suffix)];
        }
        return;
      }
      resources := resources + Creatable(u.created, mode, suffix);
      deployments := deployments + [MainDeployment(mode, suffix)];
      rest := rest - 1;
    }

    method RunUp(u: Up) returns (status: Status)
      modifies this
      ensures State() == After(old(State()), u)
      ensures status == Finished(old(State()), u).status
    {
      ghost var g := State();
      var suffix, left, mode;
      suffix, left, status := ResolveNameSuffix(u, u.writes);
      assert Stages(g, u, 1) == Run(State(), suffix, false, left, status);
      if !status.Running? {
        StoppedStays(g, u, 1, 7);
        return;
      }
      mode, left, status := ResolveApplicationInsights(u, left);
      assert Stages(g, u, 2) == Run(State(), suffix, mode, left, status);
      if !status.Running? {
        StoppedStays(g, u, 2, 7);
        return;
      }
      if !u.configured {
        status := Rejected;
        StoppedStays(g, u, 3, 7);
        return;
      }
      assert Stages(g, u, 3) == Run(State(), suffix, mode, left, status);
      left, status := CreateResourceGroup(u, mode, suffix, left);
      assert Stages(g, u, 4) == Run(State(), suffix, mode, left, status);
      if !status.Running? {
        StoppedStays(g, u, 4, 7);
        return;
      }
      assert STAGES[4] == DeployCluster && STAGES[5] == RecoverVault && STAGES[6] == DeployMain;
      if u.dryRun {
        assert Stages(g, u, 5) == Stages(g, u, 4);
        assert Stages(g, u, 6) == Stages(g, u, 5);
        return;
      }
      ghost var r4 := Stages(g, u, 4);
      left, status := Deploy(u, mode, suffix, left);
      ghost var r5 := Stages(g, u, 5);
      assert r5 == StageOf(DeployCluster, u, r4);
      ghost var r6 := Stages(g, u, 6);
      assert r6 == if r5.status.Running? then StageOf(RecoverVault, u, r5) else r5;
    }
  }
}
