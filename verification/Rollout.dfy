/**
 Rolling a changed osdu-config out: apply it, restart the deployments if the recorded
 hash differs, record the hash. A run may stop before any of the three writes.
 */
module Rollout {

  /** A hash without collisions is as good as the text it was taken of. */
  datatype Digest = NoDigest | Sha256Of(text: string)

  /** `running` maps each deployment to the configuration its pods loaded. */
  datatype Cluster = Cluster(applied: string, recorded: Digest, running: map<string, string>)

  /** `readable` and `listable` are the two queries; a failing one stops the run. */
  datatype Run = Run(config: string, readable: bool, listable: bool, writes: nat)

  function Restarted(running: map<string, string>, config: string): map<string, string> {
    map d | d in running :: config
  }

  function After(c: Cluster, r: Run): Cluster {
    if r.writes == 0 then c
    else
      var applied := c.(applied := r.config);
      if !r.readable || c.recorded == Sha256Of(r.config) || !r.listable then applied
      else if c.running == map[] then
        if r.writes == 1 then applied else applied.(recorded := Sha256Of(r.config))
      else if r.writes == 1 then applied
      else
        var restarted := applied.(running := Restarted(c.running, r.config));
        if r.writes == 2 then restarted else restarted.(recorded := Sha256Of(r.config))
  }

  /** The run reaches its end: nothing to do, or everything done. */
  predicate Finishes(c: Cluster, r: Run) {
    && r.writes > 0 && r.readable
    && (c.recorded == Sha256Of(r.config)
        || (r.listable && r.writes >= if c.running == map[] then 2 else 3))
  }

  /** The run restarts the deployments and stops before it records the hash. */
  predicate StopsAfterRestart(c: Cluster, r: Run) {
    r.writes == 2 && r.readable && r.listable && c.recorded != Sha256Of(r.config) && c.running != map[]
  }

  class Namespace {
    var applied: string
    var recorded: Digest
    var running: map<string, string>

    function State(): Cluster
      reads this
    {
      Cluster(applied, recorded, running)
    }

    constructor (config: string, deployments: map<string, string>)
      ensures State() == Cluster(config, NoDigest, deployments)
    {
      applied, recorded, running := config, NoDigest, deployments;
    }

    method ApplyConfig(r: Run) returns (ok: bool)
      modifies this
      ensures State() == After(old(State()), r)
      ensures ok <==> Finishes(old(State()), r)
    {
      var left := r.writes;
      if left == 0 {
        return false;
      }
      applied, left := r.config, left - 1;
      if !r.readable {
        return false;
      }
      if recorded == Sha256Of(r.config) {
        return true;
      }
      if !r.listable {
        return false;
      }
      if running != map[] {
        if left == 0 {
          return false;
        }
        running, left := Restarted(running, r.config), left - 1;
      }
      if left == 0 {
        return false;
      }
      recorded := Sha256Of(r.config);
      return true;
    }
  }

  // ---- what one run does ----

  /** The run finds another hash recorded, its queries answered and something to restart, and has a write for it. */
  predicate Restarts(c: Cluster, r: Run) {
    r.writes >= 2 && r.readable && r.listable && c.recorded != Sha256Of(r.config) && c.running != map[]
  }

  /**
   A run applies its configuration with its first write; the pods load it exactly when the run
   restarts them; and it records the hash exactly when it also has a last write for that.
   */
  lemma RunDoesExactly(c: Cluster, r: Run)
    ensures After(c, r).applied == if r.writes > 0 then r.config else c.applied
    ensures After(c, r).running.Keys == c.running.Keys
    ensures forall d :: d in c.running ==> After(c, r).running[d] == if Restarts(c, r) then r.config else c.running[d]
    ensures After(c, r).recorded ==
      if Finishes(c, r) then Sha256Of(r.config) else c.recorded
    ensures Finishes(c, r) <==>
      && r.writes > 0 && r.readable
      && (c.recorded == Sha256Of(r.config) || (r.listable && r.writes >= 2 && (Restarts(c, r) ==> r.writes >= 3)))
  {}

  // ---- what a recorded hash means ----

  /** The recorded hash is the hash of the configuration every running pod loaded. */
  ghost predicate Honest(c: Cluster) {
    forall text, d :: c.recorded == Sha256Of(text) && d in c.running ==> c.running[d] == text
  }

  /** If the recorded hash is that of the applied configuration, the pods loaded it. */
  ghost predicate Sound(c: Cluster) {
    c.recorded == Sha256Of(c.applied) ==> forall d :: d in c.running ==> c.running[d] == c.applied
  }

  function History(c: Cluster, runs: seq<Run>): Cluster {
    if runs == [] then c else After(History(c, runs[..|runs| - 1]), runs[|runs| - 1])
  }

  ghost predicate NeverStopsAfterRestart(c: Cluster, runs: seq<Run>) {
    forall i :: 0 <= i < |runs| ==> !StopsAfterRestart(History(c, runs[..i]), runs[i])
  }

  /** Over any runs that finish or stop before the restart, a matching recorded hash can be trusted. */
  lemma {:induction false} RecordedHashIsTrue(c: Cluster, runs: seq<Run>)
    requires Honest(c) && NeverStopsAfterRestart(c, runs)
    ensures Honest(History(c, runs)) && Sound(History(c, runs))
    ensures runs != [] && Finishes(History(c, runs[..|runs| - 1]), runs[|runs| - 1]) ==>
      var h := History(c, runs);
      h.applied == runs[|runs| - 1].config && forall d :: d in h.running ==> h.running[d] == h.applied
  {
    if runs != [] {
      var front := runs[..|runs| - 1];
      forall i | 0 <= i < |front| ensures !StopsAfterRestart(History(c, front[..i]), front[i]) {
        assert front[..i] == runs[..i];
      }
      RecordedHashIsTrue(c, front);
      assert runs[..|front|] == front;
    }
  }

  // ---- a stop between restart and record ----

  /** Every pod runs one configuration, while the record still names another. */
  ghost predicate Stranded(c: Cluster, loaded: string) {
    && c.running != map[]
    && c.recorded != Sha256Of(loaded)
    && forall d :: d in c.running ==> c.running[d] == loaded
  }

  lemma StopStrands(c: Cluster, r: Run)
    requires Honest(c) && StopsAfterRestart(c, r)
    ensures Stranded(After(c, r), r.config) && After(c, r).recorded == c.recorded
  {
    var d :| d in c.running;
    assert d in After(c, r).running;
  }

  /**
   After such a stop and any number of runs that stop before their restart, a finished run
   repairs the namespace exactly when its configuration is not the recorded one.
   */
  lemma {:induction false} RepairedExactly(c: Cluster, loaded: string, stopped: seq<Run>, r: Run)
    requires Stranded(c, loaded)
    requires forall i :: 0 <= i < |stopped| ==>
      !Finishes(History(c, stopped[..i]), stopped[i]) && !StopsAfterRestart(History(c, stopped[..i]), stopped[i])
    requires Finishes(History(c, stopped), r)
    ensures Sound(After(History(c, stopped), r)) <==> c.recorded != Sha256Of(r.config)
    ensures c.recorded != Sha256Of(r.config) ==> Honest(After(History(c, stopped), r))
  {
    StoppedRunsOnlyApply(c, stopped);
    var h := History(c, stopped);
    var d :| d in c.running;
    if c.recorded == Sha256Of(r.config) {
      assert After(h, r).running[d] == loaded;
    }
  }

  lemma {:induction false} StoppedRunsOnlyApply(c: Cluster, stopped: seq<Run>)
    requires c.running != map[]
    requires forall i :: 0 <= i < |stopped| ==>
      !Finishes(History(c, stopped[..i]), stopped[i]) && !StopsAfterRestart(History(c, stopped[..i]), stopped[i])
    ensures History(c, stopped).recorded == c.recorded && History(c, stopped).running == c.running
  {
    if stopped != [] {
      var front := stopped[..|stopped| - 1];
      forall i | 0 <= i < |front|
        ensures !Finishes(History(c, front[..i]), front[i]) && !StopsAfterRestart(History(c, front[..i]), front[i])
      {
        assert front[..i] == stopped[..i];
      }
      StoppedRunsOnlyApply(c, front);
      assert stopped[..|front|] == front;
    }
  }

  // ---- pods that start on their own ----

  /** A pod that starts outside a rollout loads whatever is applied at that moment. */
  function PodStarts(c: Cluster, deployment: string): Cluster {
    c.(running := c.running[deployment := c.applied])
  }

  /** Such a start keeps the record honest exactly when the recorded hash, if any, is that of the applied text. */
  lemma PodStartHonestExactly(c: Cluster, deployment: string)
    requires Honest(c)
    ensures Honest(PodStarts(c, deployment)) <==> c.recorded == NoDigest || c.recorded == Sha256Of(c.applied)
  {
    var p := PodStarts(c, deployment);
    assert p.running[deployment] == c.applied;
  }
}
