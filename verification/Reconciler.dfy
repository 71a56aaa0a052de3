/**
 The loop that brings an identity's credentials to a desired list. Its decisions
 come from one snapshot and a shadow counter; the store changes underneath.
 A run is cut off when its remote writes are used up: a failing command and a
 killed process both stop it between two writes.
 */
module Reconciler {
  import opened Credentials

  datatype Action = Keep | Update | Create | Refuse

  datatype Write = Write(verb: Action, entry: Entry)

  datatype Status = Running | Refused(at: nat) | CutOff(at: nat)

  /** `writes` is what the run has left; `log` is what it wrote, or planned in a dry run. */
  datatype Progress = Progress(store: Store, count: nat, writes: nat, log: seq<Write>, status: Status)

  function Decide(snapshot: Store, count: nat, e: Entry): Action {
    if e.subject in snapshot.Values then Keep
    else if e.name in snapshot then Update
    else if count >= CREDENTIAL_LIMIT then Refuse
    else Create
  }

  function Step(snapshot: Store, dryRun: bool, p: Progress, i: nat, e: Entry): Progress {
    var action := Decide(snapshot, p.count, e);
    var count := if action == Create then p.count + 1 else p.count;
    match action
    case Keep => p
    case Refuse => p.(status := Refused(i))
    case _ =>
      if dryRun then
        p.(log := p.log + [Write(action, e)], count := count)
      else if p.writes == 0 then
        p.(status := CutOff(i))
      else
        Progress(p.store[e.name := e.subject], count, p.writes - 1, p.log + [Write(action, e)], p.status)
  }

  /** The state after the first `n` entries; a refused or cut-off run stays where it stopped. */
  function Steps(snapshot: Store, store: Store, entries: seq<Entry>, dryRun: bool, writes: nat, n: nat): Progress
    requires n <= |entries|
  {
    if n == 0 then Progress(store, |snapshot|, writes, [], Running)
    else
      var p := Steps(snapshot, store, entries, dryRun, writes, n - 1);
      if p.status.Running? then Step(snapshot, dryRun, p, n - 1, entries[n - 1]) else p
  }

  /** A run whose listing succeeded: the snapshot is the store it starts from. */
  function Run(store: Store, entries: seq<Entry>, writes: nat, n: nat): Progress
    requires n <= |entries|
  {
    Steps(store, store, entries, false, writes, n)
  }

  function Reconciled(store: Store, entries: seq<Entry>, writes: nat): Progress {
    Run(store, entries, writes, |entries|)
  }

  /** A managed identity; its credentials are the remote state. */
  class ManagedIdentity {
    var credentials: Store

    constructor ()
      ensures credentials == map[]
    {
      credentials := map[];
    }

    /**
     A failing `list` command is read as an empty listing; everything after it
     works from that snapshot.
     */
    method Reconcile(entries: seq<Entry>, dryRun: bool, listed: bool, writes: nat)
      returns (status: Status, count: nat, log: seq<Write>)
      modifies this
      ensures
        var snapshot := if listed then old(credentials) else map[];
        var p := Steps(snapshot, old(credentials), entries, dryRun, writes, |entries|);
        credentials == p.store && status == p.status && count == p.count && log == p.log
    {
      var snapshot: Store := if listed then credentials else map[];
      count, log, status := |snapshot|, [], Running;
      var left := writes;
      var i := 0;
      while i < |entries| && status.Running?
        invariant i <= |entries|
        invariant Steps(snapshot, old(credentials), entries, dryRun, writes, i)
               == Progress(credentials, count, left, log, status)
        decreases |entries| - i
      {
        count, left, log, status := ReconcileEntry(snapshot, dryRun, entries[i], i, count, left, log);
        i := i + 1;
      }
      if !status.Running? {
        StoppedStays(snapshot, old(credentials), entries, dryRun, writes, i, |entries|);
      }
    }

    /** One turn of the loop. */
    method ReconcileEntry(snapshot: Store, dryRun: bool, e: Entry, i: nat, counted: nat, budget: nat,
                          written: seq<Write>)
      returns (count: nat, left: nat, log: seq<Write>, status: Status)
      modifies this
      ensures Progress(credentials, count, left, log, status)
           == Step(snapshot, dryRun, Progress(old(credentials), counted, budget, written, Running), i, e)
    {
      count, left, log, status := counted, budget, written, Running;
      if e.subject in snapshot.Values {
        return;
      }
      if e.name in snapshot {
        if dryRun {
          log := log + [Write(Update, e)];
        } else if left == 0 {
          status := CutOff(i);
        } else {
          left, credentials, log := left - 1, credentials[e.name := e.subject], log + [Write(Update, e)];
        }
        return;
      }
      if count >= CREDENTIAL_LIMIT {
        status := Refused(i);
      } else if dryRun {
        log, count := log + [Write(Create, e)], count + 1;
      } else if left == 0 {
        status := CutOff(i);
      } else {
        left, credentials, log := left - 1, credentials[e.name := e.subject], log + [Write(Create, e)];
        count := count + 1;
      }
    }

    /** A missing identity has nothing to remove; a failing `list` stops the run instead. */
    method Remove(entries: seq<Entry>, dryRun: bool, present: bool, listed: bool, writes: nat)
      returns (status: Status, log: seq<Entry>)
      requires DistinctNames(entries)
      modifies this
      ensures !present ==> credentials == old(credentials) && status == Running && log == []
      ensures present && !listed ==> credentials == old(credentials) && status == CutOff(0)
      ensures present && listed && dryRun ==> credentials == old(credentials) && status == Running
      ensures present && listed && !dryRun ==>
        credentials == Removed(old(credentials), entries, writes).0
        && status.Running? == Removed(old(credentials), entries, writes).1
      ensures present && listed && status.Running? ==> log == PresentEntries(old(credentials), entries)
    {
      status, log := Running, [];
      if !present {
        return;
      }
      if !listed {
        status := CutOff(0);
        return;
      }
      var existing := credentials;
      var left := writes;
      var i := 0;
      while i < |entries|
        invariant i <= |entries|
        invariant status == Running
        invariant dryRun ==> credentials == existing
        invariant !dryRun ==>
          Removed(existing, entries, writes) == Removed(credentials, entries[i..], left)
        invariant !dryRun ==> forall j :: i <= j < |entries| ==>
          (entries[j].name in existing <==> entries[j].name in credentials)
        invariant log + PresentEntries(existing, entries[i..]) == PresentEntries(existing, entries)
      {
        var e := entries[i];
        assert entries[i..][1..] == entries[i + 1..];
        if e.name in existing {
          if !dryRun {
            if left == 0 {
              status := CutOff(i);
              return;
            }
            left, credentials := left - 1, credentials - {e.name};
          }
          log := log + [e];
        }
        i := i + 1;
      }
    }
  }

  /** Deleting the present names in order; the flag says whether the run reached the end. */
  function Removed(store: Store, entries: seq<Entry>, writes: nat): (Store, bool) {
    if entries == [] then (store, true)
    else if entries[0].name !in store then Removed(store, entries[1..], writes)
    else if writes == 0 then (store, false)
    else Removed(store - {entries[0].name}, entries[1..], writes - 1)
  }

  function PresentEntries(store: Store, entries: seq<Entry>): seq<Entry> {
    if entries == [] then []
    else (if entries[0].name in store then [entries[0]] else []) + PresentEntries(store, entries[1..])
  }

  lemma {:induction false} StoppedStays(snapshot: Store, store: Store, entries: seq<Entry>, dryRun: bool,
                                        writes: nat, i: nat, n: nat)
    requires i <= n <= |entries|
    requires !Steps(snapshot, store, entries, dryRun, writes, i).status.Running?
    ensures Steps(snapshot, store, entries, dryRun, writes, n) == Steps(snapshot, store, entries, dryRun, writes, i)
  {
    if i < n {
      StoppedStays(snapshot, store, entries, dryRun, writes, i, n - 1);
    }
  }
}
