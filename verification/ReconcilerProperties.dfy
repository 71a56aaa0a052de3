/** What one reconcile run does to a store, at every point where it can stop. */
module ReconcilerProperties {
  import opened Text
  import opened Credentials
  import opened Reconciler

  // ---- the loop against a plain overwrite ----

  /** The store with the desired subjects it lacked written over it, for the first `n` entries. */
  function Overwritten(store: Store, entries: seq<Entry>, n: nat): Store
    requires n <= |entries|
  {
    if n == 0 then store
    else if entries[n - 1].subject in store.Values then Overwritten(store, entries, n - 1)
    else Overwritten(store, entries, n - 1)[entries[n - 1].name := entries[n - 1].subject]
  }

  function Target(store: Store, entries: seq<Entry>): Store {
    Overwritten(store, entries, |entries|)
  }

  /** How many entries a run that looked at `n` of them has dealt with. */
  function Reached(p: Progress, n: nat): nat {
    match p.status
    case Running => n
    case Refused(at) => at
    case CutOff(at) => at
  }

  lemma UpdateSize(store: Store, name: string, subject: string)
    ensures |store[name := subject]| == if name in store then |store| else |store| + 1
  {
    assert store[name := subject].Keys == store.Keys + {name};
  }

  /** The run will put another subject under this name. */
  ghost predicate DueForUpdate(store: Store, entries: seq<Entry>, n: nat, m: string)
    requires n <= |entries|
  {
    exists j :: 0 <= j < n && entries[j].name == m && entries[j].subject !in store.Values
  }

  /** A name that is not due keeps what it holds. */
  lemma {:induction false} OthersKept(store: Store, entries: seq<Entry>, n: nat, m: string)
    requires n <= |entries| && DistinctNames(entries) && !DueForUpdate(store, entries, n, m)
    ensures m in store <==> m in Overwritten(store, entries, n)
    ensures m in store ==> store[m] == Overwritten(store, entries, n)[m]
  {
    if n > 0 {
      assert !DueForUpdate(store, entries, n - 1, m);
      assert m == entries[n - 1].name ==> entries[n - 1].subject in store.Values;
      OthersKept(store, entries, n - 1, m);
    }
  }

  /** A name that is due gets its entry's subject. */
  lemma {:induction false} DueWritten(store: Store, entries: seq<Entry>, n: nat, j: nat)
    requires j < n <= |entries| && DistinctNames(entries) && entries[j].subject !in store.Values
    ensures entries[j].name in Overwritten(store, entries, n)
    ensures Overwritten(store, entries, n)[entries[j].name] == entries[j].subject
  {
    if j < n - 1 {
      DueWritten(store, entries, n - 1, j);
      assert entries[j].name != entries[n - 1].name;
    }
  }

  lemma Lookup(store: Store, entries: seq<Entry>, n: nat)
    requires n <= |entries| && DistinctNames(entries)
    ensures forall j :: 0 <= j < n && entries[j].subject !in store.Values ==>
      entries[j].name in Overwritten(store, entries, n)
      && Overwritten(store, entries, n)[entries[j].name] == entries[j].subject
    ensures forall m :: !DueForUpdate(store, entries, n, m) ==>
      (m in store <==> m in Overwritten(store, entries, n))
      && (m in store ==> store[m] == Overwritten(store, entries, n)[m])
  {
    forall j | 0 <= j < n && entries[j].subject !in store.Values
      ensures entries[j].name in Overwritten(store, entries, n)
      ensures Overwritten(store, entries, n)[entries[j].name] == entries[j].subject
    {
      DueWritten(store, entries, n, j);
    }
    forall m | !DueForUpdate(store, entries, n, m)
      ensures m in store <==> m in Overwritten(store, entries, n)
      ensures m in store ==> store[m] == Overwritten(store, entries, n)[m]
    {
      OthersKept(store, entries, n, m);
    }
  }

  lemma NewNameIsAbsent(store: Store, entries: seq<Entry>, n: nat)
    requires 0 < n <= |entries| && DistinctNames(entries)
    ensures entries[n - 1].name in Overwritten(store, entries, n - 1) <==> entries[n - 1].name in store
  {
    Lookup(store, entries, n - 1);
    assert !DueForUpdate(store, entries, n - 1, entries[n - 1].name);
  }

  /** Where a run stands relative to the overwrite and the limit. */
  ghost predicate OnTrack(store: Store, entries: seq<Entry>, p: Progress, n: nat)
    requires n <= |entries|
  {
    && Reached(p, n) <= n
    && p.store == Overwritten(store, entries, Reached(p, n))
    && p.count == |p.store|
    && |store| <= |p.store|
    && (|p.store| <= CREDENTIAL_LIMIT || |p.store| == |store|)
  }

  lemma StepStaysOnTrack(store: Store, entries: seq<Entry>, p: Progress, n: nat)
    requires 0 < n <= |entries| && DistinctNames(entries)
    requires p.status.Running? && OnTrack(store, entries, p, n - 1)
    ensures OnTrack(store, entries, Step(store, false, p, n - 1, entries[n - 1]), n)
  {
    var e := entries[n - 1];
    NewNameIsAbsent(store, entries, n);
    UpdateSize(p.store, e.name, e.subject);
    match Decide(store, p.count, e)
    case Keep => assert Overwritten(store, entries, n) == p.store;
    case Refuse =>
    case _ => assert Overwritten(store, entries, n) == p.store[e.name := e.subject];
  }

  /**
   In every loop state the store is the snapshot with the dealt-with part of the
   desired list written over it, the shadow counter is the true size, and the
   limit is never passed. Decisions from the stale snapshot are enough for this.
   */
  lemma {:induction false} LoopState(store: Store, entries: seq<Entry>, writes: nat, n: nat)
    requires n <= |entries| && DistinctNames(entries)
    ensures OnTrack(store, entries, Run(store, entries, writes, n), n)
  {
    if n > 0 {
      LoopState(store, entries, writes, n - 1);
      var q := Run(store, entries, writes, n - 1);
      if q.status.Running? {
        StepStaysOnTrack(store, entries, q, n);
      }
    }
  }

  /** Names outside the desired list keep their subject, wherever the run stops. */
  lemma {:induction false} ReconcileFrame(store: Store, entries: seq<Entry>, writes: nat, n: nat, m: string)
    requires n <= |entries|
    requires forall j :: 0 <= j < |entries| ==> entries[j].name != m
    ensures var p := Run(store, entries, writes, n);
      && (m in p.store <==> m in store)
      && (m in store ==> p.store[m] == store[m])
  {
    if n > 0 {
      ReconcileFrame(store, entries, writes, n - 1, m);
    }
  }

  /** Distinct subjects stay distinct in every loop state. */
  lemma {:induction false} SubjectsStayDistinct(store: Store, entries: seq<Entry>, writes: nat, n: nat)
    requires n <= |entries| && DistinctNames(entries) && DistinctSubjects(entries)
    requires SubjectsDistinct(store)
    ensures SubjectsDistinct(Run(store, entries, writes, n).store)
  {
    LoopState(store, entries, writes, n);
    OverwrittenDistinct(store, entries, Reached(Run(store, entries, writes, n), n));
  }

  lemma {:induction false} OverwrittenDistinct(store: Store, entries: seq<Entry>, n: nat)
    requires n <= |entries| && DistinctNames(entries) && DistinctSubjects(entries)
    requires SubjectsDistinct(store)
    ensures SubjectsDistinct(Overwritten(store, entries, n))
  {
    Lookup(store, entries, n);
    var f := Overwritten(store, entries, n);
    assert forall m :: m in f ==> (DueForUpdate(store, entries, n, m) <==> f[m] !in store.Values);
  }

  // ---- refusal ----

  lemma {:induction false} OverwrittenGrows(store: Store, entries: seq<Entry>, i: nat, n: nat)
    requires i <= n <= |entries|
    ensures |Overwritten(store, entries, i)| <= |Overwritten(store, entries, n)|
  {
    if i < n {
      OverwrittenGrows(store, entries, i, n - 1);
      UpdateSize(Overwritten(store, entries, n - 1), entries[n - 1].name, entries[n - 1].subject);
    }
  }

  lemma RefusedStep(store: Store, entries: seq<Entry>, p: Progress, n: nat)
    requires 0 < n <= |entries| && DistinctNames(entries)
    requires p.status.Running? && OnTrack(store, entries, p, n - 1)
    requires Step(store, false, p, n - 1, entries[n - 1]).status.Refused?
    ensures Step(store, false, p, n - 1, entries[n - 1]).status.at == n - 1
    ensures |Overwritten(store, entries, n)| > CREDENTIAL_LIMIT && |Overwritten(store, entries, n)| > |store|
  {
    NewNameIsAbsent(store, entries, n);
    UpdateSize(p.store, entries[n - 1].name, entries[n - 1].subject);
  }

  lemma {:induction false} RefusedAtFull(store: Store, entries: seq<Entry>, writes: nat, n: nat)
    requires n <= |entries| && DistinctNames(entries)
    requires Run(store, entries, writes, n).status.Refused?
    ensures var at := Run(store, entries, writes, n).status.at;
      && at < n
      && |Overwritten(store, entries, at + 1)| > CREDENTIAL_LIMIT
      && |Overwritten(store, entries, at + 1)| > |store|
  {
    assert n > 0;
    var q := Run(store, entries, writes, n - 1);
    if q.status.Running? {
      LoopState(store, entries, writes, n - 1);
      RefusedStep(store, entries, q, n);
    } else {
      RefusedAtFull(store, entries, writes, n - 1);
    }
  }

  lemma {:induction false} EnoughWritesNeverCutOff(store: Store, entries: seq<Entry>, writes: nat, n: nat)
    requires n <= |entries| <= writes
    ensures !Run(store, entries, writes, n).status.CutOff?
    ensures Run(store, entries, writes, n).writes >= writes - n
  {
    if n > 0 {
      EnoughWritesNeverCutOff(store, entries, writes, n - 1);
    }
  }

  lemma RefusedOverLimit(store: Store, entries: seq<Entry>, writes: nat)
    requires DistinctNames(entries)
    requires Reconciled(store, entries, writes).status.Refused?
    ensures |Target(store, entries)| > CREDENTIAL_LIMIT && |Target(store, entries)| > |store|
  {
    RefusedAtFull(store, entries, writes, |entries|);
    StaysOverLimit(store, entries, Reconciled(store, entries, writes).status.at + 1);
  }

  lemma StaysOverLimit(store: Store, entries: seq<Entry>, n: nat)
    requires n <= |entries|
    requires |Overwritten(store, entries, n)| > CREDENTIAL_LIMIT && |Overwritten(store, entries, n)| > |store|
    ensures |Target(store, entries)| > CREDENTIAL_LIMIT && |Target(store, entries)| > |store|
  {
    OverwrittenGrows(store, entries, n, |entries|);
  }

  /** A finished run reaches its target, within the limit unless it found the store beyond it. */
  lemma FinishedAtTarget(store: Store, entries: seq<Entry>, writes: nat)
    requires DistinctNames(entries)
    requires Reconciled(store, entries, writes).status.Running?
    ensures Reconciled(store, entries, writes).store == Target(store, entries)
    ensures |Target(store, entries)| <= CREDENTIAL_LIMIT || |Target(store, entries)| == |store|
  {
    LoopState(store, entries, writes, |entries|);
  }

  /**
   An uninterrupted run is refused exactly when the store it aims for is larger
   than the limit and larger than the store it found.
   */
  lemma RefusedExactly(store: Store, entries: seq<Entry>, writes: nat)
    requires DistinctNames(entries) && |entries| <= writes
    ensures Reconciled(store, entries, writes).status.Refused?
       <==> |Target(store, entries)| > CREDENTIAL_LIMIT && |Target(store, entries)| > |store|
  {
    var p := Reconciled(store, entries, writes);
    EnoughWritesNeverCutOff(store, entries, writes, |entries|);
    if p.status.Refused? {
      RefusedOverLimit(store, entries, writes);
    } else {
      FinishedAtTarget(store, entries, writes);
    }
  }

  // ---- completeness ----

  ghost predicate Holds(store: Store, entries: seq<Entry>) {
    forall i :: 0 <= i < |entries| ==> entries[i].subject in store.Values
  }

  /** The subject sits under some name the run leaves alone. */
  ghost predicate SafelyHeld(store: Store, entries: seq<Entry>, subject: string) {
    exists m :: m in store && store[m] == subject && !DueForUpdate(store, entries, |entries|, m)
  }

  /** Each desired subject the snapshot shows is safely held. */
  ghost predicate NothingStranded(store: Store, entries: seq<Entry>) {
    forall i :: 0 <= i < |entries| && entries[i].subject in store.Values ==>
      SafelyHeld(store, entries, entries[i].subject)
  }

  /** A finished run leaves every desired subject in the store exactly when nothing was stranded. */
  lemma CompleteExactly(store: Store, entries: seq<Entry>, writes: nat)
    requires DistinctNames(entries)
    requires Reconciled(store, entries, writes).status.Running?
    ensures Holds(Reconciled(store, entries, writes).store, entries) <==> NothingStranded(store, entries)
  {
    LoopState(store, entries, writes, |entries|);
    forall i | 0 <= i < |entries|
      ensures entries[i].subject in Target(store, entries).Values <==>
        (entries[i].subject in store.Values ==> SafelyHeld(store, entries, entries[i].subject))
    {
      HeldExactly(store, entries, i);
    }
  }

  lemma HeldExactly(store: Store, entries: seq<Entry>, i: nat)
    requires DistinctNames(entries) && i < |entries|
    ensures entries[i].subject in Target(store, entries).Values <==>
      (entries[i].subject in store.Values ==> SafelyHeld(store, entries, entries[i].subject))
  {
    Lookup(store, entries, |entries|);
    var final, s := Target(store, entries), entries[i].subject;
    if s !in store.Values {
      assert final[entries[i].name] == s;
    } else if s in final.Values {
      var m :| m in final && final[m] == s;
      assert m in store && store[m] == s && !DueForUpdate(store, entries, |entries|, m);
    }
  }

  /** A hand-made list can lose a subject the stale snapshot reports as present. */
  lemma StaleSnapshotLosesSubject()
    ensures var store: Store := map["first" := "b"];
      var entries := [Entry("first", "a"), Entry("second", "b")];
      && Reconciled(store, entries, 2).status.Running?
      && !Holds(Reconciled(store, entries, 2).store, entries)
  {
    var store: Store := map["first" := "b"];
    var entries := [Entry("first", "a"), Entry("second", "b")];
    assert store["first"] == "b";
    assert Decide(store, 1, entries[0]) == Update;
    var p1 := Run(store, entries, 2, 1);
    assert p1 == Step(store, false, Run(store, entries, 2, 0), 0, entries[0]);
    assert p1.store == map["first" := "a"];
    assert Run(store, entries, 2, 2) == p1;
    assert entries[1].subject !in p1.store.Values;
  }

  lemma GeneratedStrandsNothing(lane: string, service: string, prefix: string, store: Store)
    requires Kinded(lane, store)
    ensures NothingStranded(store, Generated(lane, service, prefix))
  {
    var entries := Generated(lane, service, prefix);
    forall i: Kind | entries[i].subject in store.Values
      ensures SafelyHeld(store, entries, entries[i].subject)
    {
      var m :| m in store && store[m] == entries[i].subject;
      if DueForUpdate(store, entries, 4, m) {
        var j: Kind :| entries[j].name == m && entries[j].subject !in store.Values;
        assert CredentialName(lane, service, j) in store;
        ConcatEndsWith(prefix, SubjectEnding(i));
        OneSubjectEnding(store[m], i, j);
        assert false;
      }
    }
  }

  lemma KindedUpdate(lane: string, store: Store, service: string, prefix: string, k: Kind)
    requires Kinded(lane, store)
    ensures Kinded(lane, store[CredentialName(lane, service, k) := Subject(prefix, k)])
  {
    var after := store[CredentialName(lane, service, k) := Subject(prefix, k)];
    ConcatEndsWith(prefix, SubjectEnding(k));
    forall t: string, j: Kind | CredentialName(lane, t, j) in after
      ensures EndsWith(after[CredentialName(lane, t, j)], SubjectEnding(j))
    {
      if CredentialName(lane, t, j) == CredentialName(lane, service, k) {
        NameIsInjective(lane, t, j, service, k);
      }
    }
  }

  lemma KindedStep(lane: string, service: string, prefix: string, snapshot: Store, p: Progress, k: Kind)
    requires Kinded(lane, p.store)
    ensures Kinded(lane, Step(snapshot, false, p, k, Generated(lane, service, prefix)[k]).store)
  {
    var e := Generated(lane, service, prefix)[k];
    var after := StoreAfterStep(snapshot, p, k, e);
    if after != p.store {
      KindedUpdate(lane, p.store, service, prefix, k);
    }
  }

  lemma StoreAfterStep(snapshot: Store, p: Progress, i: nat, e: Entry) returns (after: Store)
    ensures after == Step(snapshot, false, p, i, e).store
    ensures after == p.store || after == p.store[e.name := e.subject]
  {
    after := Step(snapshot, false, p, i, e).store;
  }

  /** Runs keep every lane name on its own kind's subjects, wherever they stop and whatever snapshot they saw. */
  lemma {:induction false} KindedIsKept(lane: string, service: string, prefix: string, snapshot: Store,
                                        store: Store, writes: nat, n: nat)
    requires Kinded(lane, store) && n <= 4
    ensures Kinded(lane, Steps(snapshot, store, Generated(lane, service, prefix), false, writes, n).store)
  {
    if n > 0 {
      var entries := Generated(lane, service, prefix);
      KindedIsKept(lane, service, prefix, snapshot, store, writes, n - 1);
      KindedStep(lane, service, prefix, snapshot, Steps(snapshot, store, entries, false, writes, n - 1), n - 1);
    }
  }

  /**
   A finished run for a generated list leaves all four subjects in the store, although
   every decision was taken from the stale snapshot.
   */
  lemma GeneratedRunCompletes(lane: string, service: string, prefix: string, store: Store, writes: nat)
    requires Kinded(lane, store)
    requires Reconciled(store, Generated(lane, service, prefix), writes).status.Running?
    ensures Holds(Reconciled(store, Generated(lane, service, prefix), writes).store, Generated(lane, service, prefix))
  {
    GeneratedIsDistinct(lane, service, prefix);
    GeneratedStrandsNothing(lane, service, prefix, store);
    CompleteExactly(store, Generated(lane, service, prefix), writes);
  }

  /** From a store that holds the desired subjects a run writes nothing and is never refused. */
  lemma {:induction false} NothingToDo(store: Store, entries: seq<Entry>, writes: nat, n: nat)
    requires Holds(store, entries) && n <= |entries|
    ensures Run(store, entries, writes, n) == Progress(store, |store|, writes, [], Running)
  {
    if n > 0 {
      NothingToDo(store, entries, writes, n - 1);
    }
  }

  /** Running a finished generated run again, with any write budget, performs no change. */
  lemma SecondRunIsNoOp(lane: string, service: string, prefix: string, store: Store, writes: nat, again: nat)
    requires Kinded(lane, store)
    requires Reconciled(store, Generated(lane, service, prefix), writes).status.Running?
    ensures var first := Reconciled(store, Generated(lane, service, prefix), writes);
      Reconciled(first.store, Generated(lane, service, prefix), again)
      == Progress(first.store, |first.store|, again, [], Running)
  {
    GeneratedRunCompletes(lane, service, prefix, store, writes);
    var first := Reconciled(store, Generated(lane, service, prefix), writes);
    NothingToDo(first.store, Generated(lane, service, prefix), again, 4);
  }

  // ---- dry runs ----

  function Performed(store: Store, log: seq<Write>): Store {
    if log == [] then store
    else Performed(store, log[..|log| - 1])[log[|log| - 1].entry.name := log[|log| - 1].entry.subject]
  }

  /** The two runs have come equally far, or the real one was cut off on the way. */
  ghost predicate Alike(store: Store, dry: Progress, actual: Progress, writes: nat) {
    && dry.store == store
    && !dry.status.CutOff?
    && (!actual.status.CutOff? ==>
         dry.log == actual.log && dry.status == actual.status && dry.count == actual.count)
    && (actual.status.CutOff? ==> actual.log <= dry.log && |actual.log| == writes)
    && actual.writes == writes - |actual.log|
  }

  lemma AlikeStep(snapshot: Store, store: Store, dry: Progress, actual: Progress, writes: nat, i: nat, e: Entry)
    requires Alike(store, dry, actual, writes)
    ensures Alike(store, if dry.status.Running? then Step(snapshot, true, dry, i, e) else dry,
                  if actual.status.Running? then Step(snapshot, false, actual, i, e) else actual, writes)
  {}

  /**
   A dry run changes nothing, plans exactly the writes the real run performs in the same order,
   and is refused at the same entry exactly when the real run is, whatever snapshot both saw.
   */
  lemma {:induction false} DryRunAgrees(snapshot: Store, store: Store, entries: seq<Entry>, writes: nat, n: nat)
    requires n <= |entries|
    ensures Alike(store, Steps(snapshot, store, entries, true, writes, n),
                  Steps(snapshot, store, entries, false, writes, n), writes)
  {
    if n > 0 {
      DryRunAgrees(snapshot, store, entries, writes, n - 1);
      AlikeStep(snapshot, store, Steps(snapshot, store, entries, true, writes, n - 1),
                Steps(snapshot, store, entries, false, writes, n - 1), writes, n - 1, entries[n - 1]);
    }
  }

  /** The verb for an entry, as the remote side would see it: a name it listed is updated, any other created. */
  ghost predicate RightVerb(snapshot: Store, w: Write) {
    w.verb == if w.entry.name in snapshot then Update else Create
  }

  /** `at` lists the positions of the logged entries: those dealt with whose subject the snapshot lacked, in order. */
  ghost predicate LogsMissing(snapshot: Store, entries: seq<Entry>, p: Progress, n: nat, at: seq<nat>)
    requires n <= |entries|
  {
    && |at| == |p.log| && Reached(p, n) <= n
    && (forall k :: 0 <= k < |at| ==>
          at[k] < Reached(p, n) && p.log[k].entry == entries[at[k]]
          && entries[at[k]].subject !in snapshot.Values && RightVerb(snapshot, p.log[k]))
    && (forall k, l :: 0 <= k < l < |at| ==> at[k] < at[l])
    && (forall j :: 0 <= j < Reached(p, n) && entries[j].subject !in snapshot.Values ==> j in at)
  }

  /**
   The log, written or planned, is exactly the missing subjects dealt with, in the list's order,
   each with the verb its name calls for.
   */
  lemma {:induction false} LogIsWhatWasMissing(snapshot: Store, store: Store, entries: seq<Entry>, dryRun: bool,
                                               writes: nat, n: nat)
    returns (at: seq<nat>)
    requires n <= |entries|
    ensures LogsMissing(snapshot, entries, Steps(snapshot, store, entries, dryRun, writes, n), n, at)
  {
    if n == 0 {
      at := [];
    } else {
      var p := Steps(snapshot, store, entries, dryRun, writes, n - 1);
      at := LogIsWhatWasMissing(snapshot, store, entries, dryRun, writes, n - 1);
      at := LoggedAfter(snapshot, entries, dryRun, p, n - 1, at);
    }
  }

  lemma LoggedAfter(snapshot: Store, entries: seq<Entry>, dryRun: bool, p: Progress, n: nat, before: seq<nat>)
    returns (at: seq<nat>)
    requires n < |entries| && LogsMissing(snapshot, entries, p, n, before)
    ensures var q := if p.status.Running? then Step(snapshot, dryRun, p, n, entries[n]) else p;
      LogsMissing(snapshot, entries, q, n + 1, at)
  {
    if p.status.Running? {
      at := LoggedNext(snapshot, entries, dryRun, p, n, before);
    } else {
      at := before;
      LoggedStopped(snapshot, entries, p, n, at);
    }
  }

  lemma LoggedStopped(snapshot: Store, entries: seq<Entry>, p: Progress, n: nat, at: seq<nat>)
    requires n < |entries| && !p.status.Running? && LogsMissing(snapshot, entries, p, n, at)
    ensures LogsMissing(snapshot, entries, p, n + 1, at)
  {}

  /** One entry either adds its own line and goes on, is held already and goes on, or stops the run. */
  lemma StepLogs(snapshot: Store, dryRun: bool, p: Progress, i: nat, e: Entry)
    requires p.status.Running?
    ensures var q := Step(snapshot, dryRun, p, i, e);
      || (q.status.Running? && e.subject in snapshot.Values && q.log == p.log)
      || (q.status.Running? && e.subject !in snapshot.Values && |q.log| == |p.log| + 1
          && q.log == p.log + [q.log[|p.log|]] && q.log[|p.log|].entry == e && RightVerb(snapshot, q.log[|p.log|]))
      || (q.status == Refused(i) && q.log == p.log)
      || (q.status == CutOff(i) && q.log == p.log)
  {}

  lemma LoggedNext(snapshot: Store, entries: seq<Entry>, dryRun: bool, p: Progress, n: nat, before: seq<nat>)
    returns (at: seq<nat>)
    requires n < |entries| && p.status.Running? && LogsMissing(snapshot, entries, p, n, before)
    ensures LogsMissing(snapshot, entries, Step(snapshot, dryRun, p, n, entries[n]), n + 1, at)
  {
    var q := Step(snapshot, dryRun, p, n, entries[n]);
    StepLogs(snapshot, dryRun, p, n, entries[n]);
    if |q.log| == |p.log| {
      at := before;
      LoggedSame(snapshot, entries, p, q, n, at);
    } else {
      at := before + [n];
      LoggedMore(snapshot, entries, p, q, n, before);
    }
  }

  lemma LoggedSame(snapshot: Store, entries: seq<Entry>, p: Progress, q: Progress, n: nat, at: seq<nat>)
    requires n < |entries| && p.status.Running? && LogsMissing(snapshot, entries, p, n, at) && q.log == p.log
    requires if q.status.Running? then entries[n].subject in snapshot.Values else Reached(q, n + 1) == n
    ensures LogsMissing(snapshot, entries, q, n + 1, at)
  {}

  lemma LoggedMore(snapshot: Store, entries: seq<Entry>, p: Progress, q: Progress, n: nat, at: seq<nat>)
    requires n < |entries| && p.status.Running? && LogsMissing(snapshot, entries, p, n, at)
    requires q.status.Running? && |q.log| == |p.log| + 1 && q.log[..|p.log|] == p.log
    requires q.log[|p.log|].entry == entries[n] && RightVerb(snapshot, q.log[|p.log|])
    requires entries[n].subject !in snapshot.Values
    ensures LogsMissing(snapshot, entries, q, n + 1, at + [n])
  {
    var longer := at + [n];
    forall k | 0 <= k < |longer|
      ensures q.log[k].entry == entries[longer[k]] && entries[longer[k]].subject !in snapshot.Values
      ensures RightVerb(snapshot, q.log[k])
    {
      if k < |at| {
        assert q.log[k] == q.log[..|p.log|][k];
      }
    }
    forall j | 0 <= j < n + 1 && entries[j].subject !in snapshot.Values ensures j in longer {
      assert longer[|at|] == n;
    }
  }

  /** The log of a real run accounts for every change it made. */
  lemma {:induction false} LogAccountsForStore(snapshot: Store, store: Store, entries: seq<Entry>, writes: nat, n: nat)
    requires n <= |entries|
    ensures var p := Steps(snapshot, store, entries, false, writes, n); p.store == Performed(store, p.log)
  {
    if n > 0 {
      LogAccountsForStore(snapshot, store, entries, writes, n - 1);
      LoggedStep(store, snapshot, Steps(snapshot, store, entries, false, writes, n - 1), n - 1, entries[n - 1]);
    }
  }

  lemma LoggedStep(start: Store, snapshot: Store, p: Progress, i: nat, e: Entry)
    requires p.store == Performed(start, p.log)
    ensures var q := Step(snapshot, false, p, i, e); q.store == Performed(start, q.log)
  {
    var q := Step(snapshot, false, p, i, e);
    assert q.log != p.log ==> q.log[..|q.log| - 1] == p.log;
  }

  // ---- listing failures ----

  /** The first `n` entries written over the store, needed or not. */
  function Put(store: Store, entries: seq<Entry>, n: nat): Store
    requires n <= |entries|
  {
    if n == 0 then store else Put(store, entries, n - 1)[entries[n - 1].name := entries[n - 1].subject]
  }

  ghost predicate Blind(store: Store, entries: seq<Entry>, writes: nat, p: Progress, n: nat)
    requires n <= |entries|
  {
    && p.store == Put(store, entries, if n < writes then n else writes)
    && (p.status.Running? <==> n <= writes) && !p.status.Refused?
    && (p.status.Running? ==> p.count == n && p.writes == writes - n)
  }

  /** A failing listing is read as an empty one: the run writes every entry, as far as it gets. */
  lemma {:induction false} BlindRun(store: Store, entries: seq<Entry>, writes: nat, n: nat)
    requires n <= |entries| <= CREDENTIAL_LIMIT
    ensures Blind(store, entries, writes, Steps(map[], store, entries, false, writes, n), n)
  {
    if n > 0 {
      BlindRun(store, entries, writes, n - 1);
      var p := Steps(map[], store, entries, false, writes, n - 1);
      if p.status.Running? {
        BlindNext(store, entries, writes, p, n - 1);
      }
    }
  }

  lemma BlindNext(store: Store, entries: seq<Entry>, writes: nat, p: Progress, n: nat)
    requires n < |entries| <= CREDENTIAL_LIMIT && p.status.Running? && Blind(store, entries, writes, p, n)
    ensures Blind(store, entries, writes, Step(map[], false, p, n, entries[n]), n + 1)
  {
    BlindStep(p, n, entries[n]);
  }

  lemma BlindStep(p: Progress, i: nat, e: Entry)
    requires p.status.Running? && p.count < CREDENTIAL_LIMIT
    ensures var q := Step(map[], false, p, i, e);
      if p.writes == 0 then q == p.(status := CutOff(i))
      else
        && q.store == p.store[e.name := e.subject] && q.count == p.count + 1
        && q.writes == p.writes - 1 && q.status == p.status
  {
    var snapshot: Store := map[];
    assert e.subject !in snapshot.Values && e.name !in snapshot;
  }

  lemma {:induction false} PutKeys(store: Store, entries: seq<Entry>, n: nat)
    requires n <= |entries|
    ensures Put(store, entries, n).Keys == store.Keys + Names(entries[..n])
  {
    if n > 0 {
      PutKeys(store, entries, n - 1);
      NamesAppend(entries[..n - 1], entries[n - 1]);
      assert entries[..n] == entries[..n - 1] + [entries[n - 1]];
    }
  }

  lemma NamesAppend(entries: seq<Entry>, e: Entry)
    ensures Names(entries + [e]) == Names(entries) + {e.name}
  {
    var longer := entries + [e];
    assert longer[|entries|] == e;
    forall m | m in Names(entries) ensures m in Names(longer) {
      var i :| 0 <= i < |entries| && entries[i].name == m;
      assert longer[i] == entries[i];
    }
  }

  /** The entries a budget reaches. */
  function Within(entries: seq<Entry>, writes: nat): seq<Entry> {
    entries[..if writes < |entries| then writes else |entries|]
  }

  /**
   A blind run finishes exactly when its budget covers the list, is never refused, and keeps the
   limit exactly when the store's names and those it reaches fit into it together.
   */
  lemma BlindRunKeepsLimitExactly(store: Store, entries: seq<Entry>, writes: nat)
    requires |entries| <= CREDENTIAL_LIMIT
    ensures var p := Steps(map[], store, entries, false, writes, |entries|);
      && (p.status.Running? <==> |entries| <= writes) && !p.status.Refused?
      && p.store.Keys == store.Keys + Names(Within(entries, writes))
      && (|p.store| <= CREDENTIAL_LIMIT <==> |store.Keys + Names(Within(entries, writes))| <= CREDENTIAL_LIMIT)
  {
    BlindRun(store, entries, writes, |entries|);
    PutKeys(store, entries, if writes < |entries| then writes else |entries|);
    var p := Steps(map[], store, entries, false, writes, |entries|);
    assert |p.store| == |p.store.Keys|;
  }

  lemma {:induction false} SubsetSize(a: set<string>, b: set<string>)
    requires a <= b
    ensures |a| <= |b|
  {
    if a != {} {
      var x :| x in a;
      SubsetSize(a - {x}, b - {x});
    }
  }

  // ---- removal ----

  ghost function Names(entries: seq<Entry>): set<string> {
    set i | 0 <= i < |entries| :: entries[i].name
  }

  lemma {:induction false} RemovedShape(store: Store, entries: seq<Entry>, writes: nat)
    ensures Removed(store, entries, writes).1 ==> Removed(store, entries, writes).0 == store - Names(entries)
    ensures |entries| <= writes ==> Removed(store, entries, writes).1
    ensures Removed(store, entries, writes).0.Keys <= store.Keys
    ensures forall m :: m in Removed(store, entries, writes).0 ==> Removed(store, entries, writes).0[m] == store[m]
    ensures forall m :: m in store && m !in Names(entries) ==> m in Removed(store, entries, writes).0
  {
    if entries != [] {
      var rest := entries[1..];
      assert forall m :: m in Names(entries) <==> m == entries[0].name || m in Names(rest) by {
        assert entries[0].name in Names(entries);
        forall i | 0 <= i < |rest| ensures rest[i].name in Names(entries) {
          assert rest[i] == entries[i + 1];
        }
        forall i | 1 <= i < |entries| ensures entries[i].name in Names(rest) {
          assert entries[i] == rest[i - 1];
        }
      }
      if entries[0].name !in store {
        RemovedShape(store, rest, writes);
      } else if writes > 0 {
        RemovedShape(store - {entries[0].name}, rest, writes - 1);
      }
    } else {
      assert store - Names(entries) == store;
    }
  }

  /** What a removal reports is what it found: exactly the entries whose names were there. */
  lemma {:induction false} PresentAreFound(store: Store, entries: seq<Entry>, e: Entry)
    ensures e in PresentEntries(store, entries) <==> e in entries && e.name in store
  {
    if entries != [] {
      PresentAreFound(store, entries[1..], e);
      assert entries == [entries[0]] + entries[1..];
    }
  }

  /** It reports them in the list's order. */
  lemma {:induction false} PresentInOrder(store: Store, a: seq<Entry>, b: seq<Entry>)
    ensures PresentEntries(store, a + b) == PresentEntries(store, a) + PresentEntries(store, b)
  {
    if a == [] {
      assert a + b == b;
    } else {
      assert (a + b)[1..] == a[1..] + b;
      PresentInOrder(store, a[1..], b);
    }
  }

  /**
   Removing a service after reconciling it, wherever the reconcile stopped, gives the
   starting store without that service's names.
   */
  lemma ReconcileThenRemove(store: Store, entries: seq<Entry>, writes: nat, removals: nat)
    requires DistinctNames(entries) && |entries| <= removals
    ensures Removed(Reconciled(store, entries, writes).store, entries, removals)
         == (store - Names(entries), true)
  {
    var p := Reconciled(store, entries, writes);
    RemovedShape(p.store, entries, removals);
    forall m | m !in Names(entries)
      ensures (m in p.store <==> m in store) && (m in store ==> p.store[m] == store[m])
    {
      forall j | 0 <= j < |entries| ensures entries[j].name != m {
        assert entries[j].name in Names(entries);
      }
      ReconcileFrame(store, entries, writes, |entries|, m);
    }
    assert p.store - Names(entries) == store - Names(entries);
  }
}
