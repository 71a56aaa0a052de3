/**
 Histories of onboard runs against the shared no-data-access identity. A run whose
 profile uses the identity reconciles the service's credentials, any other run
 removes them. Each run may be cut off after any number of writes, and the listing
 a reconcile starts from may fail, which it reads as an empty identity.
 */
module CredentialHistory {
  import opened Text
  import opened Credentials
  import opened Reconciler
  import opened ReconcilerProperties

  datatype Onboard =
    | Enable(service: string, prefix: string, listed: bool, writes: nat)
    | Disable(service: string, prefix: string, writes: nat)

  function Desired(service: string, prefix: string): seq<Entry> {
    Generated(NO_DATA_LANE, service, prefix)
  }

  function After(store: Store, op: Onboard): Store {
    match op
    case Enable(service, prefix, listed, writes) =>
      Steps(if listed then store else map[], store, Desired(service, prefix), false, writes, 4).store
    case Disable(service, prefix, writes) => Removed(store, Desired(service, prefix), writes).0
  }

  function History(store: Store, ops: seq<Onboard>): Store {
    if ops == [] then store else After(History(store, ops[..|ops| - 1]), ops[|ops| - 1])
  }

  // ---- histories with cut-off runs ----

  lemma KindedAfter(store: Store, op: Onboard)
    requires Kinded(NO_DATA_LANE, store)
    ensures Kinded(NO_DATA_LANE, After(store, op))
  {
    if op.Enable? {
      KindedIsKept(NO_DATA_LANE, op.service, op.prefix, if op.listed then store else map[], store, op.writes, 4);
    } else {
      RemovedShape(store, Desired(op.service, op.prefix), op.writes);
      var rest := After(store, op);
      forall service: string, k: Kind | CredentialName(NO_DATA_LANE, service, k) in rest
        ensures EndsWith(rest[CredentialName(NO_DATA_LANE, service, k)], SubjectEnding(k))
      {
      }
    }
  }

  lemma {:induction false} KindedHistory(ops: seq<Onboard>)
    ensures Kinded(NO_DATA_LANE, History(map[], ops))
  {
    if ops != [] {
      KindedHistory(ops[..|ops| - 1]);
      KindedAfter(History(map[], ops[..|ops| - 1]), ops[|ops| - 1]);
    }
  }

  /**
   From an empty identity, after any sequence of runs cut off anywhere and with any listings
   failed, one more run for any repository that sees its listing and finishes leaves all
   four subjects in the store; repeating that run then writes nothing.
   */
  lemma AnyHistoryHeals(ops: seq<Onboard>, service: string, prefix: string, writes: nat, again: nat)
    requires Reconciled(History(map[], ops), Desired(service, prefix), writes).status.Running?
    ensures var healed := Reconciled(History(map[], ops), Desired(service, prefix), writes).store;
      && Holds(healed, Desired(service, prefix))
      && Reconciled(healed, Desired(service, prefix), again) == Progress(healed, |healed|, again, [], Running)
  {
    var store := History(map[], ops);
    KindedHistory(ops);
    GeneratedRunCompletes(NO_DATA_LANE, service, prefix, store, writes);
    SecondRunIsNoOp(NO_DATA_LANE, service, prefix, store, writes, again);
  }

  // ---- the limit ----

  /** A run that does not see its listing finds room for the names it gets to write. */
  ghost predicate HasRoom(store: Store, op: Onboard) {
    op.Enable? && !op.listed ==>
      |store.Keys + Names(Within(Desired(op.service, op.prefix), op.writes))| <= CREDENTIAL_LIMIT
  }

  /** From a store within the limit a run, wherever it is cut off, keeps it there exactly when it has room. */
  lemma LimitIsKeptExactly(store: Store, op: Onboard)
    requires |store| <= CREDENTIAL_LIMIT
    ensures |After(store, op)| <= CREDENTIAL_LIMIT <==> HasRoom(store, op)
  {
    GeneratedIsDistinct(NO_DATA_LANE, op.service, op.prefix);
    var entries := Desired(op.service, op.prefix);
    if op.Disable? {
      RemovedShape(store, entries, op.writes);
      var rest := After(store, op);
      SubsetSize(rest.Keys, store.Keys);
      assert |rest| == |rest.Keys| && |store| == |store.Keys|;
    } else if op.listed {
      LoopState(store, entries, op.writes, 4);
    } else {
      BlindRunKeepsLimitExactly(store, entries, op.writes);
    }
  }

  /** Over any history, cut off anywhere, in which blind runs have room, the limit holds. */
  lemma {:induction false} LimitHolds(ops: seq<Onboard>)
    requires forall i :: 0 <= i < |ops| ==> HasRoom(History(map[], ops[..i]), ops[i])
    ensures |History(map[], ops)| <= CREDENTIAL_LIMIT
  {
    if ops != [] {
      var before := ops[..|ops| - 1];
      forall i | 0 <= i < |before| ensures HasRoom(History(map[], before[..i]), before[i]) {
        assert before[..i] == ops[..i];
      }
      LimitHolds(before);
      assert ops[..|before|] == before;
      LimitIsKeptExactly(History(map[], before), ops[|ops| - 1]);
    }
  }

  // ---- histories without cut-off runs ----

  const MAX_SERVICES: nat := 5

  /** Service to subject prefix. */
  type Active = map<string, string>

  /** The bookkeeping a reader would expect: five services fit, a sixth is turned away. */
  function ActiveAfter(active: Active, op: Onboard): Active {
    match op
    case Enable(service, prefix, _, _) =>
      if service in active || |active| < MAX_SERVICES then active[service := prefix] else active
    case Disable(service, _, _) => active - {service}
  }

  function ActiveHistory(ops: seq<Onboard>): Active {
    if ops == [] then map[] else ActiveAfter(ActiveHistory(ops[..|ops| - 1]), ops[|ops| - 1])
  }

  /**
   The run is not cut off, no other active service uses its repository prefix, and it sees
   its listing unless there is room for it anyway.
   */
  ghost predicate Orderly(active: Active, op: Onboard) {
    && op.writes >= 4
    && (op.Enable? ==>
          && (forall s :: s in active && s != op.service ==> active[s] != op.prefix)
          && (op.listed || op.service in active || |active| < MAX_SERVICES))
  }

  ghost predicate OrderlyHistory(ops: seq<Onboard>) {
    forall i :: 0 <= i < |ops| ==> Orderly(ActiveHistory(ops[..i]), ops[i])
  }

  ghost predicate HasAll(store: Store, active: Active) {
    forall s: string, k: Kind :: s in active ==>
      CredentialName(NO_DATA_LANE, s, k) in store
      && store[CredentialName(NO_DATA_LANE, s, k)] == Subject(active[s], k)
  }

  ghost predicate HasOnly(store: Store, active: Active) {
    forall m :: m in store ==> exists s: string, k: Kind :: s in active && m == CredentialName(NO_DATA_LANE, s, k)
  }

  ghost predicate Counted(store: Store, active: Active) {
    |store| == 4 * |active| && |active| <= MAX_SERVICES
  }

  ghost predicate PrefixesDistinct(active: Active) {
    forall s, t :: s in active && t in active && active[s] == active[t] ==> s == t
  }

  /** The store holds exactly the four credentials of each active service. */
  ghost predicate Mirrors(store: Store, active: Active) {
    HasAll(store, active) && HasOnly(store, active) && Counted(store, active) && PrefixesDistinct(active)
  }

  lemma SubjectIsForeign(store: Store, active: Active, service: string, prefix: string, k: Kind)
    requires Mirrors(store, active)
    requires forall s :: s in active ==> active[s] != prefix
    ensures Subject(prefix, k) !in store.Values
  {
    forall m | m in store
      ensures store[m] != Subject(prefix, k)
    {
      var s: string, j: Kind :| s in active && m == CredentialName(NO_DATA_LANE, s, j);
      if store[m] == Subject(prefix, k) {
        SubjectIsInjective(active[s], j, prefix, k);
      }
    }
  }

  /** All four subjects are missing: the target is the store with four names overwritten. */
  lemma FreshTarget(store: Store, service: string, prefix: string)
    requires forall k: Kind :: Subject(prefix, k) !in store.Values
    ensures var target := Target(store, Desired(service, prefix));
      && (forall k: Kind :: CredentialName(NO_DATA_LANE, service, k) in target
            && target[CredentialName(NO_DATA_LANE, service, k)] == Subject(prefix, k))
      && (forall m :: (forall k: Kind :: m != CredentialName(NO_DATA_LANE, service, k)) ==>
            (m in target <==> m in store) && (m in store ==> target[m] == store[m]))
  {
    var entries := Desired(service, prefix);
    GeneratedIsDistinct(NO_DATA_LANE, service, prefix);
    Lookup(store, entries, 4);
    forall k: Kind
      ensures CredentialName(NO_DATA_LANE, service, k) in Target(store, entries)
      ensures Target(store, entries)[CredentialName(NO_DATA_LANE, service, k)] == Subject(prefix, k)
    {
      assert entries[k].subject !in store.Values;
    }
    forall m | forall k: Kind :: m != CredentialName(NO_DATA_LANE, service, k)
      ensures (m in Target(store, entries) <==> m in store)
      ensures m in store ==> Target(store, entries)[m] == store[m]
    {
      forall j | 0 <= j < 4 ensures entries[j].name != m {
      }
      assert !DueForUpdate(store, entries, 4, m);
    }
  }

  lemma {:induction false} FreshTargetSize(store: Store, service: string, prefix: string, n: nat)
    requires n <= 4
    requires forall k: Kind :: Subject(prefix, k) !in store.Values
    requires forall k: Kind :: CredentialName(NO_DATA_LANE, service, k) !in store
    ensures |Overwritten(store, Desired(service, prefix), n)| == |store| + n
  {
    if n > 0 {
      var entries := Desired(service, prefix);
      FreshTargetSize(store, service, prefix, n - 1);
      GeneratedIsDistinct(NO_DATA_LANE, service, prefix);
      NewNameIsAbsent(store, entries, n);
      UpdateSize(Overwritten(store, entries, n - 1), entries[n - 1].name, entries[n - 1].subject);
      assert entries[n - 1].subject == Subject(prefix, n - 1);
    }
  }

  lemma {:induction false} KnownTargetSize(store: Store, service: string, prefix: string, n: nat)
    requires n <= 4
    requires forall k: Kind :: CredentialName(NO_DATA_LANE, service, k) in store
    ensures |Overwritten(store, Desired(service, prefix), n)| == |store|
  {
    if n > 0 {
      var entries := Desired(service, prefix);
      KnownTargetSize(store, service, prefix, n - 1);
      GeneratedIsDistinct(NO_DATA_LANE, service, prefix);
      NewNameIsAbsent(store, entries, n);
      UpdateSize(Overwritten(store, entries, n - 1), entries[n - 1].name, entries[n - 1].subject);
      assert entries[n - 1].name == CredentialName(NO_DATA_LANE, service, n - 1);
    }
  }

  lemma OthersUntouched(service: string, s: string, k: Kind)
    requires s != service
    ensures forall j: Kind :: CredentialName(NO_DATA_LANE, s, k) != CredentialName(NO_DATA_LANE, service, j)
  {
    forall j: Kind
      ensures CredentialName(NO_DATA_LANE, s, k) != CredentialName(NO_DATA_LANE, service, j)
    {
      if CredentialName(NO_DATA_LANE, s, k) == CredentialName(NO_DATA_LANE, service, j) {
        NameIsInjective(NO_DATA_LANE, s, k, service, j);
      }
    }
  }

  lemma ServiceIsAbsent(store: Store, active: Active, service: string)
    requires Mirrors(store, active) && service !in active
    ensures forall k: Kind :: CredentialName(NO_DATA_LANE, service, k) !in store
  {
    forall k: Kind | CredentialName(NO_DATA_LANE, service, k) in store
      ensures false
    {
      var name := CredentialName(NO_DATA_LANE, service, k);
      var s: string, j: Kind :| s in active && name == CredentialName(NO_DATA_LANE, s, j);
      NameIsInjective(NO_DATA_LANE, service, k, s, j);
    }
  }

  /** A service whose credentials already match its prefix: nothing is written. */
  lemma UnchangedService(store: Store, active: Active, op: Onboard)
    requires Mirrors(store, active) && op.Enable? && op.listed
    requires op.service in active && active[op.service] == op.prefix
    ensures After(store, op) == store && ActiveAfter(active, op) == active
    ensures Reconciled(store, Desired(op.service, op.prefix), op.writes).status.Running?
  {
    ActiveServiceHolds(store, active, op.service);
    NothingToDo(store, Desired(op.service, op.prefix), op.writes, 4);
  }

  lemma TargetHasAll(store: Store, active: Active, service: string, prefix: string)
    requires HasAll(store, active)
    requires forall k: Kind :: Subject(prefix, k) !in store.Values
    ensures HasAll(Target(store, Desired(service, prefix)), active[service := prefix])
  {
    FreshTarget(store, service, prefix);
    forall s: string, k: Kind | s in active[service := prefix]
      ensures CredentialName(NO_DATA_LANE, s, k) in Target(store, Desired(service, prefix))
      ensures Target(store, Desired(service, prefix))[CredentialName(NO_DATA_LANE, s, k)]
           == Subject(active[service := prefix][s], k)
    {
      if s != service {
        OthersUntouched(service, s, k);
      }
    }
  }

  lemma TargetHasOnly(store: Store, active: Active, service: string, prefix: string)
    requires HasOnly(store, active)
    requires forall k: Kind :: Subject(prefix, k) !in store.Values
    ensures HasOnly(Target(store, Desired(service, prefix)), active[service := prefix])
  {
    FreshTarget(store, service, prefix);
    forall m | m in Target(store, Desired(service, prefix))
      ensures exists s: string, k: Kind :: s in active[service := prefix] && m == CredentialName(NO_DATA_LANE, s, k)
    {
      if k: Kind :| m == CredentialName(NO_DATA_LANE, service, k) {
        assert service in active[service := prefix];
      } else {
        var s: string, k: Kind :| s in active && m == CredentialName(NO_DATA_LANE, s, k);
        assert s in active[service := prefix];
      }
    }
  }

  lemma TargetCounted(store: Store, active: Active, service: string, prefix: string)
    requires Mirrors(store, active)
    requires forall k: Kind :: Subject(prefix, k) !in store.Values
    requires service in active || |active| < MAX_SERVICES
    ensures Counted(Target(store, Desired(service, prefix)), active[service := prefix])
  {
    UpdateSize(active, service, prefix);
    if service in active {
      forall k: Kind ensures CredentialName(NO_DATA_LANE, service, k) in store {
      }
      KnownTargetSize(store, service, prefix, 4);
    } else {
      ServiceIsAbsent(store, active, service);
      FreshTargetSize(store, service, prefix, 4);
    }
  }

  lemma TargetMirrors(store: Store, active: Active, service: string, prefix: string)
    requires Mirrors(store, active)
    requires forall s :: s in active ==> active[s] != prefix
    requires service in active || |active| < MAX_SERVICES
    ensures Mirrors(Target(store, Desired(service, prefix)), active[service := prefix])
  {
    forall k: Kind ensures Subject(prefix, k) !in store.Values {
      SubjectIsForeign(store, active, service, prefix, k);
    }
    var target := Target(store, Desired(service, prefix));
    assert HasAll(target, active[service := prefix]) by { TargetHasAll(store, active, service, prefix); }
    assert HasOnly(target, active[service := prefix]) by { TargetHasOnly(store, active, service, prefix); }
    assert Counted(target, active[service := prefix]) by { TargetCounted(store, active, service, prefix); }
    PrefixesStayDistinct(active, service, prefix);
  }

  lemma PrefixesStayDistinct(active: Active, service: string, prefix: string)
    requires PrefixesDistinct(active)
    requires forall s :: s in active ==> active[s] != prefix
    ensures PrefixesDistinct(active[service := prefix])
  {
  }

  lemma RefusedAtOnce(store: Store, active: Active, service: string, prefix: string, writes: nat)
    requires Mirrors(store, active) && |active| == MAX_SERVICES && service !in active
    requires forall s :: s in active ==> active[s] != prefix
    ensures var p := Reconciled(store, Desired(service, prefix), writes); p.status == Refused(0) && p.store == store
  {
    var entries := Desired(service, prefix);
    ServiceIsAbsent(store, active, service);
    SubjectIsForeign(store, active, service, prefix, 0);
    assert entries[0] == Entry(CredentialName(NO_DATA_LANE, service, 0), Subject(prefix, 0));
    assert Decide(store, |store|, entries[0]) == Refuse;
    assert Run(store, entries, writes, 0).status.Running?;
    var p1 := Run(store, entries, writes, 1);
    assert p1 == Step(store, false, Run(store, entries, writes, 0), 0, entries[0]);
    StoppedStays(store, store, entries, false, writes, 1, 4);
  }

  lemma FinishesWithin(store: Store, service: string, prefix: string, writes: nat)
    requires writes >= 4 && |Target(store, Desired(service, prefix))| <= CREDENTIAL_LIMIT
    ensures var p := Reconciled(store, Desired(service, prefix), writes);
      p.status.Running? && p.store == Target(store, Desired(service, prefix))
  {
    var entries := Desired(service, prefix);
    GeneratedIsDistinct(NO_DATA_LANE, service, prefix);
    RefusedExactly(store, entries, writes);
    EnoughWritesNeverCutOff(store, entries, writes, 4);
    FinishedAtTarget(store, entries, writes);
  }

  /** A new or renamed repository: the run reaches its target, or is refused at once. */
  lemma FreshService(store: Store, active: Active, op: Onboard)
    requires Mirrors(store, active) && op.Enable? && op.listed && Orderly(active, op)
    requires forall s :: s in active ==> active[s] != op.prefix
    ensures Mirrors(After(store, op), ActiveAfter(active, op))
    ensures var p := Reconciled(store, Desired(op.service, op.prefix), op.writes);
      if op.service in active || |active| < MAX_SERVICES then p.status.Running?
      else p.status == Refused(0) && p.store == store
  {
    if op.service in active || |active| < MAX_SERVICES {
      TargetMirrors(store, active, op.service, op.prefix);
      FinishesWithin(store, op.service, op.prefix, op.writes);
    } else {
      RefusedAtOnce(store, active, op.service, op.prefix, op.writes);
    }
  }

  lemma RemovedService(store: Store, active: Active, op: Onboard)
    requires Mirrors(store, active) && op.Disable? && Orderly(active, op)
    ensures Mirrors(After(store, op), ActiveAfter(active, op))
  {
    var names := Names(Desired(op.service, op.prefix));
    RemovedShape(store, Desired(op.service, op.prefix), op.writes);
    NamesAreWithout(store, op.service, op.prefix);
    RestHasAll(store, active, op.service, store - names);
    RestHasOnly(store, active, op.service, store - names);
    RestCounted(store, active, op.service, op.prefix);
  }

  lemma NamesAreWithout(store: Store, service: string, prefix: string)
    ensures IsWithout(store, service, store - Names(Desired(service, prefix)))
  {
    OwnNamesOnly(service, prefix);
  }

  lemma RestCounted(store: Store, active: Active, service: string, prefix: string)
    requires Mirrors(store, active)
    ensures Counted(store - Names(Desired(service, prefix)), active - {service})
    ensures PrefixesDistinct(active - {service})
  {
    RemovedSize(store, active, service, prefix);
    SubsetSize((active - {service}).Keys, active.Keys);
    assert |active - {service}| == |(active - {service}).Keys| && |active| == |active.Keys|;
  }

  lemma OwnNamesOnly(service: string, prefix: string)
    ensures forall m :: m in Names(Desired(service, prefix)) <==> IsNameOf(service, m)
  {
    var entries := Desired(service, prefix);
    forall m | IsNameOf(service, m) ensures m in Names(entries) {
      var k: Kind :| m == CredentialName(NO_DATA_LANE, service, k);
      assert entries[k].name == m;
    }
    forall m | m in Names(entries) ensures IsNameOf(service, m) {
      var i :| 0 <= i < |entries| && entries[i].name == m;
      assert m == CredentialName(NO_DATA_LANE, service, i);
    }
  }

  /** `rest` is the store without the names of one service. */
  ghost predicate IsWithout(store: Store, service: string, rest: Store) {
    && (forall m :: m in rest ==> m in store && rest[m] == store[m] && !IsNameOf(service, m))
    && (forall m :: m in store && !IsNameOf(service, m) ==> m in rest)
  }

  ghost predicate IsNameOf(service: string, m: string) {
    exists k: Kind :: m == CredentialName(NO_DATA_LANE, service, k)
  }

  lemma RestHasAll(store: Store, active: Active, service: string, rest: Store)
    requires HasAll(store, active) && IsWithout(store, service, rest)
    ensures HasAll(rest, active - {service})
  {
    forall s: string, k: Kind | s in active && s != service
      ensures CredentialName(NO_DATA_LANE, s, k) in rest
      ensures rest[CredentialName(NO_DATA_LANE, s, k)] == Subject(active[s], k)
    {
      OthersUntouched(service, s, k);
    }
  }

  lemma RestHasOnly(store: Store, active: Active, service: string, rest: Store)
    requires HasOnly(store, active) && IsWithout(store, service, rest)
    ensures HasOnly(rest, active - {service})
  {
    forall m | m in rest
      ensures exists s: string, k: Kind :: s in active - {service} && m == CredentialName(NO_DATA_LANE, s, k)
    {
      var s: string, k: Kind :| s in active && m == CredentialName(NO_DATA_LANE, s, k);
      assert s in active - {service};
    }
  }

  lemma RemovedSize(store: Store, active: Active, service: string, prefix: string)
    requires Mirrors(store, active)
    ensures |store - Names(Desired(service, prefix))| == 4 * |active - {service}|
  {
    FourNames(service, prefix);
    if service in active {
      OwnNames(store, active, service, Names(Desired(service, prefix)));
    } else {
      ForeignNames(store, active, service, Names(Desired(service, prefix)));
    }
    SizesMatch(store, active, service, Names(Desired(service, prefix)));
  }

  lemma SizesMatch(store: Store, active: Active, service: string, names: set<string>)
    requires Counted(store, active) && |names| == 4
    requires if service in active then names <= store.Keys else names !! store.Keys
    ensures |store - names| == 4 * |active - {service}|
  {
    if service in active {
      SubtractedSize(store, names);
      SubtractedSize(active, {service});
    } else {
      SubtractedNothing(store, names);
      SubtractedNothing(active, {service});
    }
  }

  lemma OwnNames(store: Store, active: Active, service: string, names: set<string>)
    requires HasAll(store, active) && service in active
    requires forall m :: m in names ==> exists k: Kind :: m == CredentialName(NO_DATA_LANE, service, k)
    ensures names <= store.Keys
  {
  }

  lemma ForeignNames(store: Store, active: Active, service: string, names: set<string>)
    requires Mirrors(store, active) && service !in active
    requires forall m :: m in names ==> exists k: Kind :: m == CredentialName(NO_DATA_LANE, service, k)
    ensures names !! store.Keys
  {
    ServiceIsAbsent(store, active, service);
  }

  lemma FourNames(service: string, prefix: string)
    ensures |Names(Desired(service, prefix))| == 4
    ensures forall m :: m in Names(Desired(service, prefix)) ==>
      exists k: Kind :: m == CredentialName(NO_DATA_LANE, service, k)
  {
    GeneratedIsDistinct(NO_DATA_LANE, service, prefix);
    FourDistinctNames(Desired(service, prefix));
    OwnNamesOnly(service, prefix);
  }

  lemma FourDistinctNames(entries: seq<Entry>)
    requires |entries| == 4 && DistinctNames(entries)
    ensures |Names(entries)| == 4
  {
    assert Names(entries) == {entries[0].name, entries[1].name, entries[2].name, entries[3].name};
  }

  lemma SubtractedSize(store: Store, names: set<string>)
    requires names <= store.Keys
    ensures |store - names| == |store| - |names|
  {
    assert (store - names).Keys == store.Keys - names;
  }

  lemma SubtractedNothing(store: Store, names: set<string>)
    requires names !! store.Keys
    ensures |store - names| == |store|
  {
    assert (store - names).Keys == store.Keys;
  }

  /**
   From an empty identity, after any sequence of finished or refused runs over
   services with distinct prefixes, the store holds exactly four credentials for each
   active service and at most five services are active.
   */
  lemma {:induction false} ExactHistory(ops: seq<Onboard>)
    requires OrderlyHistory(ops)
    ensures Mirrors(History(map[], ops), ActiveHistory(ops))
  {
    if ops != [] {
      var before := ops[..|ops| - 1];
      OrderlyPrefix(ops);
      ExactHistory(before);
      MirrorsIsKept(History(map[], before), ActiveHistory(before), ops[|ops| - 1]);
    }
  }

  lemma OrderlyPrefix(ops: seq<Onboard>)
    requires OrderlyHistory(ops) && ops != []
    ensures OrderlyHistory(ops[..|ops| - 1])
    ensures Orderly(ActiveHistory(ops[..|ops| - 1]), ops[|ops| - 1])
  {
    var before := ops[..|ops| - 1];
    forall i | 0 <= i < |before| ensures Orderly(ActiveHistory(before[..i]), before[i]) {
      assert before[..i] == ops[..i] && before[i] == ops[i];
    }
    assert ops[..|before|] == before;
  }

  lemma {:induction false} PutIsOverwritten(store: Store, entries: seq<Entry>, n: nat)
    requires n <= |entries| && forall i :: 0 <= i < |entries| ==> entries[i].subject !in store.Values
    ensures Put(store, entries, n) == Overwritten(store, entries, n)
  {
    if n > 0 {
      PutIsOverwritten(store, entries, n - 1);
    }
  }

  lemma {:induction false} PutChangesNothing(store: Store, entries: seq<Entry>, n: nat)
    requires n <= |entries|
    requires forall i :: 0 <= i < |entries| ==> entries[i].name in store && store[entries[i].name] == entries[i].subject
    ensures Put(store, entries, n) == store
  {
    if n > 0 {
      PutChangesNothing(store, entries, n - 1);
    }
  }

  /** Where there is room, a run that does not see its listing ends like one that does. */
  lemma BlindRunAgrees(store: Store, active: Active, op: Onboard)
    requires Mirrors(store, active) && op.Enable? && !op.listed && Orderly(active, op)
    ensures After(store, op) == After(store, op.(listed := true))
  {
    BlindRun(store, Desired(op.service, op.prefix), op.writes, 4);
    if op.service in active && active[op.service] == op.prefix {
      NothingNew(store, active, op.service, op.prefix, op.writes);
    } else {
      AllNew(store, active, op.service, op.prefix, op.writes);
    }
  }

  lemma NothingNew(store: Store, active: Active, service: string, prefix: string, writes: nat)
    requires Mirrors(store, active) && service in active && active[service] == prefix
    ensures Put(store, Desired(service, prefix), 4) == store
    ensures Reconciled(store, Desired(service, prefix), writes).store == store
  {
    var entries := Desired(service, prefix);
    forall i: Kind ensures entries[i].name in store && store[entries[i].name] == entries[i].subject {
      assert entries[i].name == CredentialName(NO_DATA_LANE, service, i);
    }
    PutChangesNothing(store, entries, 4);
    NothingToDo(store, entries, writes, 4);
  }

  lemma AllNew(store: Store, active: Active, service: string, prefix: string, writes: nat)
    requires Mirrors(store, active) && writes >= 4 && (service in active || |active| < MAX_SERVICES)
    requires forall s :: s in active ==> active[s] != prefix
    ensures Put(store, Desired(service, prefix), 4) == Reconciled(store, Desired(service, prefix), writes).store
  {
    var entries := Desired(service, prefix);
    forall i: Kind ensures entries[i].subject !in store.Values {
      SubjectIsForeign(store, active, service, prefix, i);
    }
    PutIsOverwritten(store, entries, 4);
    TargetMirrors(store, active, service, prefix);
    FinishesWithin(store, service, prefix, writes);
  }

  lemma MirrorsIsKept(store: Store, active: Active, op: Onboard)
    requires Mirrors(store, active) && Orderly(active, op)
    ensures Mirrors(After(store, op), ActiveAfter(active, op))
  {
    if op.Disable? {
      RemovedService(store, active, op);
    } else {
      var seen := op.(listed := true);
      if !op.listed {
        BlindRunAgrees(store, active, op);
      }
      if op.service in active && active[op.service] == op.prefix {
        UnchangedService(store, active, seen);
      } else {
        FreshService(store, active, seen);
      }
    }
  }

  /**
   In such a history the next onboard is refused exactly when the service is new and
   five are active, the refusal comes before the first write, and re-onboarding an
   active service, also under a new prefix, always finishes.
   */
  lemma NextOnboard(ops: seq<Onboard>, service: string, prefix: string, writes: nat)
    requires OrderlyHistory(ops) && Orderly(ActiveHistory(ops), Enable(service, prefix, true, writes))
    ensures var store := History(map[], ops);
      var p := Reconciled(store, Desired(service, prefix), writes);
      && (p.status.Refused? <==> service !in ActiveHistory(ops) && |ActiveHistory(ops)| == MAX_SERVICES)
      && (p.status.Refused? ==> p.status == Refused(0) && p.store == store)
      && !p.status.CutOff?
  {
    ExactHistory(ops);
    var active := ActiveHistory(ops);
    if service in active && active[service] == prefix {
      UnchangedService(History(map[], ops), active, Enable(service, prefix, true, writes));
    } else {
      FreshService(History(map[], ops), active, Enable(service, prefix, true, writes));
    }
  }

  /**
   Two services onboarded one after the other, then the first one removed: the second keeps
   its credentials exactly when their repositories have different prefixes. With one prefix
   it found every subject present and never got credentials of its own.
   */
  lemma SecondSurvivesExactly(store: Store, active: Active, first: string, p: string, second: string, q: string)
    requires Mirrors(store, active) && |active| + 2 <= MAX_SERVICES
    requires first !in active && second !in active && first != second
    requires forall s :: s in active ==> active[s] != p && active[s] != q
    ensures var one := After(store, Enable(first, p, true, 4));
      var two := After(one, Enable(second, q, true, 4));
      Holds(After(two, Disable(first, p, 4)), Desired(second, q)) <==> p != q
  {
    var one := After(store, Enable(first, p, true, 4));
    OnboardMirrors(store, active, first, p);
    if p == q {
      SecondFindsAll(one, active[first := p], first, second, p);
      SecondIsStranded(one, active[first := p], first, second, p);
    } else {
      OnboardMirrors(one, active[first := p], second, q);
      FirstRemoved(After(one, Enable(second, q, true, 4)), active[first := p][second := q], first, p, second);
    }
  }

  lemma OnboardMirrors(store: Store, active: Active, service: string, prefix: string)
    requires Mirrors(store, active) && service !in active && |active| < MAX_SERVICES
    requires forall s :: s in active ==> active[s] != prefix
    ensures Mirrors(After(store, Enable(service, prefix, true, 4)), active[service := prefix])
    ensures |active[service := prefix]| == |active| + 1
  {
    MirrorsIsKept(store, active, Enable(service, prefix, true, 4));
    UpdateSize(active, service, prefix);
  }

  lemma SecondIsStranded(store: Store, active: Active, first: string, second: string, prefix: string)
    requires Mirrors(store, active) && forall s :: s in active && s != first ==> active[s] != prefix
    ensures !Holds(After(store, Disable(first, prefix, 4)), Desired(second, prefix))
  {
    RemovedMirrors(store, active, first, prefix);
    NothingHeld(After(store, Disable(first, prefix, 4)), active - {first}, second, prefix);
  }

  lemma RemovedMirrors(store: Store, active: Active, service: string, prefix: string)
    requires Mirrors(store, active)
    ensures Mirrors(After(store, Disable(service, prefix, 4)), active - {service})
  {
    RemovedService(store, active, Disable(service, prefix, 4));
  }

  lemma NothingHeld(store: Store, active: Active, service: string, prefix: string)
    requires Mirrors(store, active) && forall s :: s in active ==> active[s] != prefix
    ensures !Holds(store, Desired(service, prefix))
  {
    SubjectIsForeign(store, active, service, prefix, 0);
    assert Desired(service, prefix)[0].subject == Subject(prefix, 0);
  }

  lemma FirstRemoved(store: Store, active: Active, first: string, prefix: string, second: string)
    requires Mirrors(store, active) && second in active && first != second
    ensures Holds(After(store, Disable(first, prefix, 4)), Desired(second, active[second]))
  {
    RemovedMirrors(store, active, first, prefix);
    ActiveServiceHolds(After(store, Disable(first, prefix, 4)), active - {first}, second);
  }

  lemma SecondFindsAll(store: Store, active: Active, first: string, second: string, prefix: string)
    requires Mirrors(store, active) && first in active && active[first] == prefix
    ensures After(store, Enable(second, prefix, true, 4)) == store
  {
    var entries := Desired(second, prefix);
    forall i: Kind ensures entries[i].subject in store.Values {
      assert store[CredentialName(NO_DATA_LANE, first, i)] == Subject(prefix, i);
    }
    NothingToDo(store, entries, 4, 4);
  }

  lemma ActiveServiceHolds(store: Store, active: Active, service: string)
    requires Mirrors(store, active) && service in active
    ensures Holds(store, Desired(service, active[service]))
  {
    var entries := Desired(service, active[service]);
    forall i: Kind ensures entries[i].subject in store.Values {
      assert store[CredentialName(NO_DATA_LANE, service, i)] == Subject(active[service], i);
    }
  }
}
