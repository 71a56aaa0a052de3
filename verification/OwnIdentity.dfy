/** Histories of onboard runs against the identity a service has for itself. */
module OwnIdentity {
  import opened Text
  import opened Credentials
  import opened Reconciler
  import opened ReconcilerProperties

  /** One run; the prefix changes when the repository is renamed or moved. */
  datatype Onboard = Onboard(prefix: string, listed: bool, writes: nat)

  function Desired(service: string, prefix: string): seq<Entry> {
    Generated(SERVICE_LANE, service, prefix)
  }

  function Reached(service: string, store: Store, o: Onboard): Progress {
    Steps(if o.listed then store else map[], store, Desired(service, o.prefix), false, o.writes, 4)
  }

  function History(service: string, runs: seq<Onboard>): Store {
    if runs == [] then map[]
    else Reached(service, History(service, runs[..|runs| - 1]), runs[|runs| - 1]).store
  }

  ghost predicate IsOwnName(service: string, m: string) {
    exists k: Kind :: m == CredentialName(SERVICE_LANE, service, k)
  }

  ghost predicate OnlyOwnNames(service: string, store: Store) {
    forall m :: m in store ==> IsOwnName(service, m)
  }

  /** The store holds nothing but names of the service, each with its own kind's subjects. */
  ghost predicate Own(service: string, store: Store) {
    && OnlyOwnNames(service, store)
    && Kinded(SERVICE_LANE, store)
  }

  lemma OwnIsSmall(service: string, store: Store)
    requires Own(service, store)
    ensures |store| <= 4
  {
    var names := set k: Kind | 0 <= k < 4 :: CredentialName(SERVICE_LANE, service, k);
    FourAtMost(service);
    forall m | m in store ensures m in names {
      var k: Kind :| m == CredentialName(SERVICE_LANE, service, k);
    }
    SubsetSize(store.Keys, names);
    assert |store| == |store.Keys|;
  }

  lemma FourAtMost(service: string)
    ensures |set k: Kind | 0 <= k < 4 :: CredentialName(SERVICE_LANE, service, k)| <= 4
  {
    var names := set k: Kind | 0 <= k < 4 :: CredentialName(SERVICE_LANE, service, k);
    var a, b := CredentialName(SERVICE_LANE, service, 0), CredentialName(SERVICE_LANE, service, 1);
    var c, d := CredentialName(SERVICE_LANE, service, 2), CredentialName(SERVICE_LANE, service, 3);
    assert names == {a, b, c, d};
    assert {a, b, c, d} == {a} + {b} + {c} + {d};
  }

  /** A snapshot of at most four entries leaves room for four more. */
  lemma {:induction false} NeverRefused(snapshot: Store, store: Store, entries: seq<Entry>, writes: nat, n: nat)
    requires |snapshot| <= 4 && n <= |entries| && |entries| == 4
    ensures var p := Steps(snapshot, store, entries, false, writes, n);
      !p.status.Refused? && p.count <= |snapshot| + n
  {
    if n > 0 {
      NeverRefused(snapshot, store, entries, writes, n - 1);
    }
  }

  lemma {:induction false} NamesStayOwn(service: string, snapshot: Store, store: Store, prefix: string,
                                        writes: nat, n: nat)
    requires OnlyOwnNames(service, store) && n <= 4
    ensures OnlyOwnNames(service, Steps(snapshot, store, Desired(service, prefix), false, writes, n).store)
  {
    if n > 0 {
      NamesStayOwn(service, snapshot, store, prefix, writes, n - 1);
      var p := Steps(snapshot, store, Desired(service, prefix), false, writes, n - 1);
      NameStaysOwn(service, snapshot, p, prefix, n - 1);
    }
  }

  lemma NameStaysOwn(service: string, snapshot: Store, p: Progress, prefix: string, k: Kind)
    requires OnlyOwnNames(service, p.store)
    ensures OnlyOwnNames(service, Step(snapshot, false, p, k, Desired(service, prefix)[k]).store)
  {
    var e := Desired(service, prefix)[k];
    assert e.name == CredentialName(SERVICE_LANE, service, k);
    assert IsOwnName(service, e.name);
    var after := StoreAfterStep(snapshot, p, k, e);
  }

  lemma RunStaysOwn(service: string, store: Store, o: Onboard)
    requires Own(service, store)
    ensures Own(service, Reached(service, store, o).store) && !Reached(service, store, o).status.Refused?
  {
    var snapshot := if o.listed then store else map[];
    OwnIsSmall(service, store);
    NamesStayOwn(service, snapshot, store, o.prefix, o.writes, 4);
    KindedIsKept(SERVICE_LANE, service, o.prefix, snapshot, store, o.writes, 4);
    NeverRefused(snapshot, store, Desired(service, o.prefix), o.writes, 4);
  }

  /**
   Over any runs, with any prefixes, cut off anywhere and with any listings failed, the identity
   holds nothing but the service's own four names, and no run is ever refused.
   */
  lemma {:induction false} OwnHistory(service: string, runs: seq<Onboard>, next: Onboard)
    ensures Own(service, History(service, runs)) && |History(service, runs)| <= 4
    ensures !Reached(service, History(service, runs), next).status.Refused?
  {
    if runs != [] {
      OwnHistory(service, runs[..|runs| - 1], runs[|runs| - 1]);
      RunStaysOwn(service, History(service, runs[..|runs| - 1]), runs[|runs| - 1]);
    } else {
      assert Own(service, map[]);
    }
    OwnIsSmall(service, History(service, runs));
    RunStaysOwn(service, History(service, runs), next);
  }

  /**
   After such a history a run that sees its listing and finishes leaves exactly the four
   credentials of its prefix.
   */
  lemma FinishedRunIsExact(service: string, runs: seq<Onboard>, last: Onboard)
    requires last.listed && Reached(service, History(service, runs), last).status.Running?
    ensures var store := Reached(service, History(service, runs), last).store;
      && OnlyOwnNames(service, store)
      && (forall k: Kind :: CredentialName(SERVICE_LANE, service, k) in store
            && store[CredentialName(SERVICE_LANE, service, k)] == Subject(last.prefix, k))
  {
    var before := History(service, runs);
    OwnHistory(service, runs, last);
    RunStaysOwn(service, before, last);
    GeneratedRunCompletes(SERVICE_LANE, service, last.prefix, before, last.writes);
    HeldUnderTheirNames(service, Reached(service, before, last).store, last.prefix);
  }

  lemma HeldUnderTheirNames(service: string, store: Store, prefix: string)
    requires Own(service, store) && Holds(store, Desired(service, prefix))
    ensures forall k: Kind ::
      CredentialName(SERVICE_LANE, service, k) in store
      && store[CredentialName(SERVICE_LANE, service, k)] == Subject(prefix, k)
  {
    forall k: Kind
      ensures CredentialName(SERVICE_LANE, service, k) in store
      ensures store[CredentialName(SERVICE_LANE, service, k)] == Subject(prefix, k)
    {
      var entries := Desired(service, prefix);
      assert entries[k].subject in store.Values && entries[k].subject == Subject(prefix, k);
      var m :| m in store && store[m] == Subject(prefix, k);
      assert IsOwnName(service, m);
      var j: Kind :| m == CredentialName(SERVICE_LANE, service, j);
      SameKind(service, store, prefix, k, j);
    }
  }

  /** The subject sits under the name of its own kind. */
  lemma SameKind(service: string, store: Store, prefix: string, k: Kind, j: Kind)
    requires Kinded(SERVICE_LANE, store) && CredentialName(SERVICE_LANE, service, j) in store
    requires store[CredentialName(SERVICE_LANE, service, j)] == Subject(prefix, k)
    ensures j == k
  {
    ConcatEndsWith(prefix, SubjectEnding(k));
    OneSubjectEnding(Subject(prefix, k), k, j);
  }
}
