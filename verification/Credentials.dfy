/**
 The federated credentials `spi onboard` generates for one service repository,
 and the state of a managed identity that holds such credentials.
 */
module Credentials {
  import opened Text

  const OSDU_BRANCHES: seq<string> := ["main", "fork_integration", "fork_upstream"]
  const CREDENTIAL_LIMIT: nat := 20

  /** Name lane of the service's own identity, and of the shared no-data-access identity. */
  const SERVICE_LANE := "spi-ci-"
  const NO_DATA_LANE := "spi-no-data-"

  /** What Azure stores for one identity: credential name to subject. */
  type Store = map<string, string>

  datatype Entry = Entry(name: string, subject: string)

  /** Kind 0 is the pull request credential; the others follow OSDU_BRANCHES. */
  type Kind = k: nat | k < 4

  function NameEnding(k: Kind): string {
    if k == 0 then "-pull-request" else "-branch-" + OSDU_BRANCHES[k - 1]
  }

  function SubjectEnding(k: Kind): string {
    if k == 0 then ":pull_request" else ":ref:refs/heads/" + OSDU_BRANCHES[k - 1]
  }

  function CredentialName(lane: string, service: string, k: Kind): string {
    lane + service + NameEnding(k)
  }

  function Subject(prefix: string, k: Kind): string {
    prefix + SubjectEnding(k)
  }

  /** The name-to-subject pairs of one repository, in the order the loop visits them. */
  function Entries(lane: string, service: string, prefix: string): (r: Result<seq<Entry>, string>)
    ensures r.Ok? <==> prefix != ""
    ensures r.Ok? ==> r.value == Generated(lane, service, prefix)
  {
    if prefix == "" then
      Err("GitHub OIDC subject prefix has not been resolved")
    else
      Ok([Entry(lane + service + "-pull-request", prefix + ":pull_request")]
         + BranchEntries(lane, service, prefix, OSDU_BRANCHES))
  }

  function BranchEntries(lane: string, service: string, prefix: string, branches: seq<string>): (r: seq<Entry>)
    ensures |r| == |branches|
    ensures forall i :: 0 <= i < |r| ==>
      r[i] == Entry(lane + service + ("-branch-" + branches[i]), prefix + (":ref:refs/heads/" + branches[i]))
  {
    if branches == [] then []
    else
      [Entry(lane + service + ("-branch-" + branches[0]), prefix + (":ref:refs/heads/" + branches[0]))]
      + BranchEntries(lane, service, prefix, branches[1..])
  }

  function Generated(lane: string, service: string, prefix: string): (r: seq<Entry>)
    ensures |r| == 4
    ensures forall k: Kind :: r[k] == Entry(CredentialName(lane, service, k), Subject(prefix, k))
  {
    seq(4, (k: int) requires 0 <= k < 4 => Entry(CredentialName(lane, service, k), Subject(prefix, k)))
  }

  // ---- names and subjects identify their owner ----

  lemma NameEndingsAreSuffixFree(i: Kind, j: Kind)
    requires i != j
    ensures !EndsWith(NameEnding(i), NameEnding(j))
  {
    var a, b := NameEnding(i), NameEnding(j);
    NotSuffix(a, b, if a[|a| - 1] != b[|b| - 1] then 1 else 2);
  }

  lemma SubjectEndingsAreSuffixFree(i: Kind, j: Kind)
    requires i != j
    ensures !EndsWith(SubjectEnding(i), SubjectEnding(j))
  {
    var a, b := SubjectEnding(i), SubjectEnding(j);
    NotSuffix(a, b, if a[|a| - 1] != b[|b| - 1] then 1 else 2);
  }

  /** A subject carries one kind's ending only. */
  lemma OneSubjectEnding(s: string, i: Kind, j: Kind)
    requires EndsWith(s, SubjectEnding(i)) && EndsWith(s, SubjectEnding(j))
    ensures i == j
  {
    if i != j {
      SubjectEndingsAreSuffixFree(i, j);
      SubjectEndingsAreSuffixFree(j, i);
      if |SubjectEnding(i)| <= |SubjectEnding(j)| {
        NestedSuffixes(s, SubjectEnding(i), SubjectEnding(j));
      } else {
        NestedSuffixes(s, SubjectEnding(j), SubjectEnding(i));
      }
      assert false;
    }
  }

  /** A generated name determines the service and the kind, whatever the service is called. */
  lemma NameIsInjective(lane: string, s: string, i: Kind, t: string, j: Kind)
    requires CredentialName(lane, s, i) == CredentialName(lane, t, j)
    ensures s == t && i == j
  {
    if i != j {
      NameEndingsAreSuffixFree(i, j);
      NameEndingsAreSuffixFree(j, i);
      DifferentEndings(lane + s, NameEnding(i), lane + t, NameEnding(j));
    }
    SameEnding(lane + s, lane + t, NameEnding(i));
    assert (lane + s)[|lane|..] == s && (lane + t)[|lane|..] == t;
  }

  /** A generated subject determines the repository prefix and the kind. */
  lemma SubjectIsInjective(p: string, i: Kind, q: string, j: Kind)
    requires Subject(p, i) == Subject(q, j)
    ensures p == q && i == j
  {
    if i != j {
      SubjectEndingsAreSuffixFree(i, j);
      SubjectEndingsAreSuffixFree(j, i);
      DifferentEndings(p, SubjectEnding(i), q, SubjectEnding(j));
    }
    SameEnding(p, q, SubjectEnding(i));
  }

  ghost predicate DistinctNames(entries: seq<Entry>) {
    forall i, j :: 0 <= i < |entries| && 0 <= j < |entries| && entries[i].name == entries[j].name ==> i == j
  }

  ghost predicate DistinctSubjects(entries: seq<Entry>) {
    forall i, j :: 0 <= i < |entries| && 0 <= j < |entries| && entries[i].subject == entries[j].subject ==> i == j
  }

  lemma GeneratedIsDistinct(lane: string, service: string, prefix: string)
    ensures DistinctNames(Generated(lane, service, prefix))
    ensures DistinctSubjects(Generated(lane, service, prefix))
  {
    var entries := Generated(lane, service, prefix);
    forall i: Kind, j: Kind | entries[i].name == entries[j].name
      ensures i == j
    {
      NameIsInjective(lane, service, i, service, j);
    }
    forall i: Kind, j: Kind | entries[i].subject == entries[j].subject
      ensures i == j
    {
      SubjectIsInjective(prefix, i, prefix, j);
    }
  }

  /** Every generated name of the lane holds a subject with its own kind's ending. */
  ghost predicate Kinded(lane: string, store: Store) {
    forall service: string, k: Kind ::
      CredentialName(lane, service, k) in store ==> EndsWith(store[CredentialName(lane, service, k)], SubjectEnding(k))
  }

  /** No two credentials share a subject. */
  ghost predicate SubjectsDistinct(store: Store) {
    forall m, n :: m in store && n in store && store[m] == store[n] ==> m == n
  }
}
