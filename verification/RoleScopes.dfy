/**
 The custom deploy role is shared by every cluster a service was onboarded to. Each
 onboard merges the cluster into the role's assignable scopes.
 */
module RoleScopes {
  import opened Text

  /** The scopes already in the role, ignoring case. */
  ghost predicate Covers(scopes: seq<string>, scope: string) {
    exists i :: 0 <= i < |scopes| && Lower(scopes[i]) == Lower(scope)
  }

  function LowerSet(scopes: seq<string>): set<string> {
    set i | 0 <= i < |scopes| :: Lower(scopes[i])
  }

  /** Scopes kept by the merge loop: the first spelling of each. */
  function Merged(scopes: seq<string>): seq<string> {
    if scopes == [] then []
    else
      var before := Merged(scopes[..|scopes| - 1]);
      var last := scopes[|scopes| - 1];
      if Lower(last) in LowerSet(before) then before else before + [last]
  }

  /** What `az role definition list` returns for the role's name. */
  datatype Definition = Absent | Role(id: string, roleName: string, scopes: seq<string>)

  class RoleDefinition {
    var definition: Definition

    constructor ()
      ensures definition == Absent
    {
      definition := Absent;
    }

    /**
     A failing listing is read as no role, and the run then sends a create command; `taken` is
     whether Azure refuses to create a role under a name that exists. The id of a new
     definition comes from Azure.
     */
    method Ensure(name: string, cluster: string, newId: string, listed: bool, taken: bool, dryRun: bool, writes: nat)
      returns (ok: bool)
      modifies this
      ensures var found := if listed then old(definition) else Absent;
        && (ok <==>
              && (found.Role? ==> found.id != "" && found.roleName != "")
              && (dryRun || (writes > 0 && !(taken && found.Absent? && old(definition).Role?))))
        && definition == if ok && !dryRun then Ensured(found, name, cluster, newId) else old(definition)
    {
      var found := if listed then definition else Absent;
      if found.Role? && (found.id == "" || found.roleName == "") {
        return false;
      }
      var scopes := [cluster];
      if found.Role? {
        scopes := Merge(found.scopes + [cluster]);
      }
      if dryRun {
        return true;
      }
      if writes == 0 || (taken && found.Absent? && definition.Role?) {
        return false;
      }
      definition := Role(if found.Role? then found.id else newId, name, scopes);
      return true;
    }
  }

  /** The merge loop over the role's scopes and the new one. */
  method Merge(all: seq<string>) returns (scopes: seq<string>)
    ensures scopes == Merged(all)
  {
    var seen: set<string> := {};
    scopes := [];
    var i := 0;
    while i < |all|
      invariant i <= |all|
      invariant scopes == Merged(all[..i])
      invariant seen == LowerSet(scopes)
    {
      var scope := all[i];
      assert all[..i + 1][..i] == all[..i];
      if Lower(scope) !in seen {
        LowerSetAppend(scopes, scope);
        scopes, seen := scopes + [scope], seen + {Lower(scope)};
      }
      i := i + 1;
    }
    assert all[..|all|] == all;
  }

  function Ensured(d: Definition, name: string, cluster: string, newId: string): Definition {
    match d
    case Absent => Role(newId, name, [cluster])
    case Role(id, _, scopes) => Role(id, name, Merged(scopes + [cluster]))
  }

  lemma LowerSetAppend(scopes: seq<string>, scope: string)
    ensures LowerSet(scopes + [scope]) == LowerSet(scopes) + {Lower(scope)}
  {
    var longer := scopes + [scope];
    forall x | x in LowerSet(scopes) + {Lower(scope)}
      ensures x in LowerSet(longer)
    {
      if x == Lower(scope) {
        assert longer[|scopes|] == scope;
      } else {
        var i :| 0 <= i < |scopes| && x == Lower(scopes[i]);
        assert longer[i] == scopes[i];
      }
    }
  }

  // ---- first-seen order, defined by position ----

  /** Position `i` is the first at which its scope appears, ignoring case. */
  ghost predicate FirstAt(scopes: seq<string>, i: nat)
    requires i < |scopes|
  {
    forall j :: 0 <= j < i ==> Lower(scopes[j]) != Lower(scopes[i])
  }

  /** `result` lists the first appearances of `scopes` in their order, at positions `at`. */
  ghost predicate FirstAppearances(scopes: seq<string>, result: seq<string>, at: seq<nat>) {
    && |at| == |result|
    && (forall k :: 0 <= k < |at| ==> at[k] < |scopes| && result[k] == scopes[at[k]] && FirstAt(scopes, at[k]))
    && (forall k, l :: 0 <= k < l < |at| ==> at[k] < at[l])
    && (forall i :: 0 <= i < |scopes| && FirstAt(scopes, i) ==> i in at)
  }

  lemma FirstAtPrefix(scopes: seq<string>, n: nat)
    requires n <= |scopes|
    ensures forall i :: 0 <= i < n ==> (FirstAt(scopes, i) <==> FirstAt(scopes[..n], i))
  {
    forall i | 0 <= i < n ensures FirstAt(scopes, i) <==> FirstAt(scopes[..n], i) {
      assert forall j :: 0 <= j <= i ==> scopes[j] == scopes[..n][j];
    }
  }

  /** The merge loop loses no scope and invents none, ignoring case. */
  lemma {:induction false} MergedCovers(scopes: seq<string>)
    ensures LowerSet(Merged(scopes)) == LowerSet(scopes)
  {
    if scopes != [] {
      var n := |scopes| - 1;
      MergedCovers(scopes[..n]);
      assert scopes[..n] + [scopes[n]] == scopes;
      LowerSetAppend(scopes[..n], scopes[n]);
      LowerSetAppend(Merged(scopes[..n]), scopes[n]);
    }
  }

  lemma FirstAtIsNew(scopes: seq<string>, n: nat)
    requires n < |scopes|
    ensures FirstAt(scopes, n) <==> Lower(scopes[n]) !in LowerSet(scopes[..n])
  {
    forall j | 0 <= j < n ensures scopes[..n][j] == scopes[j] {
    }
    if j :| 0 <= j < n && Lower(scopes[j]) == Lower(scopes[n]) {
      assert Lower(scopes[..n][j]) in LowerSet(scopes[..n]);
    }
  }

  lemma {:induction false} MergedIsFirstAppearances(scopes: seq<string>) returns (at: seq<nat>)
    ensures FirstAppearances(scopes, Merged(scopes), at)
  {
    if scopes == [] {
      at := [];
    } else {
      var n := |scopes| - 1;
      var at' := MergedIsFirstAppearances(scopes[..n]);
      MergedCovers(scopes[..n]);
      FirstAtIsNew(scopes, n);
      at := if FirstAt(scopes, n) then at' + [n] else at';
      FirstAppearancesExtend(scopes, Merged(scopes[..n]), at');
    }
  }

  lemma FirstAppearancesExtend(scopes: seq<string>, result: seq<string>, at: seq<nat>)
    requires scopes != [] && FirstAppearances(scopes[..|scopes| - 1], result, at)
    ensures var n := |scopes| - 1;
      if FirstAt(scopes, n) then FirstAppearances(scopes, result + [scopes[n]], at + [n])
      else FirstAppearances(scopes, result, at)
  {
    var n := |scopes| - 1;
    FirstAtPrefix(scopes, n);
    var longer := if FirstAt(scopes, n) then at + [n] else at;
    forall k | 0 <= k < |at|
      ensures result[k] == scopes[at[k]] && FirstAt(scopes, at[k]) && longer[k] == at[k]
    {
      assert scopes[..n][at[k]] == scopes[at[k]];
    }
    forall i | 0 <= i < |scopes| && FirstAt(scopes, i) ensures i in longer {
      if i == n {
        assert longer[|at|] == n;
      } else {
        var k :| 0 <= k < |at| && at[k] == i;
        assert longer[k] == i;
      }
    }
  }

  // ---- histories ----

  /** The role after onboarding the clusters in order, from no role at all. */
  function Onboarded(name: string, clusters: seq<string>, newId: string): Definition {
    if clusters == [] then Absent
    else Ensured(Onboarded(name, clusters[..|clusters| - 1], newId), name, clusters[|clusters| - 1], newId)
  }

  lemma {:induction false} MergedAgain(scopes: seq<string>, more: seq<string>)
    ensures Merged(Merged(scopes) + more) == Merged(scopes + more)
  {
    if more == [] {
      assert scopes + more == scopes && Merged(scopes) + more == Merged(scopes);
      MergedTwice(scopes);
    } else {
      var front, last := more[..|more| - 1], more[|more| - 1];
      MergedAgain(scopes, front);
      assert (scopes + more)[..|scopes + more| - 1] == scopes + front;
      assert (Merged(scopes) + more)[..|Merged(scopes) + more| - 1] == Merged(scopes) + front;
    }
  }

  lemma {:induction false} MergedTwice(scopes: seq<string>)
    ensures Merged(Merged(scopes)) == Merged(scopes)
  {
    if scopes != [] {
      var before, last := Merged(scopes[..|scopes| - 1]), scopes[|scopes| - 1];
      MergedTwice(scopes[..|scopes| - 1]);
      if Lower(last) !in LowerSet(before) {
        assert (before + [last])[..|before|] == before;
      }
    }
  }

  /**
   After onboarding any sequence of clusters the role names each of them once ignoring
   case, in first-seen order.
   */
  lemma {:induction false} ScopesAreFirstSeen(name: string, clusters: seq<string>, newId: string)
    requires clusters != [] && newId != "" && name != ""
    ensures var d := Onboarded(name, clusters, newId);
      && d.Role? && d.id == newId && d.roleName == name
      && d.scopes == Merged(clusters)
      && (exists at :: FirstAppearances(clusters, d.scopes, at))
  {
    var before, last := clusters[..|clusters| - 1], clusters[|clusters| - 1];
    assert before + [last] == clusters;
    if before == [] {
      var none: seq<string> := [];
      assert clusters[..0] == none && Merged(none) == [];
      assert Merged(clusters) == [last] by {
        assert Lower(last) !in LowerSet(none);
      }
    } else {
      ScopesAreFirstSeen(name, before, newId);
      MergedAgain(before, [last]);
    }
    var at := MergedIsFirstAppearances(clusters);
  }

  ghost predicate NoRepeats(scopes: seq<string>) {
    forall i, j :: 0 <= i < j < |scopes| ==> Lower(scopes[i]) != Lower(scopes[j])
  }

  lemma {:induction false} NoRepeatsStay(scopes: seq<string>)
    requires NoRepeats(scopes)
    ensures Merged(scopes) == scopes
  {
    if scopes != [] {
      var n := |scopes| - 1;
      NoRepeatsStay(scopes[..n]);
      assert scopes[..n] + [scopes[n]] == scopes;
    }
  }

  /**
   Onboarding to any role there is: the scopes become the earlier ones and the cluster's,
   ignoring case, in first-seen order; a list without repeats stays in place and in its spelling.
   */
  lemma NeverDropsAScope(d: Definition, name: string, cluster: string, newId: string) returns (at: seq<nat>)
    requires d.Role?
    ensures var e := Ensured(d, name, cluster, newId);
      && e.Role? && e.id == d.id && e.roleName == name
      && LowerSet(e.scopes) == LowerSet(d.scopes) + {Lower(cluster)}
      && FirstAppearances(d.scopes + [cluster], e.scopes, at)
      && (NoRepeats(d.scopes) ==> d.scopes <= e.scopes && |e.scopes| <= |d.scopes| + 1)
  {
    var all := d.scopes + [cluster];
    MergedCovers(all);
    LowerSetAppend(d.scopes, cluster);
    at := MergedIsFirstAppearances(all);
    assert all[..|all| - 1] == d.scopes;
    if NoRepeats(d.scopes) {
      NoRepeatsStay(d.scopes);
    }
  }

  lemma CoveredAddsNothing(scopes: seq<string>, scope: string)
    requires Covers(scopes, scope)
    ensures Merged(scopes + [scope]) == Merged(scopes)
  {
    var all := scopes + [scope];
    assert all[..|all| - 1] == scopes;
    MergedCovers(scopes);
    var i :| 0 <= i < |scopes| && Lower(scopes[i]) == Lower(scope);
    assert Lower(scopes[i]) in LowerSet(scopes);
  }

  lemma CoversAsSet(scopes: seq<string>, scope: string)
    ensures Covers(scopes, scope) <==> Lower(scope) in LowerSet(scopes)
  {
    if Covers(scopes, scope) {
      var i :| 0 <= i < |scopes| && Lower(scopes[i]) == Lower(scope);
      assert Lower(scopes[i]) in LowerSet(scopes);
    }
  }

  /** After any onboard, one more for a cluster its role covers by then, in any spelling, changes nothing. */
  lemma RepeatChangesNothing(d: Definition, name: string, cluster: string, again: string,
                             newId: string, otherId: string)
    requires Covers(Ensured(d, name, cluster, newId).scopes, again)
    ensures var e := Ensured(d, name, cluster, newId); Ensured(e, name, again, otherId) == e
  {
    var e := Ensured(d, name, cluster, newId);
    CoveredAddsNothing(e.scopes, again);
    match d
    case Absent => NoRepeatsStay([cluster]);
    case Role(_, _, scopes) => MergedTwice(scopes + [cluster]);
  }

  /** The repeated onboard of one cluster is such a case. */
  lemma ClusterIsCovered(d: Definition, name: string, cluster: string, newId: string)
    ensures Covers(Ensured(d, name, cluster, newId).scopes, cluster)
  {
    var e := Ensured(d, name, cluster, newId);
    CoversAsSet(e.scopes, cluster);
    match d
    case Absent =>
      assert e.scopes[0] == cluster;
      assert Lower(e.scopes[0]) in LowerSet(e.scopes);
    case Role(_, _, _) =>
      var at := NeverDropsAScope(d, name, cluster, newId);
  }

  /** The role after an onboard that gets its write through, seen or not. */
  function Attempted(d: Definition, name: string, cluster: string, newId: string, listed: bool,
                     taken: bool): Definition {
    if listed then Ensured(d, name, cluster, newId)
    else if taken && d.Role? then d
    else Ensured(Absent, name, cluster, newId)
  }

  /**
   An onboard to a role that exists keeps its scopes exactly when it sees the role, Azure
   refuses the second role of that name, or the role covers no more than the new cluster.
   */
  lemma ScopesAreKeptExactly(d: Definition, name: string, cluster: string, newId: string, listed: bool, taken: bool)
    requires d.Role?
    ensures var e := Attempted(d, name, cluster, newId, listed, taken);
      && e.Role?
      && (LowerSet(d.scopes) <= LowerSet(e.scopes) <==>
            listed || taken || forall i :: 0 <= i < |d.scopes| ==> Lower(d.scopes[i]) == Lower(cluster))
  {
    if listed {
      var at := NeverDropsAScope(d, name, cluster, newId);
    } else if !taken {
      OnlyScope(d.scopes, cluster);
    }
  }

  lemma OnlyScope(clusters: seq<string>, cluster: string)
    ensures LowerSet(clusters) <= LowerSet([cluster])
       <==> forall i :: 0 <= i < |clusters| ==> Lower(clusters[i]) == Lower(cluster)
  {
    var one := [cluster];
    assert forall x :: x in LowerSet(one) <==> x == Lower(cluster) by {
      assert one[0] == cluster;
    }
    if LowerSet(clusters) <= LowerSet(one) {
      forall i | 0 <= i < |clusters| ensures Lower(clusters[i]) == Lower(cluster) {
        assert Lower(clusters[i]) in LowerSet(clusters);
      }
    }
  }
}
