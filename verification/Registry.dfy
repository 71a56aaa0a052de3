/** The paged registry lookup that finds the newest immutable tag of a service image. */
module Registry {
  import opened Text

  const PER_PAGE: nat := 100

  /** What the server answers for one page (pages count from 1). */
  function Page<T>(items: seq<T>, page: nat): seq<T>
    requires page >= 1
  {
    var from := PER_PAGE * (page - 1);
    if from >= |items| then []
    else if from + PER_PAGE >= |items| then items[from..]
    else items[from..from + PER_PAGE]
  }

  /**
   The pagination loop: it asks for pages until one is not full. It sees the whole list
   in order, with one request more than there are full pages.
   */
  method FetchAll<T>(items: seq<T>) returns (all: seq<T>, requests: nat)
    ensures all == items
    ensures requests == |items| / PER_PAGE + 1
  {
    all, requests := [], 0;
    var page := 1;
    while true
      invariant page >= 1 && requests == page - 1
      invariant PER_PAGE * (page - 1) <= |items|
      invariant all == items[..PER_PAGE * (page - 1)]
      decreases |items| - |all|
    {
      var chunk := Page(items, page);
      requests := requests + 1;
      if chunk == [] {
        break;
      }
      all := all + chunk;
      if |chunk| < PER_PAGE {
        break;
      }
      page := page + 1;
    }
  }

  // ---- tags ----

  /** `created` is the parsed time; a tag without one has the earliest time of all. */
  datatype Tag = Tag(name: string, created: int, digest: string)

  predicate IsHexDigit(c: char) {
    '0' <= c <= '9' || 'a' <= c <= 'f'
  }

  /** A 40-digit commit hash; the pattern's `$` also lets one closing newline through. */
  predicate IsImmutable(name: string) {
    && (|name| == 40 || (|name| == 41 && name[40] == '\n'))
    && forall i :: 0 <= i < 40 ==> IsHexDigit(name[i])
  }

  /** A hash in any spelling the pattern admits, spelt out by its digits. */
  lemma HashesAreCommits(name: string)
    ensures IsImmutable(name) <==> exists hash :: IsCommit(hash) && (name == hash || name == hash + "\n")
  {
    if IsImmutable(name) {
      var hash := name[..40];
      forall i | 0 <= i < 40 ensures hash[i] in "0123456789abcdef" {
        assert IsHexDigit(name[i]);
        DigitIsListed(name[i]);
      }
      assert IsCommit(hash) && (name == hash || name == hash + "\n");
    }
    if hash :| IsCommit(hash) && (name == hash || name == hash + "\n") {
      forall i | 0 <= i < 40 ensures IsHexDigit(name[i]) {
        assert name[i] == hash[i];
        DigitIsListed(hash[i]);
      }
    }
  }

  ghost predicate IsCommit(hash: string) {
    |hash| == 40 && forall i :: 0 <= i < 40 ==> hash[i] in "0123456789abcdef"
  }

  lemma DigitIsListed(c: char)
    ensures IsHexDigit(c) <==> c in "0123456789abcdef"
  {
    var digits := "0123456789abcdef";
    if '0' <= c <= '9' {
      assert digits[c as int - '0' as int] == c;
    } else if 'a' <= c <= 'f' {
      assert digits[c as int - 'a' as int + 10] == c;
    }
  }

  /** The two filters of the lookup: tags with a name, and those whose name is a hash. */
  predicate Keeps(hashes: bool, t: Tag) {
    if hashes then IsImmutable(t.name) else t.name != ""
  }

  function Kept(tags: seq<Tag>, hashes: bool): seq<Tag> {
    if tags == [] then []
    else
      var last := tags[|tags| - 1];
      Kept(tags[..|tags| - 1], hashes) + (if Keeps(hashes, last) then [last] else [])
  }

  /** The first of the newest tags, as max() with a key picks it. */
  function Newest(tags: seq<Tag>): Tag
    requires tags != []
  {
    if |tags| == 1 then tags[0]
    else
      var best := Newest(tags[..|tags| - 1]);
      if tags[|tags| - 1].created > best.created then tags[|tags| - 1] else best
  }

  function NewestImmutable(tags: seq<Tag>): Option<Tag> {
    var details := Kept(tags, false);
    var immutable := Kept(details, true);
    var candidates := if immutable != [] then immutable else details;
    if candidates == [] then None else Some(Newest(candidates))
  }

  /** Position `i` holds the first of the newest tags. */
  ghost predicate FirstNewestAt(tags: seq<Tag>, i: nat)
    requires i < |tags|
  {
    && (forall j :: 0 <= j < |tags| ==> tags[j].created <= tags[i].created)
    && (forall j :: 0 <= j < i ==> tags[j].created < tags[i].created)
  }

  lemma {:induction false} NewestIsFirstNewest(tags: seq<Tag>) returns (i: nat)
    requires tags != []
    ensures i < |tags| && tags[i] == Newest(tags) && FirstNewestAt(tags, i)
  {
    if |tags| == 1 {
      i := 0;
    } else {
      var front := tags[..|tags| - 1];
      i := NewestIsFirstNewest(front);
      assert forall j :: 0 <= j < |front| ==> front[j] == tags[j];
      if tags[|tags| - 1].created > tags[i].created {
        i := |tags| - 1;
      }
    }
  }

  // ---- the lookup ----

  datatype Repository = Repository(name: string, location: string, tags: seq<Tag>)

  datatype Found = Found(repository: string, tag: Tag)

  datatype LookupError = NoRepository | NoTags

  /** Position of the first repository of that name. */
  ghost predicate FirstNamedAt(repos: seq<Repository>, name: string, i: nat) {
    && i < |repos| && repos[i].name == name
    && (forall j :: 0 <= j < i ==> repos[j].name != name)
  }

  /** Position `k` holds the first newest of the tags with a name, or of those that are hashes. */
  ghost predicate FirstNewestOf(tags: seq<Tag>, hashes: bool, k: nat) {
    && k < |tags| && Keeps(hashes, tags[k])
    && (forall j :: 0 <= j < |tags| && Keeps(hashes, tags[j]) ==>
          tags[j].created <= tags[k].created && (j < k ==> tags[j].created < tags[k].created))
  }

  ghost predicate HasHash(tags: seq<Tag>) {
    exists j :: 0 <= j < |tags| && IsImmutable(tags[j].name)
  }

  /** The pick is the first newest hash of the list, or its first newest named tag when there is no hash. */
  ghost predicate PickedFrom(tags: seq<Tag>, pick: Tag) {
    exists k: nat :: FirstNewestOf(tags, HasHash(tags), k) && tags[k] == pick
  }

  /**
   The lookup over both paged lists. It finds the first repository of the exact name, and
   in it the first newest hash tag of the whole list, or the first newest tag when no tag
   is a hash; it fails exactly when there is no such repository or no named tag.
   */
  method ResolveImage(repos: seq<Repository>, image: string, branch: string) returns (r: Result<Found, LookupError>)
    ensures r == Err(NoRepository) <==> forall i :: 0 <= i < |repos| ==> repos[i].name != image + "-" + branch
    ensures r == Err(NoTags) <==>
      exists i: nat :: FirstNamedAt(repos, image + "-" + branch, i)
        && forall j :: 0 <= j < |repos[i].tags| ==> repos[i].tags[j].name == ""
    ensures r.Ok? ==>
      exists i: nat :: FirstNamedAt(repos, image + "-" + branch, i)
        && r.value.repository == repos[i].location && PickedFrom(repos[i].tags, r.value.tag)
  {
    var name := image + "-" + branch;
    var listed, _ := FetchAll(repos);
    var i := 0;
    while i < |listed| && listed[i].name != name
      invariant i <= |listed|
      invariant forall j :: 0 <= j < i ==> listed[j].name != name
    {
      i := i + 1;
    }
    if i == |listed| {
      return Err(NoRepository);
    }
    assert FirstNamedAt(repos, name, i);
    assert forall j: nat :: FirstNamedAt(repos, name, j) ==> j == i;
    var tags, _ := FetchAll(listed[i].tags);
    var tag := NewestImmutable(tags);
    NewestImmutableIsPicked(tags);
    match tag {
      case None => return Err(NoTags);
      case Some(t) => return Ok(Found(listed[i].location, t));
    }
  }

  /** `at` lists the positions of the kept tags in the full list, in order. */
  ghost predicate Positions(tags: seq<Tag>, hashes: bool, kept: seq<Tag>, at: seq<nat>) {
    && |at| == |kept|
    && (forall k :: 0 <= k < |at| ==> at[k] < |tags| && tags[at[k]] == kept[k] && Keeps(hashes, kept[k]))
    && (forall k, l :: 0 <= k < l < |at| ==> at[k] < at[l])
    && (forall j :: 0 <= j < |tags| && Keeps(hashes, tags[j]) ==> j in at)
  }

  /** A filter keeps exactly the tags it should, each at its place in the order. */
  lemma {:induction false} KeptInOrder(tags: seq<Tag>, hashes: bool) returns (at: seq<nat>)
    ensures Positions(tags, hashes, Kept(tags, hashes), at)
  {
    if tags == [] {
      at := [];
    } else {
      var n := |tags| - 1;
      var front := KeptInOrder(tags[..n], hashes);
      if Keeps(hashes, tags[n]) {
        at := front + [n];
        PositionsExtend(tags, hashes, Kept(tags[..n], hashes), front);
      } else {
        at := front;
        PositionsStay(tags, hashes, Kept(tags[..n], hashes), front);
      }
    }
  }

  lemma PositionsExtend(tags: seq<Tag>, hashes: bool, kept: seq<Tag>, at: seq<nat>)
    requires tags != [] && Positions(tags[..|tags| - 1], hashes, kept, at) && Keeps(hashes, tags[|tags| - 1])
    ensures Positions(tags, hashes, kept + [tags[|tags| - 1]], at + [|tags| - 1])
  {
    var n := |tags| - 1;
    assert forall j :: 0 <= j < n ==> tags[..n][j] == tags[j];
    assert (at + [n])[|at|] == n;
    forall j | 0 <= j < |tags| && Keeps(hashes, tags[j]) ensures j in at + [n] {
      assert j < n ==> tags[..n][j] == tags[j];
    }
  }

  lemma PositionsStay(tags: seq<Tag>, hashes: bool, kept: seq<Tag>, at: seq<nat>)
    requires tags != [] && Positions(tags[..|tags| - 1], hashes, kept, at) && !Keeps(hashes, tags[|tags| - 1])
    ensures Positions(tags, hashes, kept, at)
  {
    var n := |tags| - 1;
    assert forall j :: 0 <= j < n ==> tags[..n][j] == tags[j];
    forall j | 0 <= j < |tags| && Keeps(hashes, tags[j]) ensures j in at {
      assert tags[..n][j] == tags[j];
    }
  }

  /** A hash is a name: looking for hashes among the named tags is looking for them among all. */
  lemma {:induction false} HashesAreNamed(tags: seq<Tag>)
    ensures Kept(Kept(tags, false), true) == Kept(tags, true)
  {
    if tags != [] {
      var front, last := tags[..|tags| - 1], tags[|tags| - 1];
      HashesAreNamed(front);
      if Keeps(false, last) {
        var named := Kept(front, false) + [last];
        assert named[..|named| - 1] == Kept(front, false);
      } else {
        assert !Keeps(true, last);
        assert Kept(tags, false) == Kept(front, false) && Kept(tags, true) == Kept(front, true);
      }
    }
  }

  lemma KeptIsEmptyExactly(tags: seq<Tag>, hashes: bool)
    ensures Kept(tags, hashes) == [] <==> forall j :: 0 <= j < |tags| ==> !Keeps(hashes, tags[j])
  {
    var at := KeptInOrder(tags, hashes);
    if Kept(tags, hashes) != [] {
      assert Keeps(hashes, tags[at[0]]);
    }
  }

  lemma NewestOfKept(tags: seq<Tag>, hashes: bool) returns (k: nat)
    requires Kept(tags, hashes) != []
    ensures FirstNewestOf(tags, hashes, k) && tags[k] == Newest(Kept(tags, hashes))
  {
    var kept := Kept(tags, hashes);
    var at := KeptInOrder(tags, hashes);
    var i := NewestIsFirstNewest(kept);
    k := at[i];
    forall j | 0 <= j < |tags| && Keeps(hashes, tags[j])
      ensures tags[j].created <= tags[k].created && (j < k ==> tags[j].created < tags[k].created)
    {
      NoneIsNewer(tags, hashes, kept, at, i, j);
    }
  }

  lemma NoneIsNewer(tags: seq<Tag>, hashes: bool, kept: seq<Tag>, at: seq<nat>, i: nat, j: nat)
    requires Positions(tags, hashes, kept, at) && i < |kept| && FirstNewestAt(kept, i)
    requires j < |tags| && j in at
    ensures tags[j].created <= kept[i].created
    ensures j < at[i] ==> tags[j].created < kept[i].created
  {
    var l :| 0 <= l < |at| && at[l] == j;
    assert kept[l] == tags[j];
  }

  /** On the list as the registry gave it: what is picked, and when nothing is. */
  lemma NewestImmutableIsPicked(tags: seq<Tag>)
    ensures NewestImmutable(tags).None? <==> forall j :: 0 <= j < |tags| ==> tags[j].name == ""
    ensures NewestImmutable(tags).Some? ==> PickedFrom(tags, NewestImmutable(tags).value)
  {
    HashesAreNamed(tags);
    KeptIsEmptyExactly(tags, true);
    KeptIsEmptyExactly(tags, false);
    if Kept(tags, true) != [] {
      var k := NewestOfKept(tags, true);
    } else if Kept(tags, false) != [] {
      var k := NewestOfKept(tags, false);
    }
  }
}
