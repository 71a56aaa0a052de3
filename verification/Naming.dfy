/** Azure resource names of an environment, and the validator meant to keep them in bounds. */
module Naming {
  import opened Text

  const STORAGE_LIMIT: nat := 24
  const COSMOS_LIMIT: nat := 44
  const BUS_LIMIT: nat := 50
  const SUFFIX_LENGTH: nat := 5

  // ---- names ----

  function WithSuffix(base: string, suffix: string, limit: nat): (r: string)
    ensures |r| <= if |suffix| <= limit then limit else |suffix|
  {
    if suffix == "" then Take(base, limit)
    else Take(base, if limit >= |suffix| then limit - |suffix| else 0) + suffix
  }

  /** `s[:n]` */
  function Take(s: string, n: nat): string {
    if n < |s| then s[..n] else s
  }

  /** The text without hyphens and underscores. */
  function Sanitized(s: string): (r: string)
    ensures |r| + Separators(s) == |s|
  {
    if s == "" then ""
    else if s[0] == '-' || s[0] == '_' then Sanitized(s[1..])
    else [s[0]] + Sanitized(s[1..])
  }

  function Separators(s: string): nat {
    if s == "" then 0
    else (if s[0] == '-' || s[0] == '_' then 1 else 0) + Separators(s[1..])
  }

  function StorageName(prefix: string, suffix: string): string {
    WithSuffix(Lower(Sanitized(prefix)), suffix, STORAGE_LIMIT)
  }

  function PartitionStorage(env: string, partition: string, suffix: string): string {
    StorageName("osdu" + env + partition, suffix)
  }

  function CommonStorage(env: string, suffix: string): string {
    StorageName("osdu" + env + "common", suffix)
  }

  function VaultName(env: string, suffix: string): string {
    if env == "" then "osduspistack" else Take("osdu" + Sanitized(env) + suffix, STORAGE_LIMIT)
  }

  function DashSuffix(suffix: string): string {
    if suffix == "" then "" else "-" + suffix
  }

  function CosmosBase(env: string, partition: string): string {
    "osdu-" + env + ("-" + partition + "-cosmos")
  }

  function CosmosName(env: string, partition: string, suffix: string): string {
    WithSuffix(CosmosBase(env, partition), DashSuffix(suffix), COSMOS_LIMIT)
  }

  function BusBase(env: string, partition: string): string {
    "osdu-" + env + ("-" + partition + "-bus")
  }

  function BusName(env: string, partition: string, suffix: string): string {
    WithSuffix(BusBase(env, partition), DashSuffix(suffix), BUS_LIMIT)
  }

  // ---- the validator ----

  datatype NameError = NoPartitions | Duplicates | NotAlphanumeric(partition: string) | TooLong(partition: string)

  predicate Alphanumeric(s: string) {
    s != "" && forall i :: 0 <= i < |s| ==> 'a' <= s[i] <= 'z' || '0' <= s[i] <= '9'
  }

  predicate Distinct(partitions: seq<string>) {
    forall i, j :: 0 <= i < j < |partitions| ==> partitions[i] != partitions[j]
  }

  predicate Fits(env: string, partition: string) {
    |"osdu" + Sanitized(env) + partition| + SUFFIX_LENGTH <= STORAGE_LIMIT
  }

  /** The first complaint about the partitions, in the validator's order. */
  function Validate(env: string, partitions: seq<string>): Option<NameError> {
    if partitions == [] then Some(NoPartitions)
    else if !Distinct(partitions) then Some(Duplicates)
    else PartitionError(env, partitions)
  }

  function PartitionError(env: string, partitions: seq<string>): (r: Option<NameError>)
    ensures r.None? <==> forall p :: p in partitions ==> Alphanumeric(p) && Fits(env, p)
  {
    if partitions == [] then None
    else if !Alphanumeric(partitions[0]) then Some(NotAlphanumeric(partitions[0]))
    else if !Fits(env, partitions[0]) then Some(TooLong(partitions[0]))
    else
      assert partitions == [partitions[0]] + partitions[1..];
      PartitionError(env, partitions[1..])
  }

  // ---- text facts ----

  lemma {:induction false} SanitizedConcat(a: string, b: string)
    ensures Sanitized(a + b) == Sanitized(a) + Sanitized(b)
  {
    if a == "" {
      assert a + b == b;
    } else {
      assert (a + b)[1..] == a[1..] + b;
      SanitizedConcat(a[1..], b);
    }
  }

  /** Cleaning drops every hyphen and underscore and nothing else. */
  lemma {:induction false} SanitizedExactly(s: string, c: char)
    ensures multiset(Sanitized(s))[c] == if c == '-' || c == '_' then 0 else multiset(s)[c]
    ensures Separators(s) == multiset(s)['-'] + multiset(s)['_']
  {
    if s != "" {
      SanitizedExactly(s[1..], c);
      assert s == [s[0]] + s[1..];
    }
  }

  lemma {:induction false} LowerConcat(a: string, b: string)
    ensures Lower(a + b) == Lower(a) + Lower(b)
  {
    if a == "" {
      assert a + b == b;
    } else {
      assert (a + b)[1..] == a[1..] + b;
      LowerConcat(a[1..], b);
    }
  }

  /** Lower-case letters and digits go through the cleaning unchanged. */
  lemma {:induction false} CleanedIsIdentity(s: string)
    requires forall i :: 0 <= i < |s| ==> 'a' <= s[i] <= 'z' || '0' <= s[i] <= '9'
    ensures Sanitized(s) == s && Lower(s) == s
  {
    if s != "" {
      CleanedIsIdentity(s[1..]);
    }
  }

  /** The cleaned base of a storage name. */
  lemma StorageBase(env: string, tail: string)
    requires Alphanumeric(tail)
    ensures Lower(Sanitized("osdu" + env + tail)) == "osdu" + Lower(Sanitized(env)) + tail
  {
    CleanedIsIdentity("osdu");
    CleanedIsIdentity(tail);
    SanitizedConcat("osdu" + env, tail);
    SanitizedConcat("osdu", env);
    LowerConcat("osdu" + Sanitized(env), tail);
    LowerConcat("osdu", Sanitized(env));
  }

  /** The validator accepts non-empty lists of distinct lower-case alphanumeric names that leave room for the suffix. */
  lemma ValidatesExactly(env: string, partitions: seq<string>)
    ensures Validate(env, partitions).None? <==>
      && partitions != []
      && (forall i, j :: 0 <= i < j < |partitions| ==> partitions[i] != partitions[j])
      && (forall p :: p in partitions ==> Alphanumeric(p) && |"osdu"| + |Sanitized(env)| + |p| <= 24 - 5)
  {
    forall p | p in partitions ensures Fits(env, p) <==> |"osdu"| + |Sanitized(env)| + |p| <= 24 - 5 {
    }
  }

  // ---- storage and vault ----

  /** For a validated partition and a five-character suffix, storage and vault names are not clipped. */
  lemma StorageIsUnclipped(env: string, partition: string, suffix: string)
    requires Alphanumeric(partition) && Fits(env, partition) && |suffix| == SUFFIX_LENGTH
    ensures PartitionStorage(env, partition, suffix) == "osdu" + Lower(Sanitized(env)) + partition + suffix
    ensures env != "" ==> VaultName(env, suffix) == "osdu" + Sanitized(env) + suffix
  {
    StorageBase(env, partition);
  }

  /** Over a validated list the partition storage names are pairwise distinct. */
  lemma StorageNamesAreDistinct(env: string, partitions: seq<string>, suffix: string, i: nat, j: nat)
    requires Validate(env, partitions).None? && |suffix| == SUFFIX_LENGTH
    requires i < j < |partitions|
    ensures PartitionStorage(env, partitions[i], suffix) != PartitionStorage(env, partitions[j], suffix)
  {
    var p, q := partitions[i], partitions[j];
    StorageIsUnclipped(env, p, suffix);
    StorageIsUnclipped(env, q, suffix);
    MiddleIsInjective("osdu" + Lower(Sanitized(env)), p, q, suffix);
  }

  /** Names with different suffixes differ, also when the base was clipped. */
  lemma SuffixesSeparate(base: string, suffix: string, other: string, otherSuffix: string, limit: nat)
    requires |suffix| == |otherSuffix| > 0 && suffix != otherSuffix
    ensures WithSuffix(base, suffix, limit) != WithSuffix(other, otherSuffix, limit)
  {
    var a, b := WithSuffix(base, suffix, limit), WithSuffix(other, otherSuffix, limit);
    assert a[|a| - |suffix|..] == suffix;
    assert b[|b| - |suffix|..] == otherSuffix;
  }

  /** What is left of the word `common` in the common storage name. */
  function ClippedCommon(env: string): string {
    Take("common", if |Sanitized(env)| <= 15 then 15 - |Sanitized(env)| else 0)
  }

  lemma CommonStorageShape(env: string, suffix: string)
    requires |Sanitized(env)| <= 15 && |suffix| == SUFFIX_LENGTH
    ensures CommonStorage(env, suffix) == "osdu" + Lower(Sanitized(env)) + ClippedCommon(env) + suffix
  {
    assert Alphanumeric("common");
    StorageBase(env, "common");
    var stem := "osdu" + Lower(Sanitized(env));
    assert |stem| == 4 + |Sanitized(env)|;
    assert Take(stem + "common", 19) == stem + ClippedCommon(env);
  }

  /**
   A validated partition shares the common storage account exactly when it is called
   `common`, clipped to the 15 characters the environment leaves.
   */
  lemma CommonCollidesExactly(env: string, partition: string, suffix: string)
    requires Alphanumeric(partition) && Fits(env, partition) && |suffix| == SUFFIX_LENGTH
    ensures PartitionStorage(env, partition, suffix) == CommonStorage(env, suffix) <==> partition == ClippedCommon(env)
  {
    StorageIsUnclipped(env, partition, suffix);
    CommonStorageShape(env, suffix);
    var stem := "osdu" + Lower(Sanitized(env));
    MiddleIsInjective(stem, partition, ClippedCommon(env), suffix);
  }

  lemma MiddleIsInjective(stem: string, p: string, q: string, suffix: string)
    ensures stem + p + suffix == stem + q + suffix <==> p == q
  {
    if stem + p + suffix == stem + q + suffix {
      assert |p| == |q|;
      assert (stem + p + suffix)[|stem|..|stem| + |p|] == p;
      assert (stem + q + suffix)[|stem|..|stem| + |p|] == q;
    }
  }

  /** Without a suffix the common name is never clipped: only a partition called `common` collides. */
  lemma LegacyCommonCollidesExactly(env: string, partition: string)
    requires Alphanumeric(partition) && Fits(env, partition)
    ensures PartitionStorage(env, partition, "") == CommonStorage(env, "") <==> partition == "common"
  {
    assert Alphanumeric("common");
    StorageBase(env, partition);
    StorageBase(env, "common");
    var stem := "osdu" + Lower(Sanitized(env));
    assert |stem| == 4 + |Sanitized(env)|;
    MiddleIsInjective(stem, partition, "common", "");
    assert stem + partition + "" == stem + partition && stem + "common" + "" == stem + "common";
  }

  // ---- Cosmos and Service Bus ----

  ghost predicate Unclipped(base: string, suffix: string, limit: nat) {
    WithSuffix(base, suffix, limit) == base + suffix
  }

  lemma UnclippedExactly(base: string, suffix: string, limit: nat)
    requires |suffix| <= limit
    ensures Unclipped(base, suffix, limit) <==> |base| + |suffix| <= limit
  {
  }

  /** The Cosmos name fits exactly when environment and partition have 25 characters together. */
  lemma CosmosFitsExactly(env: string, partition: string, suffix: string)
    requires |suffix| == SUFFIX_LENGTH
    ensures Unclipped(CosmosBase(env, partition), DashSuffix(suffix), COSMOS_LIMIT) <==> |env| + |partition| <= 25
    ensures Unclipped(BusBase(env, partition), DashSuffix(suffix), BUS_LIMIT) <==> |env| + |partition| <= 34
  {
    UnclippedExactly(CosmosBase(env, partition), DashSuffix(suffix), COSMOS_LIMIT);
    UnclippedExactly(BusBase(env, partition), DashSuffix(suffix), BUS_LIMIT);
  }

  ghost predicate AccountsUnclipped(env: string, partition: string, suffix: string) {
    && Unclipped(CosmosBase(env, partition), DashSuffix(suffix), COSMOS_LIMIT)
    && Unclipped(BusBase(env, partition), DashSuffix(suffix), BUS_LIMIT)
  }

  lemma AccountsFitExactly(env: string, partition: string, suffix: string)
    requires |suffix| == SUFFIX_LENGTH
    ensures AccountsUnclipped(env, partition, suffix) <==> |env| + |partition| <= 25
  {
    CosmosFitsExactly(env, partition, suffix);
  }

  lemma FitsExactly(env: string, partition: string)
    ensures Fits(env, partition) <==> |Sanitized(env)| + |partition| <= 15
  {}

  /**
   Fitting into storage implies fitting into Cosmos and Service Bus for every partition the
   validator accepts exactly when the environment name has at most ten separators.
   */
  lemma StorageImpliesTheOthersExactly(env: string, suffix: string)
    requires |suffix| == SUFFIX_LENGTH && |Sanitized(env)| < 15
    ensures (forall p :: Alphanumeric(p) && Fits(env, p) ==> AccountsUnclipped(env, p, suffix))
       <==> Separators(env) <= 10
  {
    assert |Sanitized(env)| + Separators(env) == |env|;
    if Separators(env) > 10 {
      var longest := seq(15 - |Sanitized(env)|, _ => 'p');
      FitsExactly(env, longest);
      AccountsFitExactly(env, longest, suffix);
      assert Alphanumeric(longest) && Fits(env, longest) && !AccountsUnclipped(env, longest, suffix);
    } else {
      forall p | Alphanumeric(p) && Fits(env, p) ensures AccountsUnclipped(env, p, suffix) {
        FitsExactly(env, p);
        AccountsFitExactly(env, p, suffix);
      }
    }
  }

  // ---- account names of different partitions ----

  /** What a clipped name leaves for the partition and the word after it. */
  function Room(env: string, limit: nat): nat {
    if limit > |env| + 12 then limit - |env| - 12 else 0
  }

  /** The names show the same of both partitions: they are cut inside or right after each. */
  predicate SameClip(p: string, q: string, room: nat) {
    |p| >= room && |q| >= room && p[..room] == q[..room]
  }

  lemma TailsEqualExactly(p: string, q: string, kind: string, n: nat)
    requires Alphanumeric(p) && Alphanumeric(q) && kind != "" && kind[0] == '-'
    ensures Take(p + kind, n) == Take(q + kind, n) <==> p == q || SameClip(p, q, n)
  {
    var a, b := p + kind, q + kind;
    if SameClip(p, q, n) {
      assert a[..n] == p[..n] && b[..n] == q[..n];
    } else if p != q {
      if |p| >= n && |q| >= n {
        assert a[..n] == p[..n] && b[..n] == q[..n];
      } else if |p| <= |q| {
        ShorterShows(p, q, kind, n);
      } else {
        ShorterShows(q, p, kind, n);
      }
    }
  }

  /** A partition that ends before the cut is told from any other that is not shorter. */
  lemma ShorterShows(p: string, q: string, kind: string, n: nat)
    requires Alphanumeric(p) && Alphanumeric(q) && kind != "" && kind[0] == '-'
    requires |p| < n && |p| <= |q| && p != q
    ensures Take(p + kind, n) != Take(q + kind, n)
  {
    var a, b := Take(p + kind, n), Take(q + kind, n);
    if |p| < |q| {
      assert a[|p|] == '-' && b[|p|] == q[|p|];
    } else {
      assert a[..|p|] == p && b[..|p|] == q;
    }
  }

  lemma TakeAfterHead(head: string, tail: string, n: nat)
    ensures Take(head + tail, n) == if n <= |head| then head[..n] else head + Take(tail, n - |head|)
  {}

  lemma ClippedExactly(head: string, p: string, q: string, kind: string, n: nat)
    requires Alphanumeric(p) && Alphanumeric(q) && kind != "" && kind[0] == '-'
    ensures Take(head + (p + kind), n) == Take(head + (q + kind), n)
       <==> p == q || SameClip(p, q, if n > |head| then n - |head| else 0)
  {
    TakeAfterHead(head, p + kind, n);
    TakeAfterHead(head, q + kind, n);
    if n > |head| {
      TailsEqualExactly(p, q, kind, n - |head|);
      HeadCancels(head, Take(p + kind, n - |head|), Take(q + kind, n - |head|));
    }
  }

  lemma Regroup(a: string, b: string, c: string, d: string)
    ensures a + (b + c + d) == a + b + (c + d)
  {}

  /** Two partitions get one name exactly when they look alike up to the cut. */
  lemma AccountsCollideExactly(env: string, p: string, q: string, kind: string, suffix: string, limit: nat)
    requires Alphanumeric(p) && Alphanumeric(q) && kind != "" && kind[0] == '-'
    requires |suffix| == SUFFIX_LENGTH && limit >= 6
    ensures WithSuffix("osdu-" + env + ("-" + p + kind), DashSuffix(suffix), limit)
         == WithSuffix("osdu-" + env + ("-" + q + kind), DashSuffix(suffix), limit)
       <==> p == q || SameClip(p, q, Room(env, limit))
  {
    CollideUnder("osdu-" + env, "-", p, q, kind, DashSuffix(suffix), limit);
  }

  lemma CollideUnder(head: string, dash: string, p: string, q: string, kind: string, end: string, limit: nat)
    requires Alphanumeric(p) && Alphanumeric(q) && kind != "" && kind[0] == '-'
    requires |dash| == 1 && 0 < |end| <= limit
    ensures WithSuffix(head + (dash + p + kind), end, limit) == WithSuffix(head + (dash + q + kind), end, limit)
       <==> p == q || SameClip(p, q, if limit > |head| + 1 + |end| then limit - |head| - 1 - |end| else 0)
  {
    Regroup(head, dash, p, kind);
    Regroup(head, dash, q, kind);
    ClippedExactly(head + dash, p, q, kind, limit - |end|);
    EndedNames(head + (dash + p + kind), head + (dash + q + kind), end, limit);
  }

  lemma EndedNames(a: string, b: string, end: string, limit: nat)
    requires 0 < |end| <= limit
    ensures WithSuffix(a, end, limit) == WithSuffix(b, end, limit) <==> Take(a, limit - |end|) == Take(b, limit - |end|)
  {
    SuffixCancels(Take(a, limit - |end|), Take(b, limit - |end|), end);
  }

  lemma SuffixCancels(a: string, b: string, end: string)
    ensures a + end == b + end <==> a == b
  {
    if a + end == b + end {
      SameEnding(a, b, end);
    }
  }

  lemma HeadCancels(head: string, a: string, b: string)
    ensures head + a == head + b <==> a == b
  {
    if head + a == head + b {
      assert (head + a)[|head|..] == a && (head + b)[|head|..] == b;
    }
  }

  lemma CosmosCollidesExactly(env: string, p: string, q: string, suffix: string)
    requires Alphanumeric(p) && Alphanumeric(q) && |suffix| == SUFFIX_LENGTH
    ensures CosmosName(env, p, suffix) == CosmosName(env, q, suffix)
       <==> p == q || SameClip(p, q, Room(env, COSMOS_LIMIT))
  {
    AccountsCollideExactly(env, p, q, "-cosmos", suffix, COSMOS_LIMIT);
  }

  lemma BusCollidesExactly(env: string, p: string, q: string, suffix: string)
    requires Alphanumeric(p) && Alphanumeric(q) && |suffix| == SUFFIX_LENGTH
    ensures BusName(env, p, suffix) == BusName(env, q, suffix) <==> p == q || SameClip(p, q, Room(env, BUS_LIMIT))
  {
    AccountsCollideExactly(env, p, q, "-bus", suffix, BUS_LIMIT);
  }

  predicate Acceptable(env: string, partition: string) {
    Alphanumeric(partition) && Fits(env, partition)
  }

  /** No two partitions the validator accepts are cut alike exactly when the room covers the longest of them. */
  lemma RoomSufficesExactly(env: string, room: nat)
    requires |Sanitized(env)| < 15
    ensures (forall p, q :: Acceptable(env, p) && Acceptable(env, q) && p != q ==> !SameClip(p, q, room))
       <==> |Sanitized(env)| + room >= 15
  {
    if |Sanitized(env)| + room >= 15 {
      forall p, q | Acceptable(env, p) && Acceptable(env, q) && p != q
        ensures !SameClip(p, q, room)
      {
        FitsExactly(env, p);
        FitsExactly(env, q);
        ShortAreNotAlike(p, q, room);
      }
    } else {
      var p, q := AlikePair(env, room);
    }
  }

  lemma ShortAreNotAlike(p: string, q: string, room: nat)
    requires |p| <= room && |q| <= room && p != q
    ensures !SameClip(p, q, room)
  {
    assert p[..|p|] == p && q[..|q|] == q;
  }

  /** Two partitions that agree on their first `room` characters. */
  lemma AlikePair(env: string, room: nat) returns (p: string, q: string)
    requires |Sanitized(env)| + room < 15
    ensures Acceptable(env, p) && Acceptable(env, q) && p != q && SameClip(p, q, room)
  {
    var stem := seq(room, _ => 'p');
    p, q := stem + "a", stem + "b";
    assert p[room] != q[room];
    assert p[..room] == stem && q[..room] == stem;
    FitsExactly(env, p);
    FitsExactly(env, q);
  }

  ghost predicate PairwiseDistinct(names: seq<string>) {
    forall i, j :: 0 <= i < j < |names| ==> names[i] != names[j]
  }

  function CosmosNames(env: string, partitions: seq<string>, suffix: string): (r: seq<string>)
    ensures |r| == |partitions| && forall i :: 0 <= i < |r| ==> r[i] == CosmosName(env, partitions[i], suffix)
  {
    seq(|partitions|, i requires 0 <= i < |partitions| => CosmosName(env, partitions[i], suffix))
  }

  function BusNames(env: string, partitions: seq<string>, suffix: string): (r: seq<string>)
    ensures |r| == |partitions| && forall i :: 0 <= i < |r| ==> r[i] == BusName(env, partitions[i], suffix)
  {
    seq(|partitions|, i requires 0 <= i < |partitions| => BusName(env, partitions[i], suffix))
  }

  lemma PairIsValid(env: string, p: string, q: string)
    requires Acceptable(env, p) && Acceptable(env, q) && p != q
    ensures Validate(env, [p, q]).None?
  {}

  /** The Cosmos names of every validated list are distinct exactly when the environment has at most 17 separators. */
  lemma CosmosNamesAreDistinctExactly(env: string, suffix: string)
    requires |suffix| == SUFFIX_LENGTH && |Sanitized(env)| < 15
    ensures (forall partitions :: Validate(env, partitions).None? ==>
               PairwiseDistinct(CosmosNames(env, partitions, suffix)))
       <==> Separators(env) <= 17
  {
    var room := Room(env, COSMOS_LIMIT);
    assert |Sanitized(env)| + Separators(env) == |env|;
    RoomSufficesExactly(env, room);
    if |Sanitized(env)| + room < 15 {
      var p, q := AlikePair(env, room);
      PairIsValid(env, p, q);
      CosmosCollidesExactly(env, p, q, suffix);
      var names := CosmosNames(env, [p, q], suffix);
      assert names[0] == names[1];
    } else {
      forall partitions | Validate(env, partitions).None?
        ensures PairwiseDistinct(CosmosNames(env, partitions, suffix))
      {
        forall i, j | 0 <= i < j < |partitions|
          ensures CosmosName(env, partitions[i], suffix) != CosmosName(env, partitions[j], suffix)
        {
          CosmosCollidesExactly(env, partitions[i], partitions[j], suffix);
        }
      }
    }
  }

  /** The Service Bus names, exactly when it has at most 23. */
  lemma BusNamesAreDistinctExactly(env: string, suffix: string)
    requires |suffix| == SUFFIX_LENGTH && |Sanitized(env)| < 15
    ensures (forall partitions :: Validate(env, partitions).None? ==>
               PairwiseDistinct(BusNames(env, partitions, suffix)))
       <==> Separators(env) <= 23
  {
    var room := Room(env, BUS_LIMIT);
    assert |Sanitized(env)| + Separators(env) == |env|;
    RoomSufficesExactly(env, room);
    if |Sanitized(env)| + room < 15 {
      var p, q := AlikePair(env, room);
      PairIsValid(env, p, q);
      BusCollidesExactly(env, p, q, suffix);
      var names := BusNames(env, [p, q], suffix);
      assert names[0] == names[1];
    } else {
      forall partitions | Validate(env, partitions).None?
        ensures PairwiseDistinct(BusNames(env, partitions, suffix))
      {
        forall i, j | 0 <= i < j < |partitions|
          ensures BusName(env, partitions[i], suffix) != BusName(env, partitions[j], suffix)
        {
          BusCollidesExactly(env, partitions[i], partitions[j], suffix);
        }
      }
    }
  }

  /** With enough separators clipping cuts the partition off: two validated partitions share an account name. */
  lemma ClippedAccountsCollide(env: string, partitions: seq<string>, suffix: string)
    requires env == seq(33, _ => '-') && partitions == ["a", "b"] && |suffix| == SUFFIX_LENGTH
    ensures Validate(env, partitions).None?
    ensures CosmosName(env, "a", suffix) == CosmosName(env, "b", suffix)
  {
    AllSeparators(env);
    assert Fits(env, "a") && Fits(env, "b");
    assert Take(CosmosBase(env, "a"), 38) == ("osdu-" + env + "-a")[..38] == "osdu-" + env;
    assert Take(CosmosBase(env, "b"), 38) == ("osdu-" + env + "-b")[..38] == "osdu-" + env;
  }

  lemma {:induction false} AllSeparators(s: string)
    requires forall i :: 0 <= i < |s| ==> s[i] == '-'
    ensures Sanitized(s) == ""
  {
    if s != "" {
      AllSeparators(s[1..]);
    }
  }
}
