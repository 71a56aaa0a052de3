/**
 The image lock: a ConfigMap that pins every service image and records the selection
 it was resolved from. A refresh reads the selection back, resolves, and replaces the lock.
 */
module ImageLock {
  import opened Text
  import opened ImageSelection

  datatype Image = Image(repository: string, tag: string, createdAt: string, digest: string)

  function Reference(i: Image): string {
    if i.digest != "" then i.repository + "@" + i.digest else i.repository + ":" + i.tag
  }

  /** The services in the live lock, in registry order. */
  const LOCK_NAMES: seq<string> := [
    "partition", "entitlements", "legal", "schema", "storage", "search", "indexer",
    "indexer-queue", "file", "workflow", "crs-conversion", "crs-catalog", "unit"]

  type Data = map<string, string>

  /** Per service: its image, or why it could not be resolved. */
  type Outcomes = map<string, Result<Image, string>>

  // ---- resolving all services ----

  /** A message that names its service already is left as it is. */
  function ErrorLine(name: string, message: string): string {
    if name + ":" <= message then message else name + ": " + message
  }

  predicate Covers(names: seq<string>, outcomes: Outcomes) {
    forall i :: 0 <= i < |names| ==> names[i] in outcomes
  }

  /** One line for every service that failed, in order. */
  function ErrorLines(names: seq<string>, outcomes: Outcomes): seq<string>
    requires Covers(names, outcomes)
  {
    if names == [] then []
    else
      var front, name := ErrorLines(names[..|names| - 1], outcomes), names[|names| - 1];
      if outcomes[name].Ok? then front else front + [ErrorLine(name, outcomes[name].error)]
  }

  function ResolvedOf(names: seq<string>, outcomes: Outcomes): map<string, Image>
    requires Covers(names, outcomes)
  {
    if names == [] then map[]
    else
      var front, name := ResolvedOf(names[..|names| - 1], outcomes), names[|names| - 1];
      if outcomes[name].Ok? then front[name := outcomes[name].value] else front
  }

  /** Goes through all services before it fails. */
  method ResolveImages(names: seq<string>, outcomes: Outcomes) returns (r: Result<map<string, Image>, seq<string>>)
    requires Covers(names, outcomes)
    ensures var errors := ErrorLines(names, outcomes);
      r == if errors == [] then Ok(ResolvedOf(names, outcomes)) else Err(errors)
  {
    var resolved: map<string, Image> := map[];
    var errors: seq<string> := [];
    for n := 0 to |names|
      invariant resolved == ResolvedOf(names[..n], outcomes)
      invariant errors == ErrorLines(names[..n], outcomes)
    {
      var name := names[n];
      assert names[..n + 1][..n] == names[..n];
      match outcomes[name] {
        case Ok(image) => resolved := resolved[name := image];
        case Err(message) => errors := errors + [ErrorLine(name, message)];
      }
    }
    assert names[..|names|] == names;
    return if errors != [] then Err(errors) else Ok(resolved);
  }

  lemma {:induction false} NoErrorMeansAllResolved(names: seq<string>, outcomes: Outcomes)
    requires Covers(names, outcomes)
    ensures ErrorLines(names, outcomes) == [] <==> forall i :: 0 <= i < |names| ==> outcomes[names[i]].Ok?
  {
    if names != [] {
      NoErrorMeansAllResolved(names[..|names| - 1], outcomes);
    }
  }

  /** The error names every service that failed, not only the first. */
  lemma {:induction false} EveryFailureIsNamed(names: seq<string>, outcomes: Outcomes, i: nat)
    requires Covers(names, outcomes) && i < |names| && outcomes[names[i]].Err?
    ensures ErrorLine(names[i], outcomes[names[i]].error) in ErrorLines(names, outcomes)
  {
    if i < |names| - 1 {
      EveryFailureIsNamed(names[..|names| - 1], outcomes, i);
    }
  }

  lemma {:induction false} ResolvedAreTheImages(names: seq<string>, outcomes: Outcomes)
    requires Covers(names, outcomes)
    ensures forall i :: 0 <= i < |names| && outcomes[names[i]].Ok? ==> names[i] in ResolvedOf(names, outcomes)
    ensures forall name :: name in ResolvedOf(names, outcomes) ==>
      name in names && outcomes[name] == Ok(ResolvedOf(names, outcomes)[name])
  {
    if names != [] {
      ResolvedAreTheImages(names[..|names| - 1], outcomes);
    }
  }

  // ---- rendering ----

  function UpperChar(c: char): char {
    if c == '-' then '_' else if 'a' <= c <= 'z' then c - 'a' + 'A' else c
  }

  function LockKey(name: string): (r: string)
    ensures |r| == |name|
  {
    if name == "" then "" else [UpperChar(name[0])] + LockKey(name[1..])
  }

  type Field = f: nat | f < 5

  function FieldEnding(f: Field): string {
    if f == 0 then "_IMAGE"
    else if f == 1 then "_IMAGE_REPOSITORY"
    else if f == 2 then "_IMAGE_TAG"
    else if f == 3 then "_IMAGE_CREATED_AT"
    else "_IMAGE_DIGEST"
  }

  function FieldValue(i: Image, f: Field): string {
    if f == 0 then Reference(i)
    else if f == 1 then i.repository
    else if f == 2 then i.tag
    else if f == 3 then i.createdAt
    else i.digest
  }

  function ServiceKey(name: string, f: Field): string {
    LockKey(name) + FieldEnding(f)
  }

  function WithService(data: Data, name: string, i: Image): Data {
    data[ServiceKey(name, 0) := FieldValue(i, 0)][ServiceKey(name, 1) := FieldValue(i, 1)]
        [ServiceKey(name, 2) := FieldValue(i, 2)][ServiceKey(name, 3) := FieldValue(i, 3)]
        [ServiceKey(name, 4) := FieldValue(i, 4)]
  }

  function WithServices(data: Data, names: seq<string>, images: map<string, Image>, n: nat): Data
    requires n <= |names| && forall name :: name in names ==> name in images
  {
    if n == 0 then data
    else WithService(WithServices(data, names, images, n - 1), names[n - 1], images[names[n - 1]])
  }

  function SourceText(source: Source): string {
    if source == Ghcr then "ghcr" else "community"
  }

  /** The part of the data that records the selection; None when tag and ref are both given. */
  function SelectionData(s: Selection, timestamp: string, count: string): Option<Data> {
    if s.source == Ghcr then
      if s.tag != "" && s.gitRef != "" then None
      else
        var tag := if s.tag == "" && s.gitRef == "" then DEFAULT_TAG else s.tag;
        Some(HeaderData("ghcr", s.org, tag, s.gitRef, "", timestamp, count))
    else if s.tag != "" then None
    else
      var branch := if s.gitRef == "" then DEFAULT_BRANCH else s.gitRef;
      Some(HeaderData("community", "", "", branch, branch, timestamp, count))
  }

  function HeaderData(source: string, org: string, tag: string, gitRef: string, branch: string,
                      timestamp: string, count: string): Data {
    map["IMAGE_SOURCE" := source, "IMAGE_ORG" := org, "IMAGE_TAG" := tag, "IMAGE_REF" := gitRef,
        "IMAGE_BRANCH" := branch, "IMAGE_RESOLVED_AT" := timestamp, "IMAGE_COUNT" := count]
  }

  function Rendered(s: Selection, images: map<string, Image>, timestamp: string, count: string): Option<Data>
    requires forall name :: name in LOCK_NAMES ==> name in images
  {
    match SelectionData(s, timestamp, count)
    case None => None
    case Some(header) => Some(WithServices(header, LOCK_NAMES, images, |LOCK_NAMES|))
  }

  /** The data map of the rendered ConfigMap. */
  method Render(s: Selection, images: map<string, Image>, timestamp: string, count: string) returns (r: Option<Data>)
    requires forall name :: name in LOCK_NAMES ==> name in images
    ensures r == Rendered(s, images, timestamp, count)
  {
    var header := SelectionData(s, timestamp, count);
    if header.None? {
      return None;
    }
    var data := header.value;
    for n := 0 to |LOCK_NAMES|
      invariant data == WithServices(header.value, LOCK_NAMES, images, n)
    {
      data := RenderService(data, LOCK_NAMES[n], images[LOCK_NAMES[n]]);
    }
    return Some(data);
  }

  method RenderService(before: Data, name: string, image: Image) returns (data: Data)
    ensures data == WithService(before, name, image)
  {
    data := before;
    data := data[LockKey(name) + "_IMAGE" := Reference(image)];
    data := data[LockKey(name) + "_IMAGE_REPOSITORY" := image.repository];
    data := data[LockKey(name) + "_IMAGE_TAG" := image.tag];
    data := data[LockKey(name) + "_IMAGE_CREATED_AT" := image.createdAt];
    data := data[LockKey(name) + "_IMAGE_DIGEST" := image.digest];
  }

  // ---- reading back ----

  datatype ReadError = Unreadable | InvalidSource(text: string)

  function Get(data: Data, key: string, otherwise: string): string {
    if key in data then data[key] else otherwise
  }

  function Or(a: string, b: string): string {
    if a != "" then a else b
  }

  /** The selection pinned in the live lock; None is an unreadable ConfigMap. */
  function ReadSelection(lock: Option<Data>): Result<Selection, ReadError> {
    match lock
    case None => Err(Unreadable)
    case Some(data) =>
      var source := Get(data, "IMAGE_SOURCE", "community");
      if source == "ghcr" then
        var tag, gitRef := Get(data, "IMAGE_TAG", ""), Get(data, "IMAGE_REF", "");
        Ok(Selection(Ghcr, Or(Get(data, "IMAGE_ORG", ""), DEFAULT_ORG),
                     if tag == "" && gitRef == "" then DEFAULT_TAG else tag, gitRef))
      else if source == "community" then
        Ok(Selection(Community, "", "",
                     Or(Get(data, "IMAGE_REF", ""), Or(Get(data, "IMAGE_BRANCH", ""), DEFAULT_BRANCH))))
      else Err(InvalidSource(source))
  }

  // ---- refreshing ----

  /** One `spi reconcile --refresh-images`; `readable` and `applied` are kubectl's answers. */
  datatype Refresh = Refresh(
    options: Options, outcomes: Outcomes, timestamp: string, count: string, readable: bool, applied: bool)

  predicate Complete(r: Refresh) {
    Covers(LOCK_NAMES, r.outcomes)
  }

  predicate Selects(o: Options) {
    o.source.Some? || o.tag.Some? || o.gitRef.Some? || o.branch.Some?
  }

  /** The selection a refresh goes for, if it gets that far. */
  function Wanted(lock: Option<Data>, r: Refresh): Option<Selection> {
    var read := ReadSelection(if r.readable then lock else None);
    if read.Err? && !Selects(r.options) then None
    else
      match Resolve(r.options, if read.Ok? then Some(read.value) else None)
      case Err(_) => None
      case Ok(s) => Some(s)
  }

  predicate AllResolve(outcomes: Outcomes) {
    forall name :: name in LOCK_NAMES ==> name in outcomes && outcomes[name].Ok?
  }

  function Images(outcomes: Outcomes): map<string, Image>
    requires AllResolve(outcomes)
  {
    map name | name in LOCK_NAMES :: outcomes[name].value
  }

  lemma LockResolves(outcomes: Outcomes)
    requires Covers(LOCK_NAMES, outcomes)
    ensures ErrorLines(LOCK_NAMES, outcomes) == [] <==> AllResolve(outcomes)
    ensures AllResolve(outcomes) ==> ResolvedOf(LOCK_NAMES, outcomes) == Images(outcomes)
  {
    AllResolved(LOCK_NAMES, outcomes);
  }

  lemma AllResolved(names: seq<string>, outcomes: Outcomes)
    requires Covers(names, outcomes)
    ensures ErrorLines(names, outcomes) == [] <==> forall name :: name in names ==> outcomes[name].Ok?
    ensures ErrorLines(names, outcomes) == [] ==>
      ResolvedOf(names, outcomes) == map name | name in names :: outcomes[name].value
  {
    NoErrorMeansAllResolved(names, outcomes);
    ResolvedAreTheImages(names, outcomes);
  }

  function Refreshed(lock: Option<Data>, r: Refresh): Option<Data> {
    match Wanted(lock, r)
    case None => lock
    case Some(s) =>
      if !AllResolve(r.outcomes) || !r.applied then lock
      else
        match Rendered(s, Images(r.outcomes), r.timestamp, r.count)
        case None => lock
        case Some(data) => Some(data)
  }

  // ---- deploying ----

  /** What `spi up` goes for: its options alone, through the configuration; the live lock plays no part. */
  function UpWanted(o: Options): Option<Selection> {
    match Resolve(o, None)
    case Err(_) => None
    case Ok(s) =>
      var configured := Configured(s.source, s.org, Some(s.tag), s.gitRef);
      if ConfigCheck(configured).None? then Some(configured) else None
  }

  /** Something that may write the lock; an `up` reads nothing back, so `readable` does not matter to it. */
  datatype Event = Reconcile(r: Refresh) | Up(r: Refresh, refreshImages: bool, dryRun: bool)

  function Next(lock: Option<Data>, e: Event): Option<Data> {
    match e
    case Reconcile(r) => Refreshed(lock, r)
    case Up(r, refreshImages, dryRun) =>
      if !refreshImages || dryRun then lock
      else
        match UpWanted(r.options)
        case None => lock
        case Some(s) =>
          if !AllResolve(r.outcomes) || !r.applied then lock
          else
            match Rendered(s, Images(r.outcomes), r.timestamp, r.count)
            case None => lock
            case Some(data) => Some(data)
  }

  class LiveLock {
    var data: Option<Data>

    constructor ()
      ensures data == None
    {
      data := None;
    }

    method RefreshImages(r: Refresh) returns (ok: bool)
      requires Complete(r)
      modifies this
      ensures data == Refreshed(old(data), r)
      ensures !AllResolve(r.outcomes) ==> !ok
      ensures !ok ==> data == old(data)
    {
      var read := ReadSelection(if r.readable then data else None);
      if read.Err? && !Selects(r.options) {
        return false;
      }
      var selection := Resolve(r.options, if read.Ok? then Some(read.value) else None);
      if selection.Err? {
        return false;
      }
      var resolved := ResolveImages(LOCK_NAMES, r.outcomes);
      LockResolves(r.outcomes);
      if resolved.Err? {
        return false;
      }
      var rendered := Render(selection.value, resolved.value, r.timestamp, r.count);
      if rendered.None? || !r.applied {
        return false;
      }
      data := rendered;
      return true;
    }

    /** The image part of `up`: resolved before anything is provisioned, applied on the cluster later. */
    method DeployImages(r: Refresh, refreshImages: bool, dryRun: bool) returns (ok: bool)
      requires Complete(r)
      modifies this
      ensures data == Next(old(data), Up(r, refreshImages, dryRun))
      ensures !ok ==> data == old(data)
    {
      var selection := Resolve(r.options, None);
      if selection.Err? {
        return false;
      }
      var s := selection.value;
      var configured := Configured(s.source, s.org, Some(s.tag), s.gitRef);
      if ConfigCheck(configured).Some? {
        return false;
      }
      if !refreshImages || dryRun {
        return true;
      }
      var resolved := ResolveImages(LOCK_NAMES, r.outcomes);
      LockResolves(r.outcomes);
      if resolved.Err? {
        return false;
      }
      var rendered := Render(configured, resolved.value, r.timestamp, r.count);
      if rendered.None? || !r.applied {
        return false;
      }
      data := rendered;
      return true;
    }
  }
}
