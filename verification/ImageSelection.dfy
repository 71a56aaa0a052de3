/** Which images a deployment uses: a source, an organization and a tag or a Git ref. */
module ImageSelection {
  import opened Text

  const DEFAULT_BRANCH := "master"
  const DEFAULT_ORG := "yuchen-osdu"
  const DEFAULT_TAG := "main-snapshot"

  datatype Source = Community | Ghcr

  datatype Selection = Selection(source: Source, org: string, tag: string, gitRef: string)

  /** The command-line options; an option not given is None. */
  datatype Options = Options(
    source: Option<Source>, org: Option<string>, tag: Option<string>, gitRef: Option<string>, branch: Option<string>)

  const NO_OPTIONS := Options(None, None, None, None, None)

  datatype Error =
    | EmptyOption | TagAndRef | BranchCombined | BranchNeedsCommunity
    | TagNeedsGhcr | RefNeedsGhcr | OrgNeedsGhcr

  predicate GivenBlank(o: Option<string>) {
    o.Some? && Blank(o.value)
  }

  function OptionError(o: Options): Option<Error> {
    if GivenBlank(o.org) || GivenBlank(o.tag) || GivenBlank(o.gitRef) || GivenBlank(o.branch) then Some(EmptyOption)
    else if o.tag.Some? && o.gitRef.Some? then Some(TagAndRef)
    else if o.branch.Some? && (o.tag.Some? || o.gitRef.Some?) then Some(BranchCombined)
    else if o.branch.Some? && o.source == Some(Ghcr) then Some(BranchNeedsCommunity)
    else None
  }

  const DEFAULT_SELECTION := Selection(Ghcr, DEFAULT_ORG, DEFAULT_TAG, "")

  /** The explicit options against a deployment's current selection. */
  function Resolve(o: Options, current: Option<Selection>): Result<Selection, Error> {
    var base := if current.Some? then current.value else DEFAULT_SELECTION;
    var error := OptionError(o);
    if error.Some? then Err(error.value)
    else if o.branch.Some? then Ok(Selection(Community, "", "", Strip(o.branch.value)))
    else
      var source := ChosenSource(o, base);
      var changed := source != base.source && (o.source.Some? || ImpliesGhcr(o));
      if o.tag.Some? && source != Ghcr then Err(TagNeedsGhcr)
      else if o.gitRef.Some? && source != Ghcr then Err(RefNeedsGhcr)
      else if o.org.Some? && source != Ghcr then Err(OrgNeedsGhcr)
      else
        var (tag, gitRef) := Selector(o, base, source, changed);
        Ok(Selection(source, Organization(o, base, source, changed), tag, gitRef))
  }

  predicate ImpliesGhcr(o: Options) {
    o.source.None? && (o.tag.Some? || o.gitRef.Some? || o.org.Some?)
  }

  function ChosenSource(o: Options, base: Selection): Source {
    if o.source.Some? then o.source.value else if ImpliesGhcr(o) then Ghcr else base.source
  }

  function Selector(o: Options, base: Selection, source: Source, changed: bool): (string, string) {
    if o.tag.Some? then (Strip(o.tag.value), "")
    else if o.gitRef.Some? then ("", Strip(o.gitRef.value))
    else if !changed then (base.tag, base.gitRef)
    else if source == Ghcr then (DEFAULT_TAG, "")
    else ("", DEFAULT_BRANCH)
  }

  function Organization(o: Options, base: Selection, source: Source, changed: bool): string {
    if source != Ghcr then ""
    else if o.org.Some? then Strip(o.org.value)
    else if changed || base.source != Ghcr || base.org == "" then DEFAULT_ORG
    else base.org
  }

  // ---- what the configuration accepts ----

  datatype ConfigError = OrgMissing | NotExactlyOneSelector | TagUnsupported | BranchMissing

  /** The image part of the configuration validator. */
  function ConfigCheck(s: Selection): Option<ConfigError> {
    if s.source == Ghcr then
      if Blank(s.org) then Some(OrgMissing)
      else if Blank(s.tag) == Blank(s.gitRef) then Some(NotExactlyOneSelector)
      else None
    else if !Blank(s.tag) then Some(TagUnsupported)
    else if Blank(s.gitRef) then Some(BranchMissing)
    else None
  }

  /** The image fields a configuration is built with. */
  function Configured(source: Source, org: string, tag: Option<string>, gitRef: string): Selection {
    if source == Ghcr then
      Selection(Ghcr, org, if tag.Some? then tag.value else if gitRef == "" then DEFAULT_TAG else "", gitRef)
    else
      Selection(Community, org, "", if gitRef != "" then gitRef else DEFAULT_BRANCH)
  }

  /** A selection in the shape every step agrees on. */
  predicate WellFormed(s: Selection) {
    if s.source == Ghcr then
      !Blank(s.org) && ((s.tag == "" && !Blank(s.gitRef)) || (s.gitRef == "" && !Blank(s.tag)))
    else
      s.org == "" && s.tag == "" && !Blank(s.gitRef)
  }

  lemma DefaultsAreNotBlank()
    ensures !Blank(DEFAULT_ORG) && !Blank(DEFAULT_TAG) && !Blank(DEFAULT_BRANCH)
    ensures Blank("")
  {
    TrimmedIsNotBlank(DEFAULT_ORG);
    TrimmedIsNotBlank(DEFAULT_TAG);
    TrimmedIsNotBlank(DEFAULT_BRANCH);
    EmptyIsBlank();
  }

  lemma EmptyIsBlank()
    ensures Blank("")
  {
    assert Trimmed("");
  }

  lemma TrimmedIsNotBlank(s: string)
    requires Trimmed(s) && s != ""
    ensures !Blank(s)
  {}

  lemma StripIsIdempotent(s: string)
    ensures Strip(Strip(s)) == Strip(s)
    ensures Blank(Strip(s)) <==> Blank(s)
  {
  }

  /** Every resolved selection is well-formed, and the configuration takes it unchanged. */
  lemma ResolvedIsWellFormed(o: Options, current: Option<Selection>)
    requires current.Some? ==> WellFormed(current.value)
    requires Resolve(o, current).Ok?
    ensures var s := Resolve(o, current).value;
      && WellFormed(s)
      && Configured(s.source, s.org, Some(s.tag), s.gitRef) == s
      && ConfigCheck(s) == None
  {
    DefaultsAreNotBlank();
    ResolvedShape(o, current);
    AcceptedUnchanged(Resolve(o, current).value);
  }

  lemma AcceptedUnchanged(s: Selection)
    requires WellFormed(s)
    ensures Configured(s.source, s.org, Some(s.tag), s.gitRef) == s
    ensures ConfigCheck(s) == None
  {
    EmptyIsBlank();
    assert s.gitRef == "" ==> Blank(s.gitRef);
  }

  /** The change the resolver detects is a change of source, nothing else. */
  lemma SourceChange(o: Options, base: Selection)
    ensures var source := ChosenSource(o, base);
      source != base.source ==> o.source.Some? || ImpliesGhcr(o)
  {
  }

  ghost predicate OneSelector(source: Source, tag: string, gitRef: string) {
    if source == Ghcr then (tag == "" && !Blank(gitRef)) || (gitRef == "" && !Blank(tag))
    else tag == "" && !Blank(gitRef)
  }

  lemma SelectorShape(o: Options, base: Selection, source: Source, changed: bool)
    requires OneSelector(base.source, base.tag, base.gitRef)
    requires changed <==> source != base.source
    requires !GivenBlank(o.tag) && !GivenBlank(o.gitRef)
    requires o.tag.Some? || o.gitRef.Some? ==> source == Ghcr
    ensures var (tag, gitRef) := Selector(o, base, source, changed); OneSelector(source, tag, gitRef)
  {
    if o.tag.Some? {
      StripIsIdempotent(o.tag.value);
    } else if o.gitRef.Some? {
      StripIsIdempotent(o.gitRef.value);
    } else if changed {
      DefaultsAreNotBlank();
    }
  }

  lemma OrganizationShape(o: Options, base: Selection, source: Source, changed: bool)
    requires base.source == Ghcr ==> !Blank(base.org)
    requires !GivenBlank(o.org)
    ensures var org := Organization(o, base, source, changed); if source == Ghcr then !Blank(org) else org == ""
  {
    DefaultsAreNotBlank();
    if o.org.Some? {
      StripIsIdempotent(o.org.value);
    }
  }

  lemma ResolvedShape(o: Options, current: Option<Selection>)
    requires current.Some? ==> WellFormed(current.value)
    requires Resolve(o, current).Ok?
    ensures WellFormed(Resolve(o, current).value)
  {
    var base := if current.Some? then current.value else DEFAULT_SELECTION;
    assert WellFormed(base) by { DefaultsAreNotBlank(); }
    if o.branch.Some? {
      StripIsIdempotent(o.branch.value);
    } else {
      var source := ChosenSource(o, base);
      var changed := source != base.source && (o.source.Some? || ImpliesGhcr(o));
      SourceChange(o, base);
      SelectorShape(o, base, source, changed);
      OrganizationShape(o, base, source, changed);
    }
  }

  /** Without options a well-formed selection resolves to itself. */
  lemma NoOptionsIsIdentity(s: Selection)
    requires WellFormed(s)
    ensures Resolve(NO_OPTIONS, Some(s)) == Ok(s)
  {
    EmptyIsBlank();
  }

  /** Giving the same options again changes nothing. */
  lemma ResolveIsIdempotent(o: Options, current: Option<Selection>)
    requires current.Some? ==> WellFormed(current.value)
    requires Resolve(o, current).Ok?
    ensures Resolve(o, Some(Resolve(o, current).value)) == Resolve(o, current)
  {
    ResolvedShape(o, current);
    if o.branch.None? {
      var base := if current.Some? then current.value else DEFAULT_SELECTION;
      var again := Resolve(o, current).value;
      var source := ChosenSource(o, base);
      SourceChange(o, base);
      assert again.source == source && ChosenSource(o, again) == source;
      SettledSelector(o, base, again, source);
    }
  }

  /** Against its own result the resolver picks the same selector and organization. */
  lemma SettledSelector(o: Options, base: Selection, again: Selection, source: Source)
    requires again.source == source
    requires (again.tag, again.gitRef) == Selector(o, base, source, source != base.source)
    requires again.org == Organization(o, base, source, source != base.source)
    requires source == Ghcr ==> again.org != ""
    ensures Selector(o, again, source, false) == (again.tag, again.gitRef)
    ensures Organization(o, again, source, false) == again.org
  {
  }
}
