/** What each image option does, and which combinations are refused. */
module ImageOptions {
  import opened Text
  import opened ImageSelection

  /** The selection the options are applied to; without a lock it is the default one. */
  function Base(current: Option<Selection>): Selection {
    if current.Some? then current.value else Selection(Ghcr, "yuchen-osdu", "main-snapshot", "")
  }

  // ---- refusals ----

  predicate GivenAllSpace(o: Option<string>) {
    o.Some? && AllSpace(o.value)
  }

  predicate AnyBlank(o: Options) {
    GivenAllSpace(o.org) || GivenAllSpace(o.tag) || GivenAllSpace(o.gitRef) || GivenAllSpace(o.branch)
  }

  lemma BlankOptions(o: Options)
    ensures AnyBlank(o) <==> GivenBlank(o.org) || GivenBlank(o.tag) || GivenBlank(o.gitRef) || GivenBlank(o.branch)
  {
    OneBlankOption(o.org);
    OneBlankOption(o.tag);
    OneBlankOption(o.gitRef);
    OneBlankOption(o.branch);
  }

  lemma OneBlankOption(o: Option<string>)
    ensures GivenAllSpace(o) <==> GivenBlank(o)
  {
    if o.Some? {
      BlankExactly(o.value);
    }
  }

  /**
   The options alone decide a refusal, whatever the deployment uses: a blank value, a tag or ref
   beside another selector, a branch of the GHCR source, or a GHCR option of the community one.
   */
  lemma RefusedExactly(o: Options, current: Option<Selection>)
    ensures Resolve(o, current).Err? <==>
      || AnyBlank(o)
      || (o.tag.Some? && o.gitRef.Some?)
      || (o.branch.Some? && (o.tag.Some? || o.gitRef.Some? || o.source == Some(Ghcr)))
      || (o.branch.None? && o.source == Some(Community) && (o.tag.Some? || o.gitRef.Some? || o.org.Some?))
  {
    BlankOptions(o);
  }

  /** Which refusal it is: the first that applies. */
  lemma RefusedWith(o: Options, current: Option<Selection>)
    requires Resolve(o, current).Err?
    ensures var e := Resolve(o, current).error;
      if AnyBlank(o) then e == EmptyOption
      else if o.tag.Some? && o.gitRef.Some? then e == TagAndRef
      else if o.branch.Some? then e == if o.tag.Some? || o.gitRef.Some? then BranchCombined else BranchNeedsCommunity
      else e == if o.tag.Some? then TagNeedsGhcr else if o.gitRef.Some? then RefNeedsGhcr else OrgNeedsGhcr
  {
    BlankOptions(o);
  }

  // ---- what an option gives ----

  /** Every option that is given comes out, without surrounding white space, and takes the source it belongs to. */
  lemma GivenOptionsComeOut(o: Options, current: Option<Selection>)
    requires Resolve(o, current).Ok?
    ensures var s := Resolve(o, current).value;
      && (o.tag.Some? ==> s.source == Ghcr && s.tag == Strip(o.tag.value) && s.gitRef == "")
      && (o.gitRef.Some? ==> s.source == Ghcr && s.gitRef == Strip(o.gitRef.value) && s.tag == "")
      && (o.branch.Some? ==> s == Selection(Community, "", "", Strip(o.branch.value)))
      && (o.branch.None? && o.org.Some? ==> s.source == Ghcr && s.org == Strip(o.org.value))
      && (o.source.Some? ==> s.source == o.source.value)
  {
    BlankOptions(o);
  }

  /** An option that is not given keeps what is used, or takes the default of a source that is new. */
  lemma MissingOptionsKeep(o: Options, current: Option<Selection>)
    requires current.Some? ==> WellFormed(current.value)
    requires Resolve(o, current).Ok? && o.branch.None?
    ensures var s, base := Resolve(o, current).value, Base(current);
      && (o.source.None? && o.tag.None? && o.gitRef.None? && o.org.None? ==> s.source == base.source)
      && (o.tag.None? && o.gitRef.None? && s.source == base.source ==> s.tag == base.tag && s.gitRef == base.gitRef)
      && (o.tag.None? && o.gitRef.None? && s.source != base.source ==>
            if s.source == Ghcr then s.tag == "main-snapshot" && s.gitRef == ""
            else s.tag == "" && s.gitRef == "master")
      && (o.org.None? ==>
            s.org == if s.source == Community then "" else if base.source == Ghcr then base.org else "yuchen-osdu")
  {
    BlankOptions(o);
    EmptyIsBlank();
    BaseIsDefault(current);
  }

  lemma BaseIsDefault(current: Option<Selection>)
    ensures Base(current) == if current.Some? then current.value else DEFAULT_SELECTION
    ensures current.Some? && WellFormed(current.value) && Base(current).source == Ghcr ==> Base(current).org != ""
    ensures current.None? ==> Base(current).source == Ghcr && Base(current).org != ""
  {
    EmptyIsBlank();
  }

  // ---- the configuration ----

  /** Of trimmed selections the configuration accepts exactly the well-formed ones. */
  lemma AcceptedExactly(s: Selection)
    requires Trimmed(s.org) && Trimmed(s.tag) && Trimmed(s.gitRef) && (s.source == Community ==> s.org == "")
    ensures ConfigCheck(s).None? <==> WellFormed(s)
  {
    TrimmedBlank(s.org);
    TrimmedBlank(s.tag);
    TrimmedBlank(s.gitRef);
  }

  lemma TrimmedBlank(s: string)
    requires Trimmed(s)
    ensures Blank(s) <==> s == ""
  {}

  /** Built from a source alone, or from a source and a ref, a configuration is complete. */
  lemma ConfiguredIsComplete(source: Source, org: string, gitRef: string)
    requires !Blank(org) && (gitRef == "" || !Blank(gitRef))
    ensures var s := Configured(source, if source == Ghcr then org else "", None, gitRef);
      && WellFormed(s) && s.source == source
      && (gitRef != "" ==> s.gitRef == gitRef)
      && (gitRef == "" ==> if source == Ghcr then s.tag == "main-snapshot" else s.gitRef == "master")
  {
    DefaultsAreNotBlank();
  }
}
