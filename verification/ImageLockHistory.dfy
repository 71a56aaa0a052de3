/** The choice of images over any sequence of `reconcile` and `up`. */
module ImageLockHistory {
  import opened Text
  import opened ImageSelection
  import opened ImageLock
  import opened ImageLockProperties
  import opened ImageOptions

  function History(lock: Option<Data>, events: seq<Event>): Option<Data> {
    if events == [] then lock else Next(History(lock, events[..|events| - 1]), events[|events| - 1])
  }

  /** The choice a sound lock records. */
  function Choice(lock: Option<Data>): Option<Selection> {
    match ReadSelection(lock)
    case Err(_) => None
    case Ok(s) => Some(s)
  }

  /** The event gets as far as writing the lock, should its options allow it. */
  predicate Lands(e: Event) {
    AllResolve(e.r.outcomes) && e.r.applied && (e.Up? ==> e.refreshImages && !e.dryRun)
  }

  /** What an event makes of a choice: only `reconcile` builds on the one before. */
  function Chosen(choice: Option<Selection>, e: Event): Option<Selection> {
    if !Lands(e) then choice
    else
      var current := if e.Reconcile? && e.r.readable then choice else None;
      if e.Reconcile? && current.None? && !Selects(e.r.options) then choice
      else
        match Resolve(e.r.options, current)
        case Err(_) => choice
        case Ok(s) => Some(s)
  }

  function Choices(choice: Option<Selection>, events: seq<Event>): Option<Selection> {
    if events == [] then choice else Chosen(Choices(choice, events[..|events| - 1]), events[|events| - 1])
  }

  lemma UpWantsWellFormed(o: Options)
    ensures UpWanted(o) == match Resolve(o, None) case Err(_) => None case Ok(s) => Some(s)
    ensures UpWanted(o).Some? ==> WellFormed(UpWanted(o).value)
  {
    if Resolve(o, None).Ok? {
      ResolvedIsWellFormed(o, None);
    }
  }

  lemma UpReadsAsChosen(lock: Option<Data>, e: Event)
    requires Sound(lock) && e.Up?
    ensures Sound(Next(lock, e)) && Choice(Next(lock, e)) == Chosen(Choice(lock), e)
  {
    UpWantsWellFormed(e.r.options);
    if Lands(e) && UpWanted(e.r.options).Some? {
      ReadAfterRender(UpWanted(e.r.options).value, Images(e.r.outcomes), e.r.timestamp, e.r.count);
    }
  }

  lemma ReconcileReadsAsChosen(lock: Option<Data>, e: Event)
    requires Sound(lock) && e.Reconcile?
    ensures Sound(Next(lock, e)) && Choice(Next(lock, e)) == Chosen(Choice(lock), e)
  {
    RefreshReadsAsWanted(lock, e.r);
  }

  /**
   Over any history of both commands, with any options and failures, the lock reads as the
   choice that the options alone determine, and stays well-formed.
   */
  lemma {:induction false} HistoryReadsAsChosen(lock: Option<Data>, events: seq<Event>)
    requires Sound(lock)
    ensures Sound(History(lock, events)) && Choice(History(lock, events)) == Choices(Choice(lock), events)
  {
    if events != [] {
      var before, last := History(lock, events[..|events| - 1]), events[|events| - 1];
      HistoryReadsAsChosen(lock, events[..|events| - 1]);
      match last
      case Up(_, _, _) => UpReadsAsChosen(before, last);
      case Reconcile(_) => ReconcileReadsAsChosen(before, last);
    }
  }

  /** A `reconcile` without options keeps every choice, whether it succeeds or fails. */
  lemma ReconcileKeepsChoice(s: Selection, e: Event)
    requires WellFormed(s) && e.Reconcile? && e.r.options == NO_OPTIONS
    ensures Chosen(Some(s), e) == Some(s)
  {
    NoOptionsIsIdentity(s);
  }

  /**
   An `up` without options goes back to the default: a choice survives it exactly when it was
   the default or nothing was written.
   */
  lemma UpKeepsChoiceExactly(s: Selection, e: Event)
    requires WellFormed(s) && e.Up? && e.r.options == NO_OPTIONS
    ensures Chosen(Some(s), e) == Some(s) <==> !Lands(e) || s == DEFAULT_SELECTION
  {
    DefaultsAreNotBlank();
    NoOptionsIsIdentity(DEFAULT_SELECTION);
    assert Resolve(NO_OPTIONS, None) == Resolve(NO_OPTIONS, Some(DEFAULT_SELECTION));
  }

  /** Events that leave the choice `s` alone. */
  ghost predicate Spares(s: Selection, e: Event) {
    e.r.options == NO_OPTIONS && (e.Reconcile? || !Lands(e) || s == DEFAULT_SELECTION)
  }

  /**
   The operator's choice outlives any number of option-free runs of `reconcile`, whether they
   succeed, fail to resolve, fail to read or fail to apply, and of `up` when it does not write
   the lock or the choice is the default.
   */
  lemma {:induction false} ChoiceIsPreserved(lock: Option<Data>, events: seq<Event>, s: Selection)
    requires Sound(lock) && Choice(lock) == Some(s)
    requires forall i :: 0 <= i < |events| ==> Spares(s, events[i])
    ensures Choice(History(lock, events)) == Some(s)
  {
    HistoryReadsAsChosen(lock, events);
    ChoicesStay(s, events);
  }

  lemma {:induction false} ChoicesStay(s: Selection, events: seq<Event>)
    requires WellFormed(s) && forall i :: 0 <= i < |events| ==> Spares(s, events[i])
    ensures Choices(Some(s), events) == Some(s)
  {
    if events != [] {
      var last := events[|events| - 1];
      ChoicesStay(s, events[..|events| - 1]);
      if last.Up? {
        UpKeepsChoiceExactly(s, last);
      } else {
        ReconcileKeepsChoice(s, last);
      }
    }
  }

  /** Explicit options, once they land, hold through later events that spare them. */
  lemma ExplicitChoiceSticks(lock: Option<Data>, e: Event, later: seq<Event>)
    requires Sound(lock) && Lands(e) && (e.Up? || Selects(e.r.options))
    requires Resolve(e.r.options, if e.Reconcile? && e.r.readable then Choice(lock) else None).Ok?
    requires var s := Resolve(e.r.options, if e.Reconcile? && e.r.readable then Choice(lock) else None).value;
      forall i :: 0 <= i < |later| ==> Spares(s, later[i])
    ensures Choice(History(Next(lock, e), later))
         == Some(Resolve(e.r.options, if e.Reconcile? && e.r.readable then Choice(lock) else None).value)
  {
    if e.Up? {
      UpReadsAsChosen(lock, e);
    } else {
      ReconcileReadsAsChosen(lock, e);
    }
    ChoiceIsPreserved(Next(lock, e), later, Choice(Next(lock, e)).value);
  }

  /**
   An explicit tag that lands, by either command, is the lock's tag through all later runs of
   `reconcile` without options.
   */
  lemma GivenTagSticks(lock: Option<Data>, e: Event, tag: string, later: seq<Event>)
    requires Sound(lock) && Lands(e) && !AllSpace(tag)
    requires e.r.options == Options(None, None, Some(tag), None, None)
    requires forall i :: 0 <= i < |later| ==>
      later[i].r.options == NO_OPTIONS && (later[i].Reconcile? || !Lands(later[i]))
    ensures var chosen := Choice(History(Next(lock, e), later));
      chosen.Some? && chosen.value.source == Ghcr && chosen.value.tag == Strip(tag) && chosen.value.gitRef == ""
  {
    TagIsChosen(Choice(lock), e, tag);
    if e.Up? {
      UpReadsAsChosen(lock, e);
    } else {
      ReconcileReadsAsChosen(lock, e);
    }
    ChoiceIsPreserved(Next(lock, e), later, Choice(Next(lock, e)).value);
  }

  lemma TagIsChosen(choice: Option<Selection>, e: Event, tag: string)
    requires Lands(e) && !AllSpace(tag) && e.r.options == Options(None, None, Some(tag), None, None)
    ensures var chosen := Chosen(choice, e);
      chosen.Some? && chosen.value.source == Ghcr && chosen.value.tag == Strip(tag) && chosen.value.gitRef == ""
  {
    var current := if e.Reconcile? && e.r.readable then choice else None;
    RefusedExactly(e.r.options, current);
    GivenOptionsComeOut(e.r.options, current);
  }

  /**
   A `reconcile` that cannot read the lock goes on exactly when the options name a source, a tag,
   a ref or a branch: an organization alone is not enough.
   */
  lemma UnreadLockExactly(lock: Option<Data>, r: Refresh)
    requires !r.readable && Resolve(r.options, None).Ok?
    ensures Wanted(lock, r).Some? <==>
      r.options.source.Some? || r.options.tag.Some? || r.options.gitRef.Some? || r.options.branch.Some?
  {
  }
}
