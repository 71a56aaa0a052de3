/** What stands in the lock, key by key, and how locks of other origin are read. */
module ImageLockContents {
  import opened Text
  import opened ImageSelection
  import opened ImageLock
  import opened ImageLockProperties

  ghost predicate Has(data: Data, key: string, value: string) {
    key in data && data[key] == value
  }

  // ---- the recorded selection ----

  lemma HeaderHolds(source: string, org: string, tag: string, gitRef: string, branch: string,
                    timestamp: string, count: string)
    ensures var data := HeaderData(source, org, tag, gitRef, branch, timestamp, count);
      && Has(data, HeaderKey(0), source) && Has(data, HeaderKey(1), org) && Has(data, HeaderKey(2), tag)
      && Has(data, HeaderKey(3), gitRef) && Has(data, HeaderKey(4), branch)
      && Has(data, HeaderKey(5), timestamp) && Has(data, HeaderKey(6), count)
  {
    assert "IMAGE_SOURCE"[6] == 'S' && "IMAGE_ORG"[6] == 'O' && "IMAGE_TAG"[6] == 'T' && "IMAGE_BRANCH"[6] == 'B';
    assert "IMAGE_COUNT"[6] == 'C' && "IMAGE_REF"[6] == 'R' && "IMAGE_RESOLVED_AT"[6] == 'R';
    assert "IMAGE_REF"[8] != "IMAGE_RESOLVED_AT"[8];
  }

  lemma HeaderIsKept(header: Data, images: map<string, Image>, h: Header, value: string)
    requires Has(header, HeaderKey(h), value) && forall name :: name in LOCK_NAMES ==> name in images
    ensures Has(WithServices(header, LOCK_NAMES, images, |LOCK_NAMES|), HeaderKey(h), value)
  {
    ServicesKeepHeader(header, LOCK_NAMES, images, |LOCK_NAMES|, h);
  }

  /** A rendered lock records source, organization, tag, ref and branch of its selection, time and count. */
  lemma RenderedHeader(s: Selection, images: map<string, Image>, timestamp: string, count: string)
    requires WellFormed(s) && forall name :: name in LOCK_NAMES ==> name in images
    ensures Rendered(s, images, timestamp, count).Some?
    ensures var data := Rendered(s, images, timestamp, count).value;
      && Has(data, HeaderKey(0), if s.source == Ghcr then "ghcr" else "community")
      && Has(data, HeaderKey(1), s.org) && Has(data, HeaderKey(2), s.tag) && Has(data, HeaderKey(3), s.gitRef)
      && Has(data, HeaderKey(4), if s.source == Ghcr then "" else s.gitRef)
      && Has(data, HeaderKey(5), timestamp) && Has(data, HeaderKey(6), count)
  {
    var source, branch := SourceText(s.source), if s.source == Ghcr then "" else s.gitRef;
    var header := HeaderData(source, s.org, s.tag, s.gitRef, branch, timestamp, count);
    WellFormedHeader(s, timestamp, count);
    HeaderHolds(source, s.org, s.tag, s.gitRef, branch, timestamp, count);
    HeaderIsKept(header, images, 0, source);
    HeaderIsKept(header, images, 1, s.org);
    HeaderIsKept(header, images, 2, s.tag);
    HeaderIsKept(header, images, 3, s.gitRef);
    HeaderIsKept(header, images, 4, branch);
    HeaderIsKept(header, images, 5, timestamp);
    HeaderIsKept(header, images, 6, count);
  }

  /** A selection with both a tag and a ref, or a community one with a tag, is not rendered; no other is refused. */
  lemma RenderedExactly(s: Selection, images: map<string, Image>, timestamp: string, count: string)
    requires forall name :: name in LOCK_NAMES ==> name in images
    ensures Rendered(s, images, timestamp, count).None? <==> s.tag != "" && (s.source == Community || s.gitRef != "")
  {}

  // ---- the services ----

  /** The key of a service: its name in upper case, with underscores for hyphens. */
  lemma {:induction false} LockKeyLooks(name: string, i: nat)
    requires ServiceName(name) && i < |name|
    ensures if name[i] == '-' then LockKey(name)[i] == '_'
      else 'A' <= LockKey(name)[i] <= 'Z' && LowerChar(LockKey(name)[i]) == name[i]
  {
    if i > 0 {
      LockKeyLooks(name[1..], i - 1);
    }
  }

  /** Every service of the lock is pinned by digest, or by tag when there is none, with the details beside it. */
  lemma RenderedService(s: Selection, images: map<string, Image>, timestamp: string, count: string, k: nat)
    requires WellFormed(s) && forall name :: name in LOCK_NAMES ==> name in images
    requires k < |LOCK_NAMES|
    ensures Rendered(s, images, timestamp, count).Some?
    ensures var data := Rendered(s, images, timestamp, count).value;
      var key, i := LockKey(LOCK_NAMES[k]), images[LOCK_NAMES[k]];
      && Has(data, key + "_IMAGE",
             i.repository + (if i.digest != "" then "@" + i.digest else ":" + i.tag))
      && Has(data, key + "_IMAGE_REPOSITORY", i.repository)
      && Has(data, key + "_IMAGE_TAG", i.tag)
      && Has(data, key + "_IMAGE_CREATED_AT", i.createdAt)
      && Has(data, key + "_IMAGE_DIGEST", i.digest)
  {
    RenderedImagesAreTheirOwn(s, images, timestamp, count, k, 0);
    RenderedImagesAreTheirOwn(s, images, timestamp, count, k, 1);
    RenderedImagesAreTheirOwn(s, images, timestamp, count, k, 2);
    RenderedImagesAreTheirOwn(s, images, timestamp, count, k, 3);
    RenderedImagesAreTheirOwn(s, images, timestamp, count, k, 4);
    ReferenceText(images[LOCK_NAMES[k]]);
  }

  lemma ReferenceText(i: Image)
    ensures Reference(i) == i.repository + (if i.digest != "" then "@" + i.digest else ":" + i.tag)
  {
    if i.digest != "" {
      assert i.repository + "@" + i.digest == i.repository + ("@" + i.digest);
    } else {
      assert i.repository + ":" + i.tag == i.repository + (":" + i.tag);
    }
  }

  // ---- failures ----

  /** A line names its service first, once, and ends with the whole message. */
  lemma ErrorLineNamesService(name: string, message: string)
    ensures name + ":" <= ErrorLine(name, message) && EndsWith(ErrorLine(name, message), message)
    ensures |ErrorLine(name, message)| == |message| + if name + ":" <= message then 0 else |name| + 2
  {
    ConcatEndsWith(name + ": ", message);
    assert name + ": " == name + ":" + " ";
  }

  /** The error has no line but those of failed services. */
  lemma {:induction false} OnlyFailuresAreNamed(names: seq<string>, outcomes: Outcomes, line: string)
    returns (i: nat)
    requires Covers(names, outcomes) && line in ErrorLines(names, outcomes)
    ensures i < |names| && outcomes[names[i]].Err? && line == ErrorLine(names[i], outcomes[names[i]].error)
  {
    i := |names| - 1;
    if line in ErrorLines(names[..i], outcomes) {
      i := OnlyFailuresAreNamed(names[..i], outcomes, line);
    }
  }

  // ---- locks of other origin ----

  /** A lock without a source is a community one, by its ref, its branch, or the default branch. */
  lemma OldLockReads(data: Data)
    requires "IMAGE_SOURCE" !in data || data["IMAGE_SOURCE"] == "community"
    ensures var gitRef, branch := Get(data, "IMAGE_REF", ""), Get(data, "IMAGE_BRANCH", "");
      && (gitRef != "" ==> ReadSelection(Some(data)) == Ok(Selection(Community, "", "", gitRef)))
      && (gitRef == "" && branch != "" ==> ReadSelection(Some(data)) == Ok(Selection(Community, "", "", branch)))
      && (gitRef == "" && branch == "" ==> ReadSelection(Some(data)) == Ok(Selection(Community, "", "", "master")))
  {
    assert "community"[0] != "ghcr"[0];
  }

  /** A GHCR lock that lacks something is completed by the defaults; another source is refused. */
  lemma SparseLockReads(data: Data)
    requires "IMAGE_SOURCE" in data
    ensures data["IMAGE_SOURCE"] == "ghcr" ==>
      ReadSelection(Some(data)).Ok?
      && var s := ReadSelection(Some(data)).value;
         && s.source == Ghcr && s.gitRef == Get(data, "IMAGE_REF", "")
         && (Get(data, "IMAGE_ORG", "") == "" ==> s.org == "yuchen-osdu")
         && (Get(data, "IMAGE_TAG", "") == "" && s.gitRef == "" ==> s.tag == "main-snapshot")
         && (Get(data, "IMAGE_ORG", "") != "" ==> s.org == data["IMAGE_ORG"])
         && (Get(data, "IMAGE_TAG", "") != "" ==> s.tag == data["IMAGE_TAG"])
    ensures ReadSelection(Some(data)).Err? <==> data["IMAGE_SOURCE"] != "ghcr" && data["IMAGE_SOURCE"] != "community"
    ensures ReadSelection(None).Err?
  {
    assert "community"[0] != "ghcr"[0];
  }
}
