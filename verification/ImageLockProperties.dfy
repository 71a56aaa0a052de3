/** The lock gives back the selection it was rendered for, over any number of refreshes. */
module ImageLockProperties {
  import opened Text
  import opened ImageSelection
  import opened ImageLock

  // ---- service keys against selection keys ----

  type Header = h: nat | h < 7

  function HeaderKey(h: Header): string {
    if h == 0 then "IMAGE_SOURCE"
    else if h == 1 then "IMAGE_ORG"
    else if h == 2 then "IMAGE_TAG"
    else if h == 3 then "IMAGE_REF"
    else if h == 4 then "IMAGE_BRANCH"
    else if h == 5 then "IMAGE_RESOLVED_AT"
    else "IMAGE_COUNT"
  }

  lemma HeaderIsNoServiceKey(h: Header, name: string, f: Field)
    ensures HeaderKey(h) != ServiceKey(name, f)
  {
    if h == 5 {
      TimeIsNoServiceKey(name, f);
    } else if f == 0 {
      HeaderIsNoImageKey(h, name);
    } else if f == 2 {
      HeaderIsNoTagKey(h, name);
    } else {
      EndingIsLonger(h, f);
    }
  }

  lemma EndingIsLonger(h: Header, f: Field)
    requires h != 5 && f != 0 && f != 2
    ensures |HeaderKey(h)| < |FieldEnding(f)|
  {}

  lemma HeaderIsNoImageKey(h: Header, name: string)
    requires h != 5
    ensures HeaderKey(h) != ServiceKey(name, 0)
  {
    ConcatEndsWith(LockKey(name), FieldEnding(0));
    NotSuffix(HeaderKey(h), FieldEnding(0), if h == 0 then 2 else 1);
  }

  lemma HeaderIsNoTagKey(h: Header, name: string)
    requires h != 5
    ensures HeaderKey(h) != ServiceKey(name, 2)
  {
    ConcatEndsWith(LockKey(name), FieldEnding(2));
    NotSuffix(HeaderKey(h), FieldEnding(2), if h == 0 || h == 4 || h == 6 then 1 else 10);
  }

  lemma TimeIsNoServiceKey(name: string, f: Field)
    ensures HeaderKey(5) != ServiceKey(name, f)
  {
    ConcatEndsWith(LockKey(name), FieldEnding(f));
    NotSuffix(HeaderKey(5), FieldEnding(f), if f == 3 then 6 else if f == 4 then 2 else 1);
  }

  lemma FieldEndingsDiffer(f: Field, g: Field)
    requires f != g
    ensures !EndsWith(FieldEnding(f), FieldEnding(g))
  {
    var a, b := FieldEnding(f), FieldEnding(g);
    NotSuffix(a, b,
      if |a| < |b| then |b|
      else if a[|a| - 1] != b[|b| - 1] then 1
      else if a[|a| - 2] != b[|b| - 2] then 2
      else 3);
  }

  /** Service names are lower-case letters and hyphens. */
  ghost predicate ServiceName(s: string) {
    forall i :: 0 <= i < |s| ==> 'a' <= s[i] <= 'z' || s[i] == '-'
  }

  lemma {:induction false} LockKeyIsInjective(a: string, b: string)
    requires LockKey(a) == LockKey(b) && ServiceName(a) && ServiceName(b)
    ensures a == b
  {
    if a != "" {
      assert LockKey(a) == [UpperChar(a[0])] + LockKey(a[1..]);
      assert LockKey(b) == [UpperChar(b[0])] + LockKey(b[1..]);
      assert LockKey(a)[0] == LockKey(b)[0];
      assert LockKey(a)[1..] == LockKey(b)[1..];
      LockKeyIsInjective(a[1..], b[1..]);
      assert a == [a[0]] + a[1..] && b == [b[0]] + b[1..];
    }
  }

  /** A service's five keys are its own: no other service or field writes them. */
  lemma ServiceKeyIsInjective(a: string, f: Field, b: string, g: Field)
    requires ServiceKey(a, f) == ServiceKey(b, g) && ServiceName(a) && ServiceName(b)
    ensures a == b && f == g
  {
    if f != g {
      FieldEndingsDiffer(f, g);
      FieldEndingsDiffer(g, f);
      DifferentEndings(LockKey(a), FieldEnding(f), LockKey(b), FieldEnding(g));
    }
    SameEnding(LockKey(a), LockKey(b), FieldEnding(f));
    LockKeyIsInjective(a, b);
  }

  /** Writing one service changes no key but its own five. */
  lemma OtherKeyKept(data: Data, name: string, image: Image, key: string)
    requires key != ServiceKey(name, 0) && key != ServiceKey(name, 1) && key != ServiceKey(name, 2)
    requires key != ServiceKey(name, 3) && key != ServiceKey(name, 4)
    ensures var after := WithService(data, name, image);
      (key in after <==> key in data) && (key in data ==> after[key] == data[key])
  {
  }

  lemma {:induction false} ServicesKeepHeader(data: Data, names: seq<string>, images: map<string, Image>,
                                              n: nat, h: Header)
    requires n <= |names| && forall name :: name in names ==> name in images
    ensures var after := WithServices(data, names, images, n);
      && (HeaderKey(h) in after <==> HeaderKey(h) in data)
      && (HeaderKey(h) in data ==> after[HeaderKey(h)] == data[HeaderKey(h)])
  {
    if n > 0 {
      var name, key := names[n - 1], HeaderKey(h);
      ServicesKeepHeader(data, names, images, n - 1, h);
      HeaderIsNoServiceKey(h, name, 0);
      HeaderIsNoServiceKey(h, name, 1);
      HeaderIsNoServiceKey(h, name, 2);
      HeaderIsNoServiceKey(h, name, 3);
      HeaderIsNoServiceKey(h, name, 4);
      OtherKeyKept(WithServices(data, names, images, n - 1), name, images[name], key);
    }
  }

  ghost predicate ServiceNames(names: seq<string>) {
    && (forall i, j :: 0 <= i < j < |names| ==> names[i] != names[j])
    && (forall i :: 0 <= i < |names| ==> ServiceName(names[i]))
  }

  lemma KeysDiffer(a: string, f: Field, b: string, g: Field)
    requires ServiceName(a) && ServiceName(b) && (a != b || f != g)
    ensures ServiceKey(a, f) != ServiceKey(b, g)
  {
    if ServiceKey(a, f) == ServiceKey(b, g) {
      ServiceKeyIsInjective(a, f, b, g);
    }
  }

  /** Each service's keys hold that service's own image. */
  lemma {:induction false} ServicesAreTheirOwn(data: Data, names: seq<string>, images: map<string, Image>,
                                               n: nat, k: nat, f: Field)
    requires ServiceNames(names) && k < n <= |names| && forall name :: name in names ==> name in images
    ensures var after := WithServices(data, names, images, n);
      ServiceKey(names[k], f) in after && after[ServiceKey(names[k], f)] == FieldValue(images[names[k]], f)
  {
    var before, name := WithServices(data, names, images, n - 1), names[n - 1];
    if k == n - 1 {
      OwnFields(before, name, images[name], f);
    } else {
      ServicesAreTheirOwn(data, names, images, n - 1, k, f);
      OtherServiceKept(before, name, images[name], names[k], f);
    }
  }

  lemma OtherServiceKept(data: Data, name: string, image: Image, other: string, f: Field)
    requires ServiceName(name) && ServiceName(other) && name != other
    ensures var after, key := WithService(data, name, image), ServiceKey(other, f);
      (key in after <==> key in data) && (key in data ==> after[key] == data[key])
  {
    KeysDiffer(other, f, name, 0);
    KeysDiffer(other, f, name, 1);
    KeysDiffer(other, f, name, 2);
    KeysDiffer(other, f, name, 3);
    KeysDiffer(other, f, name, 4);
    OtherKeyKept(data, name, image, ServiceKey(other, f));
  }

  lemma OwnFields(data: Data, name: string, image: Image, f: Field)
    requires ServiceName(name)
    ensures ServiceKey(name, f) in WithService(data, name, image)
    ensures WithService(data, name, image)[ServiceKey(name, f)] == FieldValue(image, f)
  {
    if f != 1 { KeysDiffer(name, f, name, 1); }
    if f != 2 { KeysDiffer(name, f, name, 2); }
    if f != 3 { KeysDiffer(name, f, name, 3); }
    if f != 4 { KeysDiffer(name, f, name, 4); }
  }

  // ---- read after render ----

  /** The data carries the four values a selection is read from. */
  ghost predicate Records(data: Data, s: Selection) {
    && Get(data, HeaderKey(0), "community") == SourceText(s.source)
    && Get(data, HeaderKey(1), "") == s.org
    && Get(data, HeaderKey(2), "") == s.tag
    && Get(data, HeaderKey(3), "") == s.gitRef
  }

  lemma HeaderRecords(s: Selection, branch: string, timestamp: string, count: string)
    ensures Records(HeaderData(SourceText(s.source), s.org, s.tag, s.gitRef, branch, timestamp, count), s)
  {
    assert "IMAGE_SOURCE"[6] == 'S' && "IMAGE_ORG"[6] == 'O' && "IMAGE_TAG"[6] == 'T' && "IMAGE_BRANCH"[6] == 'B';
    assert "IMAGE_COUNT"[6] == 'C' && "IMAGE_REF"[6] == 'R' && "IMAGE_RESOLVED_AT"[6] == 'R';
    assert "IMAGE_REF"[8] != "IMAGE_RESOLVED_AT"[8];
  }

  lemma ServicesKeepRecords(data: Data, images: map<string, Image>, s: Selection)
    requires Records(data, s) && forall name :: name in LOCK_NAMES ==> name in images
    ensures Records(WithServices(data, LOCK_NAMES, images, |LOCK_NAMES|), s)
  {
    ServicesKeepHeader(data, LOCK_NAMES, images, |LOCK_NAMES|, 0);
    ServicesKeepHeader(data, LOCK_NAMES, images, |LOCK_NAMES|, 1);
    ServicesKeepHeader(data, LOCK_NAMES, images, |LOCK_NAMES|, 2);
    ServicesKeepHeader(data, LOCK_NAMES, images, |LOCK_NAMES|, 3);
  }

  lemma RecordsRead(s: Selection, data: Data)
    requires WellFormed(s) && Records(data, s)
    ensures ReadSelection(Some(data)) == Ok(s)
  {
    EmptyIsBlank();
    if s.source == Ghcr {
      assert SourceText(s.source) == "ghcr";
    } else {
      assert SourceText(s.source) == "community" && "community"[0] != "ghcr"[0];
    }
  }

  /** A well-formed selection can be rendered, and reading the lock gives it back. */
  lemma ReadAfterRender(s: Selection, images: map<string, Image>, timestamp: string, count: string)
    requires WellFormed(s) && forall name :: name in LOCK_NAMES ==> name in images
    ensures Rendered(s, images, timestamp, count).Some?
    ensures ReadSelection(Rendered(s, images, timestamp, count)) == Ok(s)
  {
    var header := SelectionData(s, timestamp, count);
    assert header.Some? && Records(header.value, s) by {
      WellFormedHeader(s, timestamp, count);
      HeaderRecords(s, if s.source == Ghcr then "" else s.gitRef, timestamp, count);
    }
    RenderedReads(s, images, timestamp, count, header.value);
  }

  lemma RenderedReads(s: Selection, images: map<string, Image>, timestamp: string, count: string, header: Data)
    requires WellFormed(s) && forall name :: name in LOCK_NAMES ==> name in images
    requires SelectionData(s, timestamp, count) == Some(header) && Records(header, s)
    ensures Rendered(s, images, timestamp, count).Some?
    ensures ReadSelection(Rendered(s, images, timestamp, count)) == Ok(s)
  {
    ServicesKeepRecords(header, images, s);
    RecordsRead(s, WithServices(header, LOCK_NAMES, images, |LOCK_NAMES|));
  }

  lemma WellFormedHeader(s: Selection, timestamp: string, count: string)
    requires WellFormed(s)
    ensures SelectionData(s, timestamp, count)
         == Some(HeaderData(SourceText(s.source), s.org, s.tag, s.gitRef,
                            if s.source == Ghcr then "" else s.gitRef, timestamp, count))
  {
    DefaultsAreNotBlank();
  }

  lemma LockNamesAreServiceNames()
    ensures ServiceNames(LOCK_NAMES)
  {
    forall i, j | 0 <= i < j < |LOCK_NAMES| ensures LOCK_NAMES[i] != LOCK_NAMES[j] {
      LockNamesAreDistinct(i, j);
    }
    forall i | 0 <= i < |LOCK_NAMES| ensures ServiceName(LOCK_NAMES[i]) {
      LockNameIsServiceName(i);
    }
  }

  lemma LockNameIsServiceName(i: nat)
    requires i < |LOCK_NAMES|
    ensures ServiceName(LOCK_NAMES[i])
  {}

  lemma LockNamesAreDistinct(i: nat, j: nat)
    requires i < j < |LOCK_NAMES|
    ensures LOCK_NAMES[i] != LOCK_NAMES[j]
  {
    var lengths := [9, 12, 5, 6, 7, 6, 7, 13, 4, 8, 14, 11, 4];
    assert |LOCK_NAMES[i]| == lengths[i] && |LOCK_NAMES[j]| == lengths[j];
    if lengths[i] == lengths[j] {
      assert LOCK_NAMES[i][if i == 3 then 1 else 0] != LOCK_NAMES[j][if i == 3 then 1 else 0];
    }
  }

  /** In a rendered lock every service's keys hold its own image. */
  lemma RenderedImagesAreTheirOwn(s: Selection, images: map<string, Image>, timestamp: string, count: string,
                                  k: nat, f: Field)
    requires WellFormed(s) && forall name :: name in LOCK_NAMES ==> name in images
    requires k < |LOCK_NAMES|
    ensures Rendered(s, images, timestamp, count).Some?
    ensures var data := Rendered(s, images, timestamp, count).value;
      ServiceKey(LOCK_NAMES[k], f) in data && data[ServiceKey(LOCK_NAMES[k], f)] == FieldValue(images[LOCK_NAMES[k]], f)
  {
    assert SelectionData(s, timestamp, count).Some? by { WellFormedHeader(s, timestamp, count); }
    assert ServiceNames(LOCK_NAMES) by { LockNamesAreServiceNames(); }
    ServicesAreTheirOwn(SelectionData(s, timestamp, count).value, LOCK_NAMES, images, |LOCK_NAMES|, k, f);
  }

  // ---- refreshes ----

  /** A lock that was never written, or that reads as a well-formed selection. */
  ghost predicate Sound(lock: Option<Data>) {
    lock.Some? ==> ReadSelection(lock).Ok? && WellFormed(ReadSelection(lock).value)
  }

  /** A refresh either leaves the lock alone or writes one that reads as the wanted selection. */
  lemma RefreshReadsAsWanted(lock: Option<Data>, r: Refresh)
    requires Sound(lock)
    ensures Sound(Refreshed(lock, r))
    ensures Refreshed(lock, r) == lock
         || (Wanted(lock, r).Some? && ReadSelection(Refreshed(lock, r)) == Ok(Wanted(lock, r).value))
    ensures Wanted(lock, r).Some? && AllResolve(r.outcomes) && r.applied ==>
      ReadSelection(Refreshed(lock, r)) == Ok(Wanted(lock, r).value)
  {
    if Wanted(lock, r).Some? {
      var s := Wanted(lock, r).value;
      var read := ReadSelection(if r.readable then lock else None);
      ResolvedShape(r.options, if read.Ok? then Some(read.value) else None);
      if AllResolve(r.outcomes) {
        ReadAfterRender(s, Images(r.outcomes), r.timestamp, r.count);
      }
    }
  }

  /** A refresh in which any service fails to resolve leaves the lock as it was. */
  lemma FailedServiceKeepsLock(lock: Option<Data>, r: Refresh, name: string)
    requires name in LOCK_NAMES && name in r.outcomes && r.outcomes[name].Err?
    ensures Refreshed(lock, r) == lock
  {
  }
}
