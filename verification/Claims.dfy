/** Who a token names: the CLI's projection, the gateway filter, and the creator list built from one token. */
module Claims {
  import opened Text

  /** The claims either side reads; a missing claim is None. */
  datatype Claims = Claims(
    iss: Option<string>, uniqueName: Option<string>, oid: Option<string>, appid: Option<string>,
    upn: Option<string>, azp: Option<string>, scp: Option<string>, idtyp: Option<string>)

  const V1_HOST: string := "sts.windows.net"
  const V2_HOST: string := "login.microsoftonline.com"

  function V1Issuer(tenant: string): string { "https://" + V1_HOST + ("/" + tenant + "/") }
  function V2Issuer(tenant: string): string { "https://" + V2_HOST + ("/" + tenant + "/v2.0") }

  predicate OccursAt(s: string, part: string, i: int) {
    0 <= i <= |s| - |part| && s[i..i + |part|] == part
  }

  /** In a Lua pattern a dot stands for any character. */
  predicate MatchesAt(s: string, pattern: string, i: int) {
    0 <= i <= |s| - |pattern| && forall k :: 0 <= k < |pattern| ==> pattern[k] == '.' || s[i + k] == pattern[k]
  }

  /** How Python looks for a host. */
  predicate Contains(s: string, part: string) {
    exists i :: 0 <= i <= |s| && OccursAt(s, part, i)
  }

  /** How Lua looks for a host. */
  predicate Finds(s: string, pattern: string) {
    exists i :: 0 <= i <= |s| && MatchesAt(s, pattern, i)
  }

  predicate Given(claim: Option<string>) {
    claim.Some? && claim.value != ""
  }

  function FirstGiven(a: Option<string>, b: Option<string>, c: Option<string>): Option<string> {
    if Given(a) then a else if Given(b) then b else if Given(c) then c else None
  }

  function FirstPresent(a: Option<string>, b: Option<string>, c: Option<string>): Option<string> {
    if a.Some? then a else if b.Some? then b else c
  }

  function IssuerText(c: Claims): string {
    if c.iss.Some? then c.iss.value else ""
  }

  /** The CLI's answer; None is the raised error. */
  function ProjectedUserId(c: Claims): Option<string> {
    if Contains(IssuerText(c), V1_HOST) then
      if Given(c.uniqueName) then c.uniqueName
      else if Given(c.oid) && Given(c.appid) then c.appid
      else if Given(c.upn) then c.upn
      else None
    else if Contains(IssuerText(c), V2_HOST) then FirstGiven(c.uniqueName, c.oid, c.azp)
    else None
  }

  /** The x-user-id header the filter sets; None when it sets none. */
  function GatewayUserId(c: Claims): Option<string> {
    if c.iss.Some? && Finds(c.iss.value, V1_HOST) then
      if c.uniqueName.Some? then c.uniqueName
      else if c.oid.Some? && c.appid.Some? then c.appid
      else c.upn
    else if c.iss.Some? && Finds(c.iss.value, V2_HOST) then FirstPresent(c.uniqueName, c.oid, c.azp)
    else None
  }

  // ---- the two accepted issuers ----

  predicate IsHexDigit(c: char) {
    '0' <= c <= '9' || 'a' <= c <= 'f' || 'A' <= c <= 'F'
  }

  /** A tenant id: hexadecimal digits and dashes. */
  predicate IsTenant(tenant: string) {
    forall i :: 0 <= i < |tenant| ==> IsHexDigit(tenant[i]) || tenant[i] == '-'
  }

  predicate Accepted(c: Claims, tenant: string) {
    IsTenant(tenant) && (c.iss == Some(V1Issuer(tenant)) || c.iss == Some(V2Issuer(tenant)))
  }

  lemma ContainedIsFound(s: string, part: string)
    ensures Contains(s, part) ==> Finds(s, part)
  {
    if i :| 0 <= i <= |s| && OccursAt(s, part, i) {
      forall k | 0 <= k < |part| ensures s[i + k] == part[k] {
        assert s[i..i + |part|][k] == part[k];
      }
      assert MatchesAt(s, part, i);
    }
  }

  lemma MiddleIsContained(a: string, part: string, b: string)
    ensures Contains(a + part + b, part) && Finds(a + part + b, part)
  {
    assert OccursAt(a + part + b, part, |a|);
    ContainedIsFound(a + part + b, part);
  }

  lemma FoundNeedsItsLetters(s: string, pattern: string, k: nat)
    requires k < |pattern| && pattern[k] != '.' && pattern[k] !in s
    ensures !Contains(s, pattern) && !Finds(s, pattern)
  {
    ContainedIsFound(s, pattern);
  }

  lemma NoWInV2Issuer(tenant: string)
    requires IsTenant(tenant)
    ensures 'w' !in V2Issuer(tenant)
  {
    assert 'w' !in V2_HOST;
    assert 'w' !in "https://" && 'w' !in "/" && 'w' !in "/v2.0" && 'w' !in tenant;
    assert 'w' !in "/" + tenant + "/v2.0";
    NoneInEither('w', "https://" + V2_HOST, "/" + tenant + "/v2.0");
  }

  lemma NoneInEither(c: char, a: string, b: string)
    requires c !in a && c !in b
    ensures c !in a + b
  {}

  /** Both sides take an accepted issuer for the same token version. */
  lemma IssuersAreRead(tenant: string)
    requires IsTenant(tenant)
    ensures Contains(V1Issuer(tenant), V1_HOST) && Finds(V1Issuer(tenant), V1_HOST)
    ensures !Contains(V2Issuer(tenant), V1_HOST) && !Finds(V2Issuer(tenant), V1_HOST)
    ensures Contains(V2Issuer(tenant), V2_HOST) && Finds(V2Issuer(tenant), V2_HOST)
  {
    MiddleIsContained("https://", V1_HOST, "/" + tenant + "/");
    MiddleIsContained("https://", V2_HOST, "/" + tenant + "/v2.0");
    NoWInV2Issuer(tenant);
    FoundNeedsItsLetters(V2Issuer(tenant), V1_HOST, 4);
  }

  // ---- agreement ----

  function Drop(claim: Option<string>): Option<string> {
    if Given(claim) then claim else None
  }

  /** The payload without its empty claims. */
  function DropEmpty(c: Claims): Claims {
    Claims(c.iss, Drop(c.uniqueName), Drop(c.oid), Drop(c.appid), Drop(c.upn), Drop(c.azp), Drop(c.scp), Drop(c.idtyp))
  }

  /** For every accepted token the CLI projects what the gateway projects from the non-empty claims. */
  lemma ProjectionAgrees(c: Claims, tenant: string)
    requires Accepted(c, tenant)
    ensures ProjectedUserId(c) == GatewayUserId(DropEmpty(c))
    ensures DropEmpty(c) == c ==> ProjectedUserId(c) == GatewayUserId(c)
  {
    IssuersAreRead(tenant);
  }

  /**
   Who is projected: in both versions the name when there is one; in version 1 the application
   of a token with an object id, else the principal name; in version 2 the object id, else the
   application.
   */
  lemma ProjectedClaims(c: Claims, tenant: string)
    requires Accepted(c, tenant)
    ensures Given(c.uniqueName) ==> ProjectedUserId(c) == c.uniqueName
    ensures !Given(c.uniqueName) && c.iss == Some(V1Issuer(tenant)) ==>
      && (Given(c.oid) && Given(c.appid) ==> ProjectedUserId(c) == c.appid)
      && (!(Given(c.oid) && Given(c.appid)) && Given(c.upn) ==> ProjectedUserId(c) == c.upn)
      && (ProjectedUserId(c).None? <==> !(Given(c.oid) && Given(c.appid)) && !Given(c.upn))
    ensures !Given(c.uniqueName) && c.iss == Some(V2Issuer(tenant)) ==>
      && (Given(c.oid) ==> ProjectedUserId(c) == c.oid)
      && (!Given(c.oid) && Given(c.azp) ==> ProjectedUserId(c) == c.azp)
      && (ProjectedUserId(c).None? <==> !Given(c.oid) && !Given(c.azp))
  {
    IssuersAreRead(tenant);
  }

  /** An empty claim on the path to the answer: the gateway takes it, the CLI passes it over. */
  predicate EmptyInTheWay(c: Claims, v1: bool) {
    if c.uniqueName.Some? then c.uniqueName.value == ""
    else if !v1 then FirstPresent(c.uniqueName, c.oid, c.azp) == Some("")
    else if c.oid.Some? && c.appid.Some? then c.appid.value == "" || (c.oid.value == "" && c.upn != c.appid)
    else c.upn == Some("")
  }

  lemma ProjectionAgreesExactly(c: Claims, tenant: string)
    requires Accepted(c, tenant)
    ensures ProjectedUserId(c) == GatewayUserId(c) <==> !EmptyInTheWay(c, c.iss == Some(V1Issuer(tenant)))
  {
    IssuersAreRead(tenant);
  }

  // ---- the creator list ----

  predicate IsUser(c: Claims) {
    Given(c.uniqueName) || Given(c.upn) || Given(c.scp) || c.idtyp == Some("user")
  }

  function Oid(c: Claims): string {
    if c.oid.Some? then Strip(c.oid.value) else ""
  }

  /** The list holds an identifier equal to `id` when case is ignored. */
  predicate Names(ids: seq<string>, id: string) {
    exists i :: 0 <= i < |ids| && Lower(ids[i]) == Lower(id)
  }

  method ProjectedUserIds(c: Claims) returns (ids: Option<seq<string>>)
    ensures ids == CreatorIds(c)
  {
    var first := ProjectedUserId(c);
    if first.None? {
      return None;
    }
    var identifiers := [first.value];
    var oid := Oid(c);
    if IsUser(c) && oid != "" && Lower(oid) != Lower(first.value) {
      identifiers := identifiers + [oid];
      assert identifiers == [first.value, oid];
    }
    return Some(identifiers);
  }

  function CreatorIds(c: Claims): (ids: Option<seq<string>>)
    ensures ids.None? <==> ProjectedUserId(c).None?
    ensures ids.Some? ==>
      && 1 <= |ids.value| <= 2 && ids.value[0] == ProjectedUserId(c).value
      && (forall i, j :: 0 <= i < j < |ids.value| ==> Lower(ids.value[i]) != Lower(ids.value[j]))
      && (IsUser(c) && Oid(c) != "" ==> Names(ids.value, Oid(c)))
  {
    var first := ProjectedUserId(c);
    if first.None? then None
    else if IsUser(c) && Oid(c) != "" && Lower(Oid(c)) != Lower(first.value) then
      var ids := [first.value, Oid(c)];
      assert Lower(ids[1]) == Lower(Oid(c));
      Some(ids)
    else
      var ids := [first.value];
      assert Lower(ids[0]) == Lower(first.value);
      Some(ids)
  }

  /**
   The list has a second entry exactly for a user whose object id, without surrounding white
   space, is there and is not the first entry already; then it is that id. A token that names
   no user, such as an application's, gives a single entry.
   */
  lemma SecondEntryExactly(c: Claims)
    requires CreatorIds(c).Some?
    ensures var ids := CreatorIds(c).value;
      && (|ids| == 2 <==>
            && (Given(c.uniqueName) || Given(c.upn) || Given(c.scp) || c.idtyp == Some("user"))
            && c.oid.Some? && !AllSpace(c.oid.value) && Lower(Strip(c.oid.value)) != Lower(ids[0]))
      && (|ids| == 2 ==> ids[1] == Strip(c.oid.value))
  {
    if c.oid.Some? {
      BlankExactly(c.oid.value);
    }
  }

  /**
   A creator list made from one token of a user names that user under the other token version
   too: the gateway's answer for a v2 token with the same oid, and the same unique_name or
   none, is in the list, ignoring case, exactly when that name is there, the oid has no
   surrounding white space, or the oid is what the first token projects.
   */
  lemma CreatorIsKnownUnderV2(made: Claims, used: Claims, tenant: string)
    requires Accepted(made, tenant) && IsUser(made) && ProjectedUserId(made).Some?
    requires IsTenant(tenant) && used.iss == Some(V2Issuer(tenant))
    requires used.uniqueName.None? || (Given(used.uniqueName) && used.uniqueName == made.uniqueName)
    requires Given(used.oid) && used.oid == made.oid
    ensures var answer := if used.uniqueName.Some? then used.uniqueName else used.oid;
      && ProjectedUserId(used) == GatewayUserId(used) == answer
      && (Names(CreatorIds(made).value, answer.value) <==>
            || used.uniqueName.Some? || Strip(made.oid.value) == made.oid.value
            || Lower(ProjectedUserId(made).value) == Lower(made.oid.value))
  {
    IssuersAreRead(tenant);
    var ids := CreatorIds(made).value;
    assert Lower(ids[0]) == Lower(ProjectedUserId(made).value);
    if used.uniqueName.None? {
      OidIsNamedExactly(made);
    }
  }

  /** When a user's list names the object id as the token spells it. */
  lemma OidIsNamedExactly(made: Claims)
    requires IsUser(made) && ProjectedUserId(made).Some? && Given(made.oid)
    ensures var oid := made.oid.value;
      Names(CreatorIds(made).value, oid) <==>
        Strip(oid) == oid || Lower(ProjectedUserId(made).value) == Lower(oid)
  {
    var ids, oid := CreatorIds(made).value, made.oid.value;
    if Names(ids, oid) {
      var i :| 0 <= i < |ids| && Lower(ids[i]) == Lower(oid);
      if i > 0 {
        assert ids[i] == Strip(oid);
        assert |Lower(ids[i])| == |ids[i]| && |Lower(oid)| == |oid|;
        StripIsShorter(oid);
      }
    }
    assert Lower(ids[0]) == Lower(ProjectedUserId(made).value);
  }

  lemma StripIsShorter(s: string)
    ensures |Strip(s)| <= |s|
    ensures |Strip(s)| == |s| ==> Strip(s) == s
  {}
}
