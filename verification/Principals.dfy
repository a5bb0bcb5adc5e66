/** Principal objects: the heap form of an identity, its decision loops, and how one is
    built from verified claims. */
module Principals {
  import opened Strings
  import opened Grants
  import Mrn

  const KIND_USER := "user"
  const KIND_SERVICE := "service"

  class Principal {
    var subject: string
    var kind: string
    var tenant: string
    var scopes: seq<string>
    var grants: seq<Grant>
    var blanketActions: Option<seq<string>>

    constructor (subject: string, kind: string, tenant: string, scopes: seq<string>, grants: seq<Grant>,
                 blanketActions: Option<seq<string>>)
      ensures View() == Identity(subject, kind, tenant, scopes, grants, blanketActions)
    {
      this.subject, this.kind, this.tenant := subject, kind, tenant;
      this.scopes, this.grants, this.blanketActions := scopes, grants, blanketActions;
    }

    /** The fields, as one value. */
    function View(): Identity
      reads this
    {
      Identity(subject, kind, tenant, scopes, grants, blanketActions)
    }

    method CoversAction(granted: string, required: string) returns (ok: bool)
      ensures ok == ActionCovers(View().BlanketActions(), granted, required)
      ensures ok <==> || granted == required || granted == "*"
                      || (granted != "" && blanketActions.Some? && granted in blanketActions.value)
    {
      if granted == required || granted == WILDCARD { return true; }
      var list := if blanketActions.Some? then blanketActions.value else [];
      for i := 0 to |list|
        invariant granted == "" || granted !in list[..i]
      {
        if list[i] != "" && granted == list[i] { return true; }
      }
      return false;
    }
  }

  /** The resource decision, as the code takes it: first grant that covers and reaches wins. */
  method CheckAllows(p: Principal?, action: string, resource: string) returns (ok: bool)
    ensures ok == (p != null && Allows(p.View(), action, resource))
  {
    assert Mrn.Parse("").Err?;
    hide Mrn.Parse, Mrn.ParsePattern, Mrn.Matches, ActionCovers;
    if p == null || action == "" || resource == "" { return false; }
    var parsed := Mrn.Parse(resource);
    if parsed.Err? { return false; }
    var target := parsed.value;
    ghost var blanket := p.View().BlanketActions();
    for i := 0 to |p.grants|
      invariant forall j :: 0 <= j < i ==>
        !(ActionCovers(blanket, p.grants[j].action, action) && Reaches(p.grants[j], target))
    {
      var g := p.grants[i];
      var covers := p.CoversAction(g.action, action);
      if !covers { continue; }
      if g.resource == "" {
        assert Reaches(g, target);
        return true;
      }
      var pattern := Mrn.ParsePattern(g.resource);
      if pattern.Err? { continue; }
      if Mrn.Matches(pattern.value, target) {
        assert Reaches(g, target);
        return true;
      }
    }
    return false;
  }

  method CheckHasAction(p: Principal?, action: string) returns (ok: bool)
    ensures ok == (p != null && HasAction(p.View(), action))
  {
    hide ActionCovers;
    if p == null || action == "" { return false; }
    ghost var blanket := p.View().BlanketActions();
    for i := 0 to |p.grants|
      invariant forall j :: 0 <= j < i ==> !ActionCovers(blanket, p.grants[j].action, action)
    {
      var covers := p.CoversAction(p.grants[i].action, action);
      if covers {
        assert p.grants[i] in p.grants;
        return true;
      }
    }
    return false;
  }

  method CheckAllowsAny(p: Principal?, resource: string, actions: seq<string>) returns (ok: bool)
    ensures ok == (p != null && exists a :: a in actions && Allows(p.View(), a, resource))
  {
    hide Allows;
    for i := 0 to |actions|
      invariant forall j :: 0 <= j < i ==> !(p != null && Allows(p.View(), actions[j], resource))
    {
      var allowed := CheckAllows(p, actions[i], resource);
      if allowed { return true; }
    }
    return false;
  }

  // ---------------------------------------------------------------- claims

  /** A decoded claim value, as far as this code looks at it. */
  datatype Json = JString(text: string) | JArray(items: seq<Json>) | JOther

  type RawClaims = map<string, Json>

  datatype Claims = Claims(subject: string, tenant: string, scopes: seq<string>, raw: RawClaims)

  const CLAIM_PERMISSIONS := "permissions"
  const CLAIM_SUBJECT_TYPE := "sub_type"
  const CLAIM_SERVICE := "svc"
  const CLAIM_TENANT_SLUG := "tenant_slug"

  predicate IsAscii(s: string) { forall i :: 0 <= i < |s| ==> s[i] as int <= 0x7F }

  function AsciiLower(s: string): string {
    seq(|s|, i requires 0 <= i < |s| => if 'A' <= s[i] <= 'Z' then (s[i] as int + 32) as char else s[i])
  }

  /** What lower-casing does to text that is not all ASCII: left open. */
  const LOWER_TABLE: string -> string

  /** strings.ToLower. */
  function ToLower(s: string): string {
    if IsAscii(s) then AsciiLower(s) else LOWER_TABLE(s)
  }

  function StringClaim(raw: RawClaims, key: string): string {
    if key in raw && raw[key].JString? then raw[key].text else ""
  }

  /** The fields the verifier lifts out of a token's claims. */
  function ClaimsOf(raw: RawClaims): Claims {
    Claims(StringClaim(raw, "sub"), StringClaim(raw, "tenant"), Fields(StringClaim(raw, "scope")), raw)
  }

  /** The usable entries of the permissions array: strings that are not blank. */
  function PermissionEntries(items: seq<Json>): seq<string> {
    if items == [] then []
    else
      var rest := PermissionEntries(items[1..]);
      if items[0].JString? && TrimSpace(items[0].text) != "" then [items[0].text] + rest else rest
  }

  function PermissionsClaim(raw: RawClaims): seq<string> {
    if CLAIM_PERMISSIONS in raw && raw[CLAIM_PERMISSIONS].JArray? then PermissionEntries(raw[CLAIM_PERMISSIONS].items)
    else []
  }

  /** User or service, from what the token says about itself. */
  function ActorKind(raw: RawClaims): string {
    if TrimSpace(StringClaim(raw, CLAIM_SERVICE)) != "" then KIND_SERVICE
    else
      var subjectType := ToLower(TrimSpace(StringClaim(raw, CLAIM_SUBJECT_TYPE)));
      if subjectType == "" then KIND_USER
      else if subjectType in {"user", "device", "ciba"} then KIND_USER
      else if subjectType in {"service", "client", "exchange"} then KIND_SERVICE
      else KIND_SERVICE
  }

  /** The identity a set of claims stands for. */
  function IdentityOf(c: Claims): Identity {
    var scopes := c.scopes + PermissionsClaim(c.raw);
    Identity(c.subject, ActorKind(c.raw),
             if c.tenant == "" then StringClaim(c.raw, CLAIM_TENANT_SLUG) else c.tenant,
             scopes, ParseGrants(scopes), None)
  }

  /** PrincipalFromClaims: builds the object field by field; no claims, no principal. */
  method FromClaims(claims: Option<Claims>) returns (p: Principal?)
    ensures claims.None? <==> p == null
    ensures p != null ==> fresh(p) && p.View() == IdentityOf(claims.value)
  {
    hide ActorKind, PermissionsClaim, ParseGrants;
    if claims.None? { return null; }
    var c := claims.value;
    p := new Principal(c.subject, "", c.tenant, [], [], None);
    p.scopes := p.scopes + c.scopes;
    assert p.scopes == c.scopes;
    AppendPermissions(p, c.raw);
    var grants := CollectGrants(p.scopes);
    p.grants := grants;
    p.kind := ActorKind(c.raw);
    if p.tenant == "" {
      var t := StringClaim(c.raw, CLAIM_TENANT_SLUG);
      if t != "" { p.tenant := t; }
    }
  }

  /** The loop over the permissions array: appends to the principal's scopes and nothing else. */
  method AppendPermissions(p: Principal, raw: RawClaims)
    modifies p
    ensures p.View() == old(p.View()).(scopes := old(p.scopes) + PermissionsClaim(raw))
  {
    if CLAIM_PERMISSIONS !in raw || !raw[CLAIM_PERMISSIONS].JArray? { return; }
    var items := raw[CLAIM_PERMISSIONS].items;
    assert items[0..] == items;
    for i := 0 to |items|
      invariant p.View() == old(p.View()).(scopes := p.scopes)
      invariant p.scopes + PermissionEntries(items[i..]) == old(p.scopes) + PermissionEntries(items)
    {
      assert items[i..][0] == items[i] && items[i..][1..] == items[i + 1..];
      if items[i].JString? && TrimSpace(items[i].text) != "" {
        p.scopes := p.scopes + [items[i].text];
      }
    }
  }
}

/** Both claim shapes a token can carry mean the same thing. */
module ClaimLaws {
  import opened Strings
  import opened Grants
  import opened GrantLaws
  import opened Principals

  function AsJson(words: seq<string>): (items: seq<Json>)
    ensures |items| == |words|
  {
    seq(|words|, i requires 0 <= i < |words| => JString(words[i]))
  }

  lemma {:induction false} WordsAreEntries(words: seq<string>)
    requires AreWords(words)
    ensures PermissionEntries(AsJson(words)) == words
  {
    if words != [] {
      SpaceFreeIsTrimmed(words[0]);
      TrimSpaceTrims(words[0]);
      WordsAreEntries(words[1..]);
      assert AsJson(words)[1..] == AsJson(words[1..]);
      assert words == [words[0]] + words[1..];
    }
  }

  /** The same entries, joined by spaces in "scope" or listed in "permissions", give the
      same identity, whatever else the token says. */
  lemma ShapesAgree(raw: RawClaims, words: seq<string>)
    requires AreWords(words) && "scope" !in raw && CLAIM_PERMISSIONS !in raw
    ensures var joined := IdentityOf(ClaimsOf(raw["scope" := JString(Join(words, " "))]));
      var listed := IdentityOf(ClaimsOf(raw[CLAIM_PERMISSIONS := JArray(AsJson(words))]));
      joined == listed && joined.scopes == words && joined.grants == ParseGrants(words)
  {
    hide Fields, ActorKind, ParseGrants, ClaimsOf, PermissionsClaim, StringClaim, PermissionEntries;
    var joined, listed := Join(words, " "), AsJson(words);
    FieldsOfJoin(words);
    WordsAreEntries(words);
    JoinedForm(raw, joined);
    ListedForm(raw, listed);
    assert words + [] == words && [] + words == words;
  }

  lemma JoinedForm(raw: RawClaims, scope: string)
    requires CLAIM_PERMISSIONS !in raw
    ensures var a := ClaimsOf(raw["scope" := JString(scope)]);
      && a.scopes == Fields(scope) && PermissionsClaim(a.raw) == []
      && a.subject == StringClaim(raw, "sub") && a.tenant == StringClaim(raw, "tenant")
      && StringClaim(a.raw, CLAIM_TENANT_SLUG) == StringClaim(raw, CLAIM_TENANT_SLUG)
      && ActorKind(a.raw) == ActorKind(raw)
  {
  }

  lemma ListedForm(raw: RawClaims, items: seq<Json>)
    requires "scope" !in raw
    ensures var b := ClaimsOf(raw[CLAIM_PERMISSIONS := JArray(items)]);
      && b.scopes == [] && PermissionsClaim(b.raw) == PermissionEntries(items)
      && b.subject == StringClaim(raw, "sub") && b.tenant == StringClaim(raw, "tenant")
      && StringClaim(b.raw, CLAIM_TENANT_SLUG) == StringClaim(raw, CLAIM_TENANT_SLUG)
      && ActorKind(b.raw) == ActorKind(raw)
  {
  }

  /** A token carrying both shapes permits exactly what the two would permit apart. */
  lemma MixedIsUnion(c: Claims, action: string, resource: string)
    ensures var scopeOnly := IdentityOf(c.(raw := c.raw - {CLAIM_PERMISSIONS}));
      var listOnly := IdentityOf(c.(scopes := []));
      && Allows(IdentityOf(c), action, resource)
         == (Allows(scopeOnly, action, resource) || Allows(listOnly, action, resource))
      && HasAction(IdentityOf(c), action) == (HasAction(scopeOnly, action) || HasAction(listOnly, action))
  {
    var id := IdentityOf(c);
    var scopeOnly, listOnly := IdentityOf(c.(raw := c.raw - {CLAIM_PERMISSIONS})), IdentityOf(c.(scopes := []));
    var listed := PermissionsClaim(c.raw);
    assert c.scopes + [] == c.scopes && [] + listed == listed;
    ParseGrantsConcat(c.scopes, listed);
    ConcatIsUnion(id, ParseGrants(c.scopes), ParseGrants(listed), action, resource);
    OnlyGrantsDecide(id.(grants := ParseGrants(c.scopes)), scopeOnly, action, resource);
    OnlyGrantsDecide(id.(grants := ParseGrants(listed)), listOnly, action, resource);
  }

  lemma OnlyGrantsDecide(a: Identity, b: Identity, action: string, resource: string)
    requires a.grants == b.grants && a.blanket == b.blanket
    ensures Allows(a, action, resource) == Allows(b, action, resource)
    ensures HasAction(a, action) == HasAction(b, action)
  {
  }

  // ---------------------------------------------------------------- what a token's claims become

  /** The raw claim under this name is this text, "" standing for no text at all. */
  predicate Says(raw: RawClaims, name: string, text: string) {
    if name in raw && raw[name].JString? then text == raw[name].text else text == ""
  }

  /** What a token must say to count as human: no service claim, and a subject type that is
      absent or one of the human ones. */
  ghost predicate SaysHuman(raw: RawClaims) {
    && (forall svc :: Says(raw, "svc", svc) ==> Blank(svc))
    && (forall kind :: Says(raw, "sub_type", kind) ==> ToLower(TrimSpace(kind)) in {"", "user", "device", "ciba"})
  }

  /** The entry is on the token's permissions list, as text that is not blank. */
  predicate Permitted(raw: RawClaims, entry: string) {
    "permissions" in raw && raw["permissions"].JArray? && JString(entry) in raw["permissions"].items && !Blank(entry)
  }

  /** The identity that a token's raw claims become, claim by claim: subject, tenant (or the
      tenant's slug where there is none), class of caller, the words of the scope string with
      the usable permissions behind them, and the grants those entries read as. */
  lemma TokenIdentity(raw: RawClaims, scope: string)
    requires Says(raw, "scope", scope)
    ensures var id := IdentityOf(ClaimsOf(raw));
      && Says(raw, "sub", id.subject)
      && (Says(raw, "tenant", id.tenant) || (Says(raw, "tenant", "") && Says(raw, "tenant_slug", id.tenant)))
      && id.kind == (if SaysHuman(raw) then "user" else "service")
      && id.blanket.None?
      && Fields(scope) <= id.scopes
      && (forall e :: e in id.scopes <==> e in Fields(scope) || Permitted(raw, e))
      && (forall g :: g in id.grants <==> g.action != "" && exists e :: e in id.scopes && ParseGrant(e) == g)
  {
    var id := IdentityOf(ClaimsOf(raw));
    assert id.scopes == Fields(scope) + PermissionsClaim(raw) by { hide Fields, PermissionsClaim; }
    forall e ensures e in PermissionsClaim(raw) <==> Permitted(raw, e) { PermittedIsListed(raw, e); }
    forall g ensures g in id.grants <==> g.action != "" && exists e :: e in id.scopes && ParseGrant(e) == g {
      GrantsOfEntries(id.scopes, g);
    }
    KindIsSaid(raw);
    assert Says(raw, "sub", id.subject) && id.kind == ActorKind(raw) && id.blanket.None?
      && (Says(raw, "tenant", id.tenant) || (Says(raw, "tenant", "") && Says(raw, "tenant_slug", id.tenant))) by {
      hide ActorKind, Fields, PermissionsClaim, ParseGrants;
    }
    hide IdentityOf, ClaimsOf, ActorKind, Fields, PermissionsClaim, Permitted, ParseGrants, ParseGrant, SaysHuman, Says;
  }

  lemma GrantsOfEntries(entries: seq<string>, g: Grant)
    ensures g in ParseGrants(entries) <==> g.action != "" && exists e :: e in entries && ParseGrant(e) == g
  {
    hide ParseGrant, ParseGrants;
    if g in ParseGrants(entries) { var e := ListedGrantWasParsed(entries, g); }
    if e :| g.action != "" && e in entries && ParseGrant(e) == g { ParsedGrantIsListed(entries, e); }
  }

  lemma PermittedIsListed(raw: RawClaims, entry: string)
    ensures entry in PermissionsClaim(raw) <==> Permitted(raw, entry)
  {
    TrimSpaceEmpties(entry);
    if "permissions" in raw && raw["permissions"].JArray? { UsableEntries(raw["permissions"].items, entry); }
    hide PermissionEntries, TrimSpace, Blank;
  }

  lemma {:induction false} UsableEntries(items: seq<Json>, entry: string)
    ensures entry in PermissionEntries(items) <==> JString(entry) in items && TrimSpace(entry) != ""
  {
    hide TrimSpace;
    if items != [] {
      UsableEntries(items[1..], entry);
      assert items == [items[0]] + items[1..];
    }
  }

  /** The permissions array is read in order: behind one another, lists give their entries
      behind one another. */
  lemma {:induction false} EntriesInOrder(a: seq<Json>, b: seq<Json>)
    ensures PermissionEntries(a + b) == PermissionEntries(a) + PermissionEntries(b)
  {
    hide TrimSpace;
    if a == [] {
      assert a + b == b;
    } else {
      assert (a + b)[1..] == a[1..] + b;
      EntriesInOrder(a[1..], b);
    }
  }

  lemma KindIsSaid(raw: RawClaims)
    ensures ActorKind(raw) == if SaysHuman(raw) then "user" else "service"
  {
    KindIsDecided(raw);
    var svc, kind := StringClaim(raw, "svc"), StringClaim(raw, "sub_type");
    TrimSpaceEmpties(svc);
    assert Says(raw, "svc", svc) && forall t :: Says(raw, "svc", t) ==> t == svc;
    assert Says(raw, "sub_type", kind) && forall t :: Says(raw, "sub_type", t) ==> t == kind;
    hide ActorKind, StringClaim, TrimSpace, Blank, ToLower, Says;
  }

  /** The classification is total and two-valued: human only on positive or absent
      evidence, and never against a service claim. */
  lemma KindIsDecided(raw: RawClaims)
    ensures ActorKind(raw) == KIND_USER || ActorKind(raw) == KIND_SERVICE
    ensures TrimSpace(StringClaim(raw, CLAIM_SERVICE)) != "" ==> ActorKind(raw) == KIND_SERVICE
    ensures var claimed := TrimSpace(StringClaim(raw, CLAIM_SUBJECT_TYPE));
      && (TrimSpace(StringClaim(raw, CLAIM_SERVICE)) == "" ==>
           (ActorKind(raw) == KIND_USER <==> ToLower(claimed) in {"", "user", "device", "ciba"}))
      && (IsAscii(claimed) ==> ToLower(claimed) == AsciiLower(claimed))
  {
  }
}
