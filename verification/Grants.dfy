/** The grant grammar and what a list of grants permits. */
module Grants {
  import opened Strings
  import Mrn

  const WILDCARD := "*"

  /** An action, optionally confined to a resource pattern; "" means unconfined. */
  datatype Grant = Grant(action: string, resource: string)

  /** A verified caller as a value: the fields of a principal object at one moment.
      `blanket` is None for a nil slice, which is not the same as an empty one. */
  datatype Identity = Identity(
    subject: string,
    kind: string,
    tenant: string,
    scopes: seq<string>,
    grants: seq<Grant>,
    blanket: Option<seq<string>>)
  {
    function BlanketActions(): seq<string> {
      if blanket.Some? then blanket.value else []
    }
  }

  /** Only the first "=" splits. */
  function ParseGrant(raw: string): Grant {
    var s := TrimSpace(raw);
    if '=' in s then
      var i := IndexOf(s, '=');
      Grant(TrimSpace(s[..i]), TrimSpace(s[i + 1..]))
    else Grant(s, "")
  }

  /** Entries without an action are skipped. */
  function ParseGrants(raw: seq<string>): seq<Grant> {
    if raw == [] then []
    else
      var g, rest := ParseGrant(raw[0]), ParseGrants(raw[1..]);
      if g.action == "" then rest else [g] + rest
  }

  function GrantString(g: Grant): string {
    if g.resource == "" then g.action else g.action + "=" + g.resource
  }

  /** The claim-list loop: appends grant by grant. */
  method CollectGrants(raw: seq<string>) returns (grants: seq<Grant>)
    ensures grants == ParseGrants(raw)
  {
    grants := [];
    assert raw[0..] == raw;
    for i := 0 to |raw|
      invariant grants + ParseGrants(raw[i..]) == ParseGrants(raw)
    {
      var g := ParseGrant(raw[i]);
      assert raw[i..][0] == raw[i] && raw[i..][1..] == raw[i + 1..];
      if g.action == "" { continue; }
      grants := grants + [g];
    }
  }

  // ---------------------------------------------------------------- decisions

  /** Equality, the wildcard, or one of the service's own blanket actions: no prefixes. */
  predicate ActionCovers(blanket: seq<string>, granted: string, required: string) {
    granted == required || granted == WILDCARD || (granted != "" && granted in blanket)
  }

  /** The resource side of one grant. A pattern that does not parse reaches nothing. */
  predicate Reaches(g: Grant, target: Mrn.Name) {
    || g.resource == ""
    || (var p := Mrn.ParsePattern(g.resource); p.Ok? && Mrn.Matches(p.value, target))
  }

  predicate SomeGrantCovers(blanket: seq<string>, grants: seq<Grant>, action: string) {
    exists g :: g in grants && ActionCovers(blanket, g.action, action)
  }

  predicate SomeGrantReaches(blanket: seq<string>, grants: seq<Grant>, action: string, target: Mrn.Name) {
    exists g :: g in grants && ActionCovers(blanket, g.action, action) && Reaches(g, target)
  }

  /** May the caller perform `action` on `resource`: some grant must cover the one and reach the other. */
  predicate Allows(id: Identity, action: string, resource: string) {
    && action != ""
    && var target := Mrn.Parse(resource);
    && target.Ok?
    && SomeGrantReaches(id.BlanketActions(), id.grants, action, target.value)
  }

  /** Does the caller hold the action at all, on whatever resource. */
  predicate HasAction(id: Identity, action: string) {
    action != "" && SomeGrantCovers(id.BlanketActions(), id.grants, action)
  }
}

/** Laws of grant evaluation. */
module GrantLaws {
  import opened Strings
  import opened Grants
  import opened Mrn
  import MrnText
  import MrnMeaning
  import MrnCanon

  /** The grants that claim text can spell: both parts trimmed, no "=" in the action. */
  predicate Spellable(g: Grant) {
    Trimmed(g.action) && Trimmed(g.resource) && '=' !in g.action
  }

  /** Exactly the spellable grants survive being printed and parsed again ... */
  lemma GrantRoundTrips(g: Grant)
    ensures ParseGrant(GrantString(g)) == g <==> Spellable(g)
  {
    ParsedGrantParts(GrantString(g));
    if Spellable(g) {
      TrimSpaceTrims(g.action);
      TrimSpaceTrims(g.resource);
      if g.resource != "" { PrintedPartsParse(g.action, g.resource); }
    }
  }

  lemma PrintedPartsParse(action: string, resource: string)
    requires Trimmed(action) && Trimmed(resource) && resource != "" && '=' !in action
    requires TrimSpace(action) == action && TrimSpace(resource) == resource
    ensures ParseGrant(action + "=" + resource) == Grant(action, resource)
  {
    var t := action + "=" + resource;
    JoinedTrimmed(action, resource);
    TrimSpaceTrims(t);
    IndexOfFirst(action, '=', resource);
    assert t[|action|] == '=' && t[..|action|] == action && t[|action| + 1..] == resource;
    hide TrimSpace, Trimmed;
  }

  /** ... and every parsed grant is one of them. */
  lemma ParsedGrantRoundTrips(raw: string)
    ensures ParseGrant(GrantString(ParseGrant(raw))) == ParseGrant(raw)
  {
    ParsedGrantParts(raw);
    GrantRoundTrips(ParseGrant(raw));
  }

  /** What an entry reads as: up to its first "=" the action, behind it the pattern, each
      without outer white space; all of it the action when there is none. */
  lemma ReadsAs(action: string, pattern: string)
    requires '=' !in action
    ensures ParseGrant(action) == Grant(TrimSpace(action), "")
    ensures ParseGrant(action + "=" + pattern) == Grant(TrimSpace(action), TrimSpace(pattern))
  {
    var a, r := TrimLeft(action), TrimRight(pattern);
    EqualsStopsLeft(action, pattern);
    EqualsStopsRight(a, pattern);
    TrimSpaceAfterLeft(action);
    TrimSpaceAfterRight(pattern);
    if '=' in a { TrimLeftKeeps(action, '='); }
    if '=' in TrimSpace(action) { TrimSpaceKeeps(action, '='); }
    IndexOfFirst(a, '=', r);
    var t := a + "=" + r;
    assert TrimSpace(action + "=" + pattern) == t;
    assert t[|a|] == '=' && t[..|a|] == a && t[|a| + 1..] == r;
    hide TrimLeft, TrimRight, TrimSpace;
  }

  /** The parts of a parsed grant are trimmed, and its action holds no "=". */
  lemma ParsedGrantParts(raw: string)
    ensures var g := ParseGrant(raw);
      && Trimmed(g.action) && Trimmed(g.resource) && '=' !in g.action
      && TrimSpace(g.action) == g.action && TrimSpace(g.resource) == g.resource
  {
    var s := TrimSpace(raw);
    TrimSpaceTrims(raw);
    TrimSpaceTrims("");
    if '=' in s {
      var i := IndexOf(s, '=');
      TrimSpaceTrims(s[..i]);
      TrimSpaceTrims(s[i + 1..]);
      if '=' in TrimSpace(s[..i]) { TrimSpaceKeeps(s[..i], '='); }
    }
  }

  /** Exactly which entries are unconfined: those without "=", and those whose first "=" is
      the last byte once outer white space is gone. */
  lemma UnconfinedEntries(raw: string)
    ensures var t := TrimSpace(raw);
      ParseGrant(raw).resource == "" <==> '=' !in t || IndexOf(t, '=') == |t| - 1
  {
    var t := TrimSpace(raw);
    TrimSpaceTrims(raw);
    if '=' in t { TrimmedTail(t, IndexOf(t, '=') + 1); }
    hide TrimSpace, Trimmed;
  }

  /** In particular an action with one "=" behind it is the bare grant of that action. */
  lemma TrailingEqualsIsBare(action: string)
    requires action != "" && Trimmed(action) && '=' !in action
    ensures ParseGrant(action + "=") == ParseGrant(action) == Grant(action, "")
  {
  }

  lemma {:induction false} ParseGrantsConcat(a: seq<string>, b: seq<string>)
    ensures ParseGrants(a + b) == ParseGrants(a) + ParseGrants(b)
  {
    if a == [] {
      assert a + b == b;
    } else {
      assert (a + b)[1..] == a[1..] + b;
      ParseGrantsConcat(a[1..], b);
    }
  }

  lemma {:induction false} ParsedGrantIsListed(raw: seq<string>, s: string)
    requires s in raw && ParseGrant(s).action != ""
    ensures ParseGrant(s) in ParseGrants(raw)
  {
    if raw[0] != s { ParsedGrantIsListed(raw[1..], s); }
  }

  lemma {:induction false} ListedGrantWasParsed(raw: seq<string>, g: Grant) returns (s: string)
    requires g in ParseGrants(raw)
    ensures s in raw && ParseGrant(s) == g && g.action != ""
  {
    if ParseGrant(raw[0]) == g && g.action != "" {
      s := raw[0];
    } else {
      s := ListedGrantWasParsed(raw[1..], g);
    }
  }

  // ---------------------------------------------------------------- what a decision means

  /** The grant's text covers the action: the same action, a star, or an action on the
      caller's own blanket list. */
  predicate NamesAction(id: Identity, g: Grant, action: string) {
    g.action == action || g.action == "*" || (g.action != "" && id.blanket.Some? && g.action in id.blanket.value)
  }

  /** An action is held exactly when some grant names it, the star or a blanket action.
      In particular no other action covers it, were it a prefix or an extension. */
  lemma HeldActions(id: Identity, action: string)
    ensures HasAction(id, action) <==> action != "" && exists g :: g in id.grants && NamesAction(id, g, action)
  {
    assert forall g: Grant :: ActionCovers(id.BlanketActions(), g.action, action) <==> NamesAction(id, g, action);
  }

  /** An action is allowed on a resource exactly when the resource parses and some grant
      names the action, with no pattern or with one that expands to the resource. */
  lemma AllowedActions(id: Identity, action: string, resource: string)
    ensures Allows(id, action, resource) <==>
      ( && action != "" && Parse(resource).Ok?
        && exists g :: g in id.grants && NamesAction(id, g, action) && GrantExpands(g, resource))
  {
    if Parse(resource).Ok? {
      forall g ensures Reaches(g, Parse(resource).value) <==> GrantExpands(g, resource) {
        ReachIsExpansion(g, resource);
      }
    }
    hide Parse, GrantExpands, Reaches;
    assert forall g: Grant :: ActionCovers(id.BlanketActions(), g.action, action) <==> NamesAction(id, g, action);
  }

  /** A caller whose grants name neither the action, nor the star, nor a blanket action can
      do nothing with it, whatever its grants begin with or are confined to. */
  lemma UnnamedActionIsRefused(id: Identity, action: string, resource: string)
    requires forall g :: g in id.grants ==> !NamesAction(id, g, action)
    ensures !HasAction(id, action) && !Allows(id, action, resource)
  {
    HeldActions(id, action);
    AllowedActions(id, action, resource);
    hide HasAction, Allows, NamesAction, GrantExpands;
  }

  /** The resource side of a grant, on the raw strings. */
  ghost predicate GrantExpands(g: Grant, resource: string) {
    g.resource == "" || (ParsePattern(g.resource).Ok? && MrnMeaning.Expands(g.resource, resource, 4))
  }

  lemma ReachIsExpansion(g: Grant, resource: string)
    requires Parse(resource).Ok?
    ensures Reaches(g, Parse(resource).value) <==> GrantExpands(g, resource)
  {
    if g.resource != "" && ParsePattern(g.resource).Ok? { MrnMeaning.MatchMeansExpansion(g.resource, resource); }
    hide ParsePattern, Parse, MrnMeaning.Expands, Matches;
  }

  // ---------------------------------------------------------------- lists of grants

  /** Only which grants are held matters, neither their order nor their number. */
  lemma OrderIsIrrelevant(id: Identity, grants: seq<Grant>, action: string, resource: string)
    requires forall g :: g in grants <==> g in id.grants
    ensures Allows(id.(grants := grants), action, resource) == Allows(id, action, resource)
    ensures HasAction(id.(grants := grants), action) == HasAction(id, action)
  {
  }

  /** Holding two lists is holding either. */
  lemma ConcatIsUnion(id: Identity, a: seq<Grant>, b: seq<Grant>, action: string, resource: string)
    ensures Allows(id.(grants := a + b), action, resource)
         == (Allows(id.(grants := a), action, resource) || Allows(id.(grants := b), action, resource))
    ensures HasAction(id.(grants := a + b), action)
         == (HasAction(id.(grants := a), action) || HasAction(id.(grants := b), action))
  {
  }

  /** More grants never take a permission away. */
  lemma MoreGrantsAllowMore(id: Identity, grants: seq<Grant>, action: string, resource: string)
    requires forall g :: g in id.grants ==> g in grants
    ensures Allows(id, action, resource) ==> Allows(id.(grants := grants), action, resource)
    ensures HasAction(id, action) ==> HasAction(id.(grants := grants), action)
  {
  }

  /** For resource decisions a grant whose pattern does not parse might as well not be there. */
  lemma MalformedIsAbsent(id: Identity, a: seq<Grant>, g: Grant, b: seq<Grant>, action: string, resource: string)
    requires g.resource != "" && ParsePattern(g.resource).Err?
    ensures Allows(id.(grants := a + [g] + b), action, resource) == Allows(id.(grants := a + b), action, resource)
  {
  }

  /** For action decisions it counts like any other: dropping a grant, whatever its
      resource, goes unnoticed exactly when the action is empty, the rest covers it too, or
      the grant did not cover it. */
  lemma ActionIgnoresResource(id: Identity, a: seq<Grant>, g: Grant, b: seq<Grant>, action: string)
    ensures HasAction(id.(grants := a + [g] + b), action) == HasAction(id.(grants := a + b), action)
       <==> ( || action == ""
              || HasAction(id.(grants := a + b), action)
              || !NamesAction(id, g, action))
  {
    assert forall x :: x in a + [g] + b <==> x in a + b || x == g;
  }

  // ---------------------------------------------------------------- bare grants

  /** mrn:<service>:*:*:* */
  function StarPattern(service: string): string {
    "mrn:" + service + ":*:*:*"
  }

  lemma StarPatternParses(service: string)
    requires service != "" && ValidHead(service)
    ensures ParsePattern(StarPattern(service)) == Ok(Pattern(service, "*", "*", "*"))
  {
    var p := Pattern(service, "*", "*", "*");
    assert PatternString(p) == StarPattern(service) by {
      assert ("*" + ":" + ("*" + ":" + "*")) == "*:*:*";
      assert service + ":" + "*:*:*" == service + ":*:*:*";
      assert "mrn:" + (service + ":*:*:*") == "mrn:" + service + ":*:*:*";
    }
    MrnText.ParsePatternPrint(PatternString(p), p);
  }

  /** A bare grant decides exactly as the pattern with every segment wild. */
  lemma BareIsAllStars(id: Identity, a: seq<Grant>, action: string, b: seq<Grant>, required: string, resource: string)
    ensures Allows(id.(grants := a + [Grant(action, "")] + b), required, resource)
         == Allows(id.(grants := a + [Grant(action, StarPattern("*"))] + b), required, resource)
  {
    var stars := StarPattern("*");
    StarPatternParses("*");
    LoneBareIsAllStars(id, action, stars, required, resource);
    AroundConcat(id, a, [Grant(action, "")], b, required, resource);
    AroundConcat(id, a, [Grant(action, stars)], b, required, resource);
  }

  lemma AroundConcat(id: Identity, a: seq<Grant>, m: seq<Grant>, b: seq<Grant>, action: string, resource: string)
    ensures Allows(id.(grants := a + m + b), action, resource)
         == (Allows(id.(grants := a), action, resource) || Allows(id.(grants := m), action, resource)
             || Allows(id.(grants := b), action, resource))
  {
  }

  lemma LoneBareIsAllStars(id: Identity, action: string, stars: string, required: string, resource: string)
    requires ParsePattern(stars) == Ok(Pattern("*", "*", "*", "*"))
    ensures Allows(id.(grants := [Grant(action, "")]), required, resource)
         == Allows(id.(grants := [Grant(action, stars)]), required, resource)
  {
  }

  /** The form the documentation equates a bare grant with, mrn:<service>:*:*:*, agrees
      with it on that service's resources and on no others. */
  lemma BareIsNotServiceWide(id: Identity, action: string, service: string, required: string, resource: string)
    requires service != "" && ValidSegment(service)
    requires Allows(id.(grants := [Grant(action, "")]), required, resource)
    ensures Allows(id.(grants := [Grant(action, StarPattern(service))]), required, resource)
       <==> Parse(resource).value.service == service
  {
    StarPatternParses(service);
    var narrow := [Grant(action, StarPattern(service))];
    assert narrow[0] in narrow;
    assert Reaches(narrow[0], Parse(resource).value) <==> Parse(resource).value.service == service by {
      assert service == "*" ==> !IsSegmentChar(service[0]);
    }
  }

  // ---------------------------------------------------------------- actions and resources

  /** A resource decision is always backed by the bare action. */
  lemma AllowsNeedsAction(id: Identity, action: string, resource: string)
    requires Allows(id, action, resource)
    ensures HasAction(id, action)
  {
  }

  /** A grant that can reach something: bare, or with a pattern that parses. */
  predicate Evaluable(g: Grant) { g.resource == "" || ParsePattern(g.resource).Ok? }

  /** An action is usable on some resource exactly when an evaluable grant covers it. */
  lemma SomeResourceIsAllowed(id: Identity, action: string)
    requires action != ""
    ensures (exists r: string :: Allows(id, action, r))
       <==> exists g :: g in id.grants && NamesAction(id, g, action) && Evaluable(g)
  {
    if r: string :| Allows(id, action, r) {
      var g :| g in id.grants && ActionCovers(id.BlanketActions(), g.action, action) && Reaches(g, Parse(r).value);
      assert Evaluable(g);
    }
    if g :| g in id.grants && ActionCovers(id.BlanketActions(), g.action, action) && Evaluable(g) {
      StarPatternParses("*");
      var pattern := if g.resource == "" then StarPattern("*") else g.resource;
      var r := MrnCanon.EveryPatternMatchesSomething(pattern);
      assert Reaches(g, Parse(r).value);
      assert Allows(id, action, r);
    }
  }

  /** Tenant isolation: a caller whose every grant is confined to one tenant reaches
      nothing outside it, whatever its actions, blanket ones included. */
  lemma TenantIsolation(id: Identity, tenant: string, action: string, resource: string)
    requires tenant != "*"
    requires forall g :: g in id.grants ==> g.resource != ""
    requires forall g :: g in id.grants && ParsePattern(g.resource).Ok? ==>
      ParsePattern(g.resource).value.tenant == tenant
    requires Allows(id, action, resource)
    ensures Parse(resource).value.tenant == tenant
  {
  }

  /** Replacing a pattern, anywhere in a list, by one that includes it never takes a
      permission away. */
  lemma WiderPatternAllowsMore(id: Identity, a: seq<Grant>, action: string, wide: string, narrow: string,
                               b: seq<Grant>, required: string, resource: string)
    requires ParsePattern(wide).Ok? && ParsePattern(narrow).Ok? && MrnCanon.Includes(wide, narrow)
    requires Allows(id.(grants := a + [Grant(action, narrow)] + b), required, resource)
    ensures Allows(id.(grants := a + [Grant(action, wide)] + b), required, resource)
  {
    AroundConcat(id, a, [Grant(action, narrow)], b, required, resource);
    AroundConcat(id, a, [Grant(action, wide)], b, required, resource);
    if Allows(id.(grants := [Grant(action, narrow)]), required, resource) {
      LoneWiderPattern(id, action, wide, narrow, required, resource);
    }
  }

  lemma LoneWiderPattern(id: Identity, action: string, wide: string, narrow: string, required: string, resource: string)
    requires ParsePattern(wide).Ok? && ParsePattern(narrow).Ok? && MrnCanon.Includes(wide, narrow)
    requires Allows(id.(grants := [Grant(action, narrow)]), required, resource)
    ensures Allows(id.(grants := [Grant(action, wide)]), required, resource)
  {
    var w := [Grant(action, wide)];
    assert narrow != "" by { assert !(PREFIX <= ""); }
    assert MatchPattern(narrow, resource) == Ok(true);
    assert MatchPattern(wide, resource) == Ok(true);
    assert w[0] in w && Reaches(w[0], Parse(resource).value);
  }
}
