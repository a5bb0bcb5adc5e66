/** The surface guard: one decision ladder for every transport. */
module Guards {
  import opened Strings
  import opened Grants
  import opened Principals
  import opened Surfaces

  datatype Mode = Enforced | DevOpen | Unavailable

  datatype DenyCode = AuthUnavailable | MissingToken | InvalidToken | UnmappedSurface | Insufficient | ActorKindDenied

  datatype GrpcCode = GrpcUnavailable | Unauthenticated | PermissionDenied

  datatype Denial = Denial(httpStatus: nat, grpc: GrpcCode, code: DenyCode)

  const UNAVAILABLE := Denial(503, GrpcUnavailable, AuthUnavailable)
  const NO_TOKEN := Denial(401, Unauthenticated, MissingToken)
  const BAD_TOKEN := Denial(401, Unauthenticated, InvalidToken)
  const UNMAPPED := Denial(403, PermissionDenied, UnmappedSurface)
  const WRONG_ACTOR := Denial(403, PermissionDenied, ActorKindDenied)
  const NOT_ENOUGH := Denial(403, PermissionDenied, Insufficient)

  /** `hasVerifier` is Verify != nil; what the verifier answers is an input of each check.
      The resolver answers None where the code's answers ok=false. */
  datatype Guard = Guard(
    mode: Mode,
    hasVerifier: bool,
    permissions: Table,
    resource: Option<Surface -> Option<string>>,
    reason: string)

  /** A verifier answers with an error or with a principal, which may be nil. */
  datatype VerifyAnswer = Rejected | Accepted(principal: Principal?)

  /** What Check returns: (nil, nil) for an exempt surface, else a principal or a denial. */
  datatype Outcome = Outcome(principal: Option<Identity>, denial: Option<Denial>)

  const DEV_OPEN_SUBJECT := "development-open"

  function DevIdentity(g: Guard): Identity {
    Identity(DEV_OPEN_SUBJECT, KIND_SERVICE, "", [WILDCARD], [Grant(WILDCARD, "")], g.permissions.blanketActions)
  }

  /** The table's blanket actions reach a principal that has none of its own (a nil list). */
  function WithBlanket(g: Guard, id: Identity): Identity {
    if id.blanket.None? && |g.permissions.BlanketActions()| > 0
    then id.(blanket := g.permissions.blanketActions) else id
  }

  /** The resource the resolver names for a surface, if there is a resolver and it names one. */
  function Target(g: Guard, s: Surface): Option<string> {
    if g.resource.Some? then g.resource.value(s) else None
  }

  /** The permission question, asked of the resource where one is known. */
  predicate Passes(g: Guard, s: Surface, id: Identity, required: string) {
    || required == ""
    || (match Target(g, s)
        case Some(resource) => Allows(id, required, resource)
        case None => HasAction(id, required))
  }

  /** The outcome as a function of the guard, the request and the verifier's answer
      (None when it rejected the token or answered without a principal). */
  function Decide(g: Guard, token: string, s: Surface, verified: Option<Identity>): Outcome {
    if IsExempt(g.permissions, s) then Outcome(None, None)
    else match g.mode
      case DevOpen => Outcome(Some(DevIdentity(g)), None)
      case Unavailable => Outcome(None, Some(UNAVAILABLE))
      case Enforced =>
        if !g.hasVerifier then Outcome(None, Some(UNAVAILABLE))
        else if token == "" then Outcome(None, Some(NO_TOKEN))
        else if verified.None? then Outcome(None, Some(BAD_TOKEN))
        else DecideRule(g, s, WithBlanket(g, verified.value), Resolve(g.permissions, s))
  }

  function DecideRule(g: Guard, s: Surface, id: Identity, rule: Option<Rule>): Outcome {
    if rule.None? then Outcome(None, Some(UNMAPPED))
    else if !Permits(rule.value.actor, id.kind) then Outcome(None, Some(WRONG_ACTOR))
    else if !Passes(g, s, id, rule.value.permission) then Outcome(None, Some(NOT_ENOUGH))
    else Outcome(Some(id), None)
  }

  function ViewOf(p: Principal?): Option<Identity>
    reads p
  {
    if p == null then None else Some(p.View())
  }

  function AnswerView(answer: VerifyAnswer): Option<Identity>
    reads if answer.Accepted? then {answer.principal} else {}
  {
    if answer.Accepted? then ViewOf(answer.principal) else None
  }

  method DevPrincipal(g: Guard) returns (p: Principal)
    ensures fresh(p) && p.View() == DevIdentity(g)
  {
    p := new Principal(DEV_OPEN_SUBJECT, KIND_SERVICE, "", [WILDCARD], [Grant(WILDCARD, "")],
                       g.permissions.blanketActions);
  }

  /** One request. It writes to no object that existed before the call: the principal it
      returns is the verifier's own, untouched, or a new one. */
  method Check(g: Guard, token: string, s: Surface, answer: VerifyAnswer)
    returns (p: Principal?, denial: Option<Denial>)
    ensures Outcome(ViewOf(p), denial) == Decide(g, token, s, AnswerView(answer))
    ensures p != null ==> fresh(p) || (answer.Accepted? && p == answer.principal)
  {
    hide IsExempt, Resolve, Permits, Allows, HasAction;
    var exempt := CheckExempt(g.permissions, s);
    if exempt { return null, None; }
    match g.mode {
      case DevOpen =>
        p := DevPrincipal(g);
        return p, None;
      case Unavailable =>
        return null, Some(UNAVAILABLE);
      case Enforced =>
    }
    if !g.hasVerifier { return null, Some(UNAVAILABLE); }
    if token == "" { return null, Some(NO_TOKEN); }
    if answer.Rejected? || answer.principal == null { return null, Some(BAD_TOKEN); }
    var principal: Principal := answer.principal;
    if principal.blanketActions.None? && |g.permissions.BlanketActions()| > 0 {
      var withBlanket := new Principal(principal.subject, principal.kind, principal.tenant, principal.scopes,
                                       principal.grants, principal.blanketActions);
      withBlanket.blanketActions := g.permissions.blanketActions;
      principal := withBlanket;
    }
    assert principal.View() == WithBlanket(g, answer.principal.View());

    var rule := Resolve(g.permissions, s);
    if rule.None? { return null, Some(UNMAPPED); }
    if !Permits(rule.value.actor, principal.kind) { return null, Some(WRONG_ACTOR); }
    var required := rule.value.permission;
    if required == "" { return principal, None; }
    if g.resource.Some? {
      var target := g.resource.value(s);
      if target.Some? {
        var allowed := CheckAllows(principal, required, target.value);
        if !allowed { return null, Some(NOT_ENOUGH); }
        return principal, None;
      }
    }
    var has := CheckHasAction(principal, required);
    if !has { return null, Some(NOT_ENOUGH); }
    return principal, None;
  }

  datatype Request = Request(token: string, surface: Surface)

  /** Any run of checks over one shared principal, as a caching verifier hands it out: the
      object keeps its fields throughout, so each outcome depends on its own request only. */
  method CheckAll(g: Guard, requests: seq<Request>, shared: Principal) returns (outcomes: seq<Outcome>)
    ensures shared.View() == old(shared.View())
    ensures |outcomes| == |requests|
    ensures forall i :: 0 <= i < |requests| ==>
      outcomes[i] == Decide(g, requests[i].token, requests[i].surface, Some(shared.View()))
  {
    hide Decide;
    outcomes := [];
    for i := 0 to |requests|
      invariant |outcomes| == i
      invariant forall j :: 0 <= j < i ==>
        outcomes[j] == Decide(g, requests[j].token, requests[j].surface, Some(shared.View()))
    {
      var p, denial := Check(g, requests[i].token, requests[i].surface, Accepted(shared));
      outcomes := outcomes + [Outcome(if p == null then None else Some(p.View()), denial)];
    }
  }
}

/** Startup: which posture a configuration gives a guard. */
module Startup {
  import opened Strings
  import opened Surfaces
  import opened Guards

  datatype Config = Config(jwksUrl: string, issuer: string, audience: string, development: bool)

  const ENV_JWKS_URL := "AUTH_JWKS_URL"
  const ENV_ISSUER := "AUTH_ISSUER"
  const ENV_AUDIENCE := "AUTH_AUDIENCE"

  /** All three settings are there, white space aside. */
  predicate FullyConfigured(cfg: Config) {
    TrimSpace(cfg.jwksUrl) != "" && TrimSpace(cfg.issuer) != "" && TrimSpace(cfg.audience) != ""
  }

  lemma NoneIsBlank(cfg: Config)
    ensures FullyConfigured(cfg) <==> !Blank(cfg.jwksUrl) && !Blank(cfg.issuer) && !Blank(cfg.audience)
  {
    TrimSpaceEmpties(cfg.jwksUrl);
    TrimSpaceEmpties(cfg.issuer);
    TrimSpaceEmpties(cfg.audience);
    hide TrimSpace, Blank;
  }

  /** A guard with the posture the ladder gives this configuration; the service may have
      added a resource resolver since. */
  ghost predicate Built(cfg: Config, t: Table, g: Guard) {
    && g.permissions == t
    && g.hasVerifier == FullyConfigured(cfg)
    && g.mode == if FullyConfigured(cfg) then Enforced else if cfg.development then DevOpen else Unavailable
  }

  datatype Setting = JwksUrl | Issuer | Audience

  function Variable(setting: Setting): string {
    match setting
    case JwksUrl => ENV_JWKS_URL
    case Issuer => ENV_ISSUER
    case Audience => ENV_AUDIENCE
  }

  function Variables(settings: seq<Setting>): (names: seq<string>)
    ensures |names| == |settings|
  {
    seq(|settings|, i requires 0 <= i < |settings| => Variable(settings[i]))
  }

  /** The order in which an operator is told of them. */
  function Rank(setting: Setting): nat {
    match setting
    case JwksUrl => 0
    case Issuer => 1
    case Audience => 2
  }

  /** Exactly the blank settings, each once, in the fixed order. */
  ghost predicate ListsBlanks(settings: seq<Setting>, jwks: string, issuer: string, audience: string) {
    && (JwksUrl in settings <==> jwks == "")
    && (Issuer in settings <==> issuer == "")
    && (Audience in settings <==> audience == "")
    && (forall i, j :: 0 <= i < j < |settings| ==> Rank(settings[i]) < Rank(settings[j]))
  }

  ghost predicate TellsOfBlanks(reason: string, jwks: string, issuer: string, audience: string) {
    exists settings :: ListsBlanks(settings, jwks, issuer, audience)
                    && reason == Join(Variables(settings), ", ") + " not set"
  }

  /** How the reasons read. */
  lemma ReasonsSpelled(settings: seq<Setting>)
    ensures settings == [JwksUrl] ==> Join(Variables(settings), ", ") == "AUTH_JWKS_URL"
    ensures settings == [Issuer] ==> Join(Variables(settings), ", ") == "AUTH_ISSUER"
    ensures settings == [Audience] ==> Join(Variables(settings), ", ") == "AUTH_AUDIENCE"
  {
  }

  /** Nothing to say when all three settings are there; otherwise exactly the blank ones. */
  method MissingReason(jwks: string, issuer: string, audience: string) returns (reason: string)
    ensures reason == "" <==> jwks != "" && issuer != "" && audience != ""
    ensures reason != "" ==> TellsOfBlanks(reason, jwks, issuer, audience)
  {
    hide Join, Variable;
    var missing: seq<string> := [];
    if jwks == "" { missing := missing + [Variable(JwksUrl)]; }
    if issuer == "" { missing := missing + [Variable(Issuer)]; }
    if audience == "" { missing := missing + [Variable(Audience)]; }
    ghost var blank := (if jwks == "" then [JwksUrl] else []) + (if issuer == "" then [Issuer] else [])
                     + (if audience == "" then [Audience] else []);
    assert ListsBlanks(blank, jwks, issuer, audience);
    assert missing == Variables(blank);
    if |missing| == 0 { return ""; }
    return Join(missing, ", ") + " not set";
  }

  /** `prepared` is whether the verifier for a full configuration could be built. The only
      failure is a full configuration that cannot be used. */
  method ResolveGuard(cfg: Config, t: Table, prepared: bool) returns (r: Option<Guard>)
    ensures var full := !Blank(cfg.jwksUrl) && !Blank(cfg.issuer) && !Blank(cfg.audience);
      && (r.None? <==> full && !prepared)
      && (r.Some? ==>
           && (r.value.mode == Enforced <==> full)
           && (r.value.mode == DevOpen <==> !full && cfg.development)
           && (r.value.mode == Unavailable <==> !full && !cfg.development)
           && (r.value.hasVerifier <==> full)
           && (r.value.reason == "" <==> full)
           && r.value.permissions == t && r.value.resource.None?)
    ensures r.Some? ==> Built(cfg, t, r.value)
    ensures r.Some? && r.value.reason != "" ==>
      TellsOfBlanks(r.value.reason, TrimSpace(cfg.jwksUrl), TrimSpace(cfg.issuer), TrimSpace(cfg.audience))
  {
    NoneIsBlank(cfg);
    hide Blank;
    var g := Guard(Enforced, false, t, None, "");
    var jwks := TrimSpace(cfg.jwksUrl);
    var issuer := TrimSpace(cfg.issuer);
    var audience := TrimSpace(cfg.audience);
    if jwks != "" && issuer != "" && audience != "" {
      if !prepared { return None; }
      g := g.(mode := Enforced);
      g := g.(hasVerifier := true);
      return Some(g);
    }
    var reason := MissingReason(jwks, issuer, audience);
    g := g.(reason := reason);
    if cfg.development {
      g := g.(mode := DevOpen);
      return Some(g);
    }
    g := g.(mode := Unavailable);
    return Some(g);
  }
}

/** End-to-end laws of the guard. */
module GuardLaws {
  import opened Strings
  import opened Grants
  import opened GrantLaws
  import opened Principals
  import opened ClaimLaws
  import opened Surfaces
  import opened DeclarationLaws
  import opened PathLaws
  import opened RuleLaws
  import opened Guards
  import opened Startup
  import opened MrnMeaning
  import Mrn

  /** A request that reaches the verifier: guarded surface, enforcing guard, some token. */
  predicate ReachesVerifier(g: Guard, token: string, s: Surface) {
    !IsExempt(g.permissions, s) && g.mode == Enforced && g.hasVerifier && token != ""
  }

  /** Let through untouched iff exempt; otherwise exactly one of principal and denial. */
  lemma ExactlyOneOutcome(g: Guard, token: string, s: Surface, verified: Option<Identity>)
    ensures var o := Decide(g, token, s, verified);
      && (o == Outcome(None, None) <==> IsExempt(g.permissions, s))
      && (!IsExempt(g.permissions, s) ==> (o.principal.Some? <==> o.denial.None?))
  {
    hide IsExempt, Resolve, Passes, Permits;
  }

  /** Outside development a principal comes out exactly when the three settings are there,
      the verifier accepted the token, the surface is mapped, the caller's class is
      permitted and the permission question is answered yes. */
  lemma AdmissionOutsideDevelopment(cfg: Config, t: Table, g: Guard, token: string, s: Surface,
                                    verified: Option<Identity>)
    requires Built(cfg, t, g) && !cfg.development
    ensures Decide(g, token, s, verified).principal.Some? <==>
      ( && !IsExempt(t, s)
        && !Blank(cfg.jwksUrl) && !Blank(cfg.issuer) && !Blank(cfg.audience)
        && token != ""
        && verified.Some?
        && Resolve(t, s).Some?
        && Permits(Resolve(t, s).value.actor, verified.value.kind)
        && Passes(g, s, WithBlanket(g, verified.value), Resolve(t, s).value.permission))
  {
    NoneIsBlank(cfg);
    hide IsExempt, Resolve, Passes, Permits, Blank, FullyConfigured;
  }

  /** Development without a full configuration is the only way in without a verifier. */
  lemma UnverifiedOnlyInDevelopment(cfg: Config, t: Table, g: Guard, token: string, s: Surface)
    requires Built(cfg, t, g)
    ensures Decide(g, token, s, None).principal.Some?
       <==> cfg.development && (Blank(cfg.jwksUrl) || Blank(cfg.issuer) || Blank(cfg.audience)) && !IsExempt(t, s)
  {
    NoneIsBlank(cfg);
    hide Blank, FullyConfigured;
    hide IsExempt, Resolve, Passes, Permits;
  }

  /** Each denial code has one cause. In particular a wrong-class caller is told so before
      any permission is looked at. */
  lemma DenialCauses(g: Guard, token: string, s: Surface, verified: Option<Identity>, code: DenyCode)
    ensures var o, rule := Decide(g, token, s, verified), Resolve(g.permissions, s);
      var live := ReachesVerifier(g, token, s);
      (o.denial.Some? && o.denial.value.code == code) <==>
        match code
        case AuthUnavailable =>
          !IsExempt(g.permissions, s) && (g.mode == Unavailable || (g.mode == Enforced && !g.hasVerifier))
        case MissingToken => !IsExempt(g.permissions, s) && g.mode == Enforced && g.hasVerifier && token == ""
        case InvalidToken => live && verified.None?
        case UnmappedSurface => live && verified.Some? && rule.None?
        case ActorKindDenied =>
          live && verified.Some? && rule.Some? && !Permits(rule.value.actor, verified.value.kind)
        case Insufficient =>
          live && verified.Some? && rule.Some? && Permits(rule.value.actor, verified.value.kind)
          && !Passes(g, s, WithBlanket(g, verified.value), rule.value.permission)
  {
    hide IsExempt, Resolve, Passes, Permits;
  }

  /** What the two transports are told with each code. */
  lemma DenialStatuses(g: Guard, token: string, s: Surface, verified: Option<Identity>)
    requires Decide(g, token, s, verified).denial.Some?
    ensures var d := Decide(g, token, s, verified).denial.value;
      && (d.code == AuthUnavailable ==> d.httpStatus == 503 && d.grpc == GrpcUnavailable)
      && (d.code in {MissingToken, InvalidToken} ==> d.httpStatus == 401 && d.grpc == Unauthenticated)
      && (d.code in {UnmappedSurface, ActorKindDenied, Insufficient} ==>
           d.httpStatus == 403 && d.grpc == PermissionDenied)
  {
    hide IsExempt, Resolve, Passes, Permits;
  }

  /** The identity that comes out is the verified one; only a nil blanket list is filled in. */
  lemma AdmittedIdentity(g: Guard, token: string, s: Surface, verified: Option<Identity>)
    requires g.mode == Enforced && Decide(g, token, s, verified).principal.Some?
    ensures verified.Some?
    ensures var id, given := Decide(g, token, s, verified).principal.value, verified.value;
      && id == given.(blanket := id.blanket)
      && (given.blanket.Some? ==> id.blanket == given.blanket)
      && (given.blanket.None? ==> id.BlanketActions() == g.permissions.BlanketActions())
  {
    hide IsExempt, Resolve, Passes, Permits;
  }

  /** Without enforcement in development every guarded request, token or not, comes out as
      one service by the name "development-open", which may do everything that can be asked. */
  lemma DevelopmentAllowsAll(g: Guard, token: string, s: Surface, verified: Option<Identity>, action: string,
                             resource: string)
    requires g.mode == DevOpen && !IsExempt(g.permissions, s)
    ensures Decide(g, token, s, verified).denial.None? && Decide(g, token, s, verified).principal.Some?
    ensures var id := Decide(g, token, s, verified).principal.value;
      && id.subject == "development-open" && id.kind == "service" && id.tenant == "" && id.scopes == ["*"]
      && id.blanket == g.permissions.blanketActions
      && (HasAction(id, action) <==> action != "")
      && (Allows(id, action, resource) <==> action != "" && Mrn.Parse(resource).Ok?)
  {
    hide IsExempt, Resolve, Passes, Permits, Mrn.Parse;
    var grant := Grant("*", "");
    assert DevIdentity(g).grants[0] == grant;
  }

  /** A constrained surface admits its own class only, and a caller that could not be
      classified passes nothing but the surface that asks no question. */
  lemma ActorClasses(actor: Actor, kind: string)
    ensures Permits(actor, "user") <==> actor != ServiceOnly
    ensures Permits(actor, "service") <==> actor != UserOnly
    ensures kind != "user" && kind != "service" ==> (Permits(actor, kind) <==> actor == AnyActor)
  {
    assert KIND_USER[0] != KIND_SERVICE[0];
  }

  /** The class named beside a gRPC method binds: a caller of another class is refused with
      the distinct code whatever it holds, and a method without one takes every class. */
  lemma MethodActorBinds(g: Guard, token: string, s: Surface, id: Identity)
    requires ReachesVerifier(g, token, s) && s.IsGrpc() && s.fullMethod in g.permissions.methods
    ensures var actors := g.permissions.methodActors;
      Decide(g, token, s, Some(id)).denial == Some(WRONG_ACTOR)
      <==> s.fullMethod in actors && !Permits(actors[s.fullMethod], id.kind)
  {
    hide ReachesVerifier, Decide, Permits, Resolve;
    MethodRule(g.permissions, s, id.kind);
    ActorDenial(g, token, s, id);
  }

  lemma ActorDenial(g: Guard, token: string, s: Surface, id: Identity)
    requires ReachesVerifier(g, token, s) && Resolve(g.permissions, s).Some?
    ensures Decide(g, token, s, Some(id)).denial == Some(WRONG_ACTOR)
       <==> !Permits(Resolve(g.permissions, s).value.actor, id.kind)
  {
    hide IsExempt, Passes, Permits, Resolve, WithBlanket;
    BlanketOnly(g, id);
  }

  lemma BlanketOnly(g: Guard, id: Identity)
    ensures WithBlanket(g, id).kind == id.kind && WithBlanket(g, id).grants == id.grants
  {
  }

  lemma MethodRule(t: Table, s: Surface, kind: string)
    requires s.IsGrpc() && s.fullMethod in t.methods
    ensures Resolve(t, s).Some?
    ensures !Permits(Resolve(t, s).value.actor, kind)
       <==> s.fullMethod in t.methodActors && !Permits(t.methodActors[s.fullMethod], kind)
  {
    hide ExactKey, RouteKey;
  }

  /** A surface for one class refuses the others with the distinct code, whatever they hold:
      no token is of no class, and none passes both as a human and as a service. */
  lemma ClaimedClassBinds(g: Guard, token: string, s: Surface, raw: RawClaims)
    requires ReachesVerifier(g, token, s) && Resolve(g.permissions, s).Some?
    ensures var actor := Resolve(g.permissions, s).value.actor;
      Decide(g, token, s, Some(IdentityOf(ClaimsOf(raw)))).denial == Some(WRONG_ACTOR)
      <==> actor == (if SaysHuman(raw) then ServiceOnly else UserOnly)
  {
    hide ReachesVerifier, Decide, Permits, Resolve, ActorKind, IdentityOf, ClaimsOf, SaysHuman;
    KindIsSaid(raw);
    ActorClasses(Resolve(g.permissions, s).value.actor, ActorKind(raw));
    ClaimedIdentity(g, raw);
    ActorDenial(g, token, s, IdentityOf(ClaimsOf(raw)));
  }

  // ---------------------------------------------------------------- what is asked of whom

  /** The question a mapped surface puts to a verified caller: its class first, then nothing
      where no permission is demanded. */
  lemma NothingDemanded(g: Guard, token: string, s: Surface, id: Identity)
    requires ReachesVerifier(g, token, s)
    requires Resolve(g.permissions, s).Some? && Resolve(g.permissions, s).value.permission == ""
    ensures Decide(g, token, s, Some(id)).principal.Some? <==> Permits(Resolve(g.permissions, s).value.actor, id.kind)
  {
    BlanketOnly(g, id);
    hide IsExempt, Resolve, Permits, WithBlanket, Allows, HasAction;
  }

  /** Where the service's resolver names a resource, on either transport, the caller gets in
      exactly when it is allowed the permission on that very resource. */
  lemma ResolverDecides(g: Guard, token: string, s: Surface, id: Identity, resource: string)
    requires ReachesVerifier(g, token, s)
    requires Resolve(g.permissions, s).Some? && Resolve(g.permissions, s).value.permission != ""
    requires g.resource.Some? && g.resource.value(s) == Some(resource)
    ensures var rule := Resolve(g.permissions, s).value;
      Decide(g, token, s, Some(id)).principal.Some?
      <==> Permits(rule.actor, id.kind) && Allows(WithBlanket(g, id), rule.permission, resource)
  {
    BlanketOnly(g, id);
    hide IsExempt, Resolve, Permits, WithBlanket, Allows, HasAction;
  }

  /** Where there is no resolver, or it names none, holding the action is enough. */
  lemma ActionDecides(g: Guard, token: string, s: Surface, id: Identity)
    requires ReachesVerifier(g, token, s)
    requires Resolve(g.permissions, s).Some? && Resolve(g.permissions, s).value.permission != ""
    requires g.resource.Some? ==> g.resource.value(s).None?
    ensures var rule := Resolve(g.permissions, s).value;
      Decide(g, token, s, Some(id)).principal.Some?
      <==> Permits(rule.actor, id.kind) && HasAction(WithBlanket(g, id), rule.permission)
  {
    BlanketOnly(g, id);
    hide IsExempt, Resolve, Permits, WithBlanket, Allows, HasAction;
  }

  /** Reading needs the read half of a segment pair and writing the write half: whoever is
      admitted to a GET or HEAD is of the class and holds the permission of the one, whoever
      is admitted to any other method those of the other. */
  lemma ReadersAndWriters(g: Guard, token: string, path: string, httpMethod: string, id: Identity, p: Perms)
    requires ReachesVerifier(g, token, Surface(path, httpMethod, "")) && g.resource.None?
    requires ExactKey(httpMethod, path) !in g.permissions.exact
    requires g.permissions.routeKey.None?
    requires var route := FirstSegment(g.permissions.prefix, path);
      route in g.permissions.routes && g.permissions.routes[route] == p
    requires p.read != "" && p.write != ""
    ensures var admitted := Decide(g, token, Surface(path, httpMethod, ""), Some(id)).principal.Some?;
      && (httpMethod in {"GET", "HEAD"} ==>
           (admitted <==> Permits(p.readActor, id.kind) && HasAction(WithBlanket(g, id), p.read)))
      && (httpMethod !in {"GET", "HEAD"} ==>
           (admitted <==> Permits(p.writeActor, id.kind) && HasAction(WithBlanket(g, id), p.write)))
  {
    hide ReachesVerifier, Decide, Resolve, Permits, HasAction, WithBlanket, ExactKey, FirstSegment;
    SegmentRules(g.permissions, path, httpMethod, p);
    ActionDecides(g, token, Surface(path, httpMethod, ""), id);
  }

  // ---------------------------------------------------------------- tightening and monotonicity

  /** A resolver only tightens: whoever passes with one passes without, as the same principal. */
  lemma ResolverOnlyTightens(g: Guard, token: string, s: Surface, verified: Option<Identity>)
    requires Decide(g, token, s, verified).principal.Some?
    ensures Decide(g.(resource := None), token, s, verified) == Decide(g, token, s, verified)
  {
    hide IsExempt, Resolve, Permits, Allows, HasAction;
    if ReachesVerifier(g, token, s) {
      var id := WithBlanket(g, verified.value);
      var required := Resolve(g.permissions, s).value.permission;
      var target := Target(g, s);
      if required != "" && target.Some? { AllowsNeedsAction(id, required, target.value); }
    }
  }

  /** More grants never turn an admission into a denial. */
  lemma MoreGrantsStayAdmitted(g: Guard, token: string, s: Surface, id: Identity, grants: seq<Grant>)
    requires forall x :: x in id.grants ==> x in grants
    requires Decide(g, token, s, Some(id)).principal.Some?
    ensures Decide(g, token, s, Some(id.(grants := grants))).principal.Some?
  {
    hide IsExempt, Resolve, Permits, Allows, HasAction;
    if ReachesVerifier(g, token, s) {
      var held := WithBlanket(g, id);
      var required := Resolve(g.permissions, s).value.permission;
      assert WithBlanket(g, id.(grants := grants)) == held.(grants := grants);
      var target := Target(g, s);
      MoreGrantsAllowMore(held, grants, required, if target.Some? then target.value else "");
    }
  }

  // ---------------------------------------------------------------- from token text to decision

  /** Everything a token's raw claims list as entitlements, in either claim shape. */
  function Entries(raw: RawClaims): seq<string> { IdentityOf(ClaimsOf(raw)).scopes }

  /** One raw claim entry: it has an action, and that is the one required, the star or a
      blanket one. */
  predicate EntryHolds(blanket: seq<string>, entry: string, required: string) {
    var action := ParseGrant(entry).action;
    action != "" && (action == required || action == "*" || action in blanket)
  }

  /** One raw claim entry, read against one raw resource name: its action covers what is
      required, and what stands behind "=" is nothing or a pattern that expands to the name. */
  ghost predicate EntryPermits(blanket: seq<string>, entry: string, required: string, resource: string) {
    var g := ParseGrant(entry);
    && EntryHolds(blanket, entry, required)
    && GrantExpands(g, resource)
  }

  /** The grants of a claim list allow what one of its entries permits, and nothing else. */
  lemma AllowedByAnEntry(id: Identity, entries: seq<string>, required: string, resource: string)
    requires id.grants == ParseGrants(entries) && required != "" && Mrn.Parse(resource).Ok?
    ensures Allows(id, required, resource)
       <==> exists entry :: entry in entries && EntryPermits(id.BlanketActions(), entry, required, resource)
  {
    hide Mrn.ParsePattern, Mrn.Parse, GrantExpands, ParseGrant, Reaches;
    var target := Mrn.Parse(resource).value;
    if Allows(id, required, resource) {
      var g :| g in id.grants && ActionCovers(id.BlanketActions(), g.action, required) && Reaches(g, target);
      var entry := ListedGrantWasParsed(entries, g);
      ReachIsExpansion(g, resource);
      assert EntryPermits(id.BlanketActions(), entry, required, resource);
    }
    if entry :| entry in entries && EntryPermits(id.BlanketActions(), entry, required, resource) {
      ParsedGrantIsListed(entries, entry);
      ReachIsExpansion(ParseGrant(entry), resource);
      assert ParseGrant(entry) in id.grants;
    }
  }

  /** The action question asked of a claim list: some entry holds the action, with
      whatever stands behind its "=". */
  lemma HeldByAnEntry(id: Identity, entries: seq<string>, required: string)
    requires id.grants == ParseGrants(entries) && required != ""
    ensures HasAction(id, required)
       <==> exists entry :: entry in entries && EntryHolds(id.BlanketActions(), entry, required)
  {
    hide ParseGrant;
    if HasAction(id, required) {
      var g :| g in id.grants && ActionCovers(id.BlanketActions(), g.action, required);
      var entry := ListedGrantWasParsed(entries, g);
      assert EntryHolds(id.BlanketActions(), entry, required);
    }
    if entry :| entry in entries && EntryHolds(id.BlanketActions(), entry, required) {
      ParsedGrantIsListed(entries, entry);
      assert ParseGrant(entry) in id.grants;
    }
  }

  /** One raw entry settles the permission question a surface asks: of its resource where
      one is known, which must then parse, and of the action alone where none is. */
  ghost predicate EntryAnswers(g: Guard, s: Surface, blanket: seq<string>, entry: string, required: string) {
    if g.resource.Some? && g.resource.value(s).Some? then
      var resource := g.resource.value(s).value;
      Mrn.Parse(resource).Ok? && EntryPermits(blanket, entry, required, resource)
    else EntryHolds(blanket, entry, required)
  }

  lemma PassesByAnEntry(g: Guard, s: Surface, id: Identity, entries: seq<string>, required: string)
    requires id.grants == ParseGrants(entries)
    ensures Passes(g, s, id, required)
       <==> || required == ""
            || exists entry :: entry in entries && EntryAnswers(g, s, id.BlanketActions(), entry, required)
  {
    hide HasAction, EntryPermits, EntryHolds;
    if required == "" { return; }
    match Target(g, s) {
      case None => HeldByAnEntry(id, entries, required);
      case Some(resource) =>
        if Mrn.Parse(resource).Ok? { AllowedByAnEntry(id, entries, required, resource); }
        hide Mrn.Parse;
    }
  }

  lemma ClaimedIdentity(g: Guard, raw: RawClaims)
    ensures var id := IdentityOf(ClaimsOf(raw)); var held := WithBlanket(g, id);
      && held.grants == ParseGrants(Entries(raw)) && held.BlanketActions() == g.permissions.BlanketActions()
      && id.kind == ActorKind(raw)
  {
    hide ActorKind, ParseGrants, ClaimsOf;
    assert ClaimsOf(raw).raw == raw by { RawIsKept(raw); }
  }

  lemma RawIsKept(raw: RawClaims)
    ensures ClaimsOf(raw).raw == raw
  {
  }

  /** End to end, outside development: a caller with these raw claims gets in exactly when
      enforcement is fully configured, the surface is guarded and mapped, its class is
      permitted, and the surface demands no permission or some raw entry of its token
      settles the question: it names the permission (or a blanket action), and where a
      resource is known it has no pattern or one that expands to the resource name itself. */
  lemma AdmittedByAnEntry(cfg: Config, t: Table, g: Guard, token: string, s: Surface, raw: RawClaims)
    requires Built(cfg, t, g) && !cfg.development
    ensures Decide(g, token, s, Some(IdentityOf(ClaimsOf(raw)))).principal.Some? <==>
      ( && !IsExempt(t, s) && !Blank(cfg.jwksUrl) && !Blank(cfg.issuer) && !Blank(cfg.audience)
        && token != "" && Resolve(t, s).Some?
        && var rule := Resolve(t, s).value;
        && Permits(rule.actor, ActorKind(raw))
        && (rule.permission == ""
            || exists entry ::
                 entry in Entries(raw) && EntryAnswers(g, s, t.BlanketActions(), entry, rule.permission)))
  {
    var id := IdentityOf(ClaimsOf(raw));
    var held := WithBlanket(g, id);
    ClaimedIdentity(g, raw);
    hide IsExempt, Resolve, Permits, Passes, ActorKind, IdentityOf, ClaimsOf, EntryAnswers, Decide, Entries;
    hide Blank, WithBlanket, ParseGrants;
    AdmissionOutsideDevelopment(cfg, t, g, token, s, Some(id));
    if Resolve(t, s).Some? {
      PassesByAnEntry(g, s, held, Entries(raw), Resolve(t, s).value.permission);
    }
  }

  // ---------------------------------------------------------------- registration and enforcement

  /** A permission name that survives as one entry of a claim list: no "=", no outer white space. */
  predicate WellFormedName(p: string) {
    '=' !in p && TrimSpace(p) == p
  }

  /** A permission name that also survives in a scope string, which splits at white space. */
  predicate ScopeName(p: string) {
    '=' !in p && SpaceFree(p)
  }

  /** The resolver, if it answers, answers with a resource that parses. */
  predicate UsableTarget(g: Guard, s: Surface) {
    g.resource.Some? && g.resource.value(s).Some? ==> Mrn.Parse(g.resource.value(s).value).Ok?
  }

  /** A token listing the one permission a surface demands is never short of permission
      there, as long as the resolver, if it answers, answers with a resource that parses. */
  lemma DemandedPermissionSuffices(g: Guard, token: string, s: Surface, c: Claims)
    requires Resolve(g.permissions, s).Some? ==>
      var p := Resolve(g.permissions, s).value.permission;
      p == "" || (WellFormedName(p) && p in IdentityOf(c).scopes)
    requires UsableTarget(g, s)
    ensures Decide(g, token, s, Some(IdentityOf(c))).denial != Some(NOT_ENOUGH)
  {
    hide IsExempt, Resolve, Permits, ActorKind, TrimSpace;
    var rule := Resolve(g.permissions, s);
    if rule.Some? && rule.value.permission != "" {
      var p := rule.value.permission;
      assert ParseGrant(p) == Grant(p, "");
      ParsedGrantIsListed(IdentityOf(c).scopes, p);
      var id := WithBlanket(g, IdentityOf(c));
      assert Grant(p, "") in id.grants && ActionCovers(id.BlanketActions(), p, p);
      assert Passes(g, s, id, p);
    }
  }

  /** Registration cannot drift from enforcement: a token carrying exactly the declared
      list is never refused for lack of permission, on any surface. */
  lemma DeclaredListSuffices(g: Guard, token: string, s: Surface, c: Claims)
    requires IdentityOf(c).scopes == DeclaredList(g.permissions)
    requires forall p :: p in DeclaredList(g.permissions) ==> WellFormedName(p)
    requires UsableTarget(g, s)
    ensures Decide(g, token, s, Some(IdentityOf(c))).denial != Some(NOT_ENOUGH)
  {
    if Resolve(g.permissions, s).Some? && Resolve(g.permissions, s).value.permission != "" {
      DemandsAreDeclared(g.permissions, s);
    }
    DemandedPermissionSuffices(g, token, s, c);
  }

  /** Exactly when a token that lists the demanded name, among whatever else, passes: the
      name is well formed and the target usable, or an entry that reads back as some other
      action settles the question. */
  lemma ListedPermissionPasses(g: Guard, s: Surface, c: Claims, p: string)
    requires p in IdentityOf(c).scopes && p != ""
    ensures Passes(g, s, WithBlanket(g, IdentityOf(c)), p) <==>
      ( || (WellFormedName(p) && UsableTarget(g, s))
        || exists e :: e in IdentityOf(c).scopes && ParseGrant(e).action != p
             && EntryAnswers(g, s, g.permissions.BlanketActions(), e, p))
  {
    var id, blanket := WithBlanket(g, IdentityOf(c)), g.permissions.BlanketActions();
    assert id.grants == ParseGrants(IdentityOf(c).scopes) && id.BlanketActions() == blanket;
    hide IdentityOf, Passes, EntryAnswers, ParseGrants;
    PassesByAnEntry(g, s, id, IdentityOf(c).scopes, p);
    if WellFormedName(p) {
      WellFormedNameAnswers(g, s, blanket, p);
    } else {
      forall e ensures ParseGrant(e).action != p { OnlyWellFormedNamesAreRead(e); }
    }
    forall e | EntryAnswers(g, s, blanket, e, p) ensures UsableTarget(g, s) {
      AnsweredTargetIsUsable(g, s, blanket, e, p);
    }
  }

  lemma WellFormedNameAnswers(g: Guard, s: Surface, blanket: seq<string>, p: string)
    requires WellFormedName(p) && p != ""
    ensures EntryAnswers(g, s, blanket, p, p) <==> UsableTarget(g, s)
  {
    hide TrimSpace, Mrn.Parse;
    assert ParseGrant(p) == Grant(p, "");
  }

  lemma AnsweredTargetIsUsable(g: Guard, s: Surface, blanket: seq<string>, e: string, p: string)
    requires EntryAnswers(g, s, blanket, e, p)
    ensures UsableTarget(g, s)
  {
    hide Mrn.Parse, EntryPermits, EntryHolds;
  }

  /** The action any entry reads back as is a well-formed name. */
  lemma OnlyWellFormedNamesAreRead(e: string)
    ensures WellFormedName(ParseGrant(e).action)
  {
    ParsedGrantParts(e);
  }

  /** A token listing the demanded name and nothing else. */
  lemma LonePermissionPasses(g: Guard, s: Surface, c: Claims, p: string)
    requires IdentityOf(c).scopes == [p] && p != ""
    requires g.resource.Some? ==> g.resource.value(s).None?
    ensures Passes(g, s, WithBlanket(g, IdentityOf(c)), p) <==>
      ( || WellFormedName(p)
        || ParseGrant(p).action == WILDCARD
        || (ParseGrant(p).action != "" && ParseGrant(p).action in g.permissions.BlanketActions()))
  {
    ListedPermissionPasses(g, s, c, p);
    hide IdentityOf, Passes, ParseGrants, WellFormedName;
    OnlyWellFormedNamesAreRead(p);
    assert p in [p];
  }

  /** Exactly when the declared list is enough on a surface: the demanded name is well
      formed and the target usable, or a declared name that reads back as some other action
      settles the question. */
  lemma DeclaredListAdmits(g: Guard, token: string, s: Surface, c: Claims)
    requires ReachesVerifier(g, token, s) && IdentityOf(c).scopes == DeclaredList(g.permissions)
    requires Resolve(g.permissions, s).Some? && Resolve(g.permissions, s).value.permission != ""
    requires Permits(Resolve(g.permissions, s).value.actor, IdentityOf(c).kind)
    ensures var p := Resolve(g.permissions, s).value.permission;
      Decide(g, token, s, Some(IdentityOf(c))).principal.Some? <==>
      ( || (WellFormedName(p) && UsableTarget(g, s))
        || exists e :: e in DeclaredList(g.permissions) && ParseGrant(e).action != p
             && EntryAnswers(g, s, g.permissions.BlanketActions(), e, p))
  {
    hide IsExempt, Resolve, Permits, Passes, IdentityOf, EntryAnswers, DeclaredList;
    DemandsAreDeclared(g.permissions, s);
    ListedPermissionPasses(g, s, c, Resolve(g.permissions, s).value.permission);
  }

  // ---------------------------------------------------------------- the same in a scope string

  lemma ScopeNameIsWellFormed(p: string)
    ensures ScopeName(p) <==> WellFormedName(p) && SpaceFree(p)
  {
    hide SpaceFree, Trimmed, TrimSpace;
    if SpaceFree(p) {
      SpaceFreeIsTrimmed(p);
      TrimSpaceTrims(p);
    }
  }

  /** A word of a scope string reads back as an action that is such a name. */
  lemma WordsReadAsScopeNames(e: string)
    requires SpaceFree(e)
    ensures ScopeName(ParseGrant(e).action)
  {
    ParsedGrantParts(e);
    SpaceFreeIsTrimmed(e);
    TrimSpaceTrims(e);
    if '=' in e {
      var i := IndexOf(e, '=');
      PrefixOfWord(e, i);
      SpaceFreeIsTrimmed(e[..i]);
      TrimSpaceTrims(e[..i]);
    }
    hide SpaceFree, Trimmed, TrimSpace;
  }

  /** Exactly when a token passes that names the demanded permission in a list joined into
      its scope string: the name survives the joining and the target is usable, or some word
      of the string that reads back as another action settles the question. */
  lemma ScopedPermissionPasses(g: Guard, s: Surface, c: Claims, list: seq<string>, p: string)
    requires IdentityOf(c).scopes == Fields(Join(list, " ")) && p in list && p != ""
    ensures Passes(g, s, WithBlanket(g, IdentityOf(c)), p) <==>
      ( || (ScopeName(p) && UsableTarget(g, s))
        || exists e :: e in IdentityOf(c).scopes && ParseGrant(e).action != p
             && EntryAnswers(g, s, g.permissions.BlanketActions(), e, p))
  {
    var id, scopes, blanket := WithBlanket(g, IdentityOf(c)), IdentityOf(c).scopes, g.permissions.BlanketActions();
    assert id.grants == ParseGrants(scopes) && id.BlanketActions() == blanket;
    hide IdentityOf, Passes, EntryAnswers, ParseGrants, ParseGrant, SpaceFree, Fields, Join, WithBlanket, UsableTarget;
    PassesByAnEntry(g, s, id, scopes, p);
    WordIsField(list, p);
    ScopeNameIsWellFormed(p);
    if ScopeName(p) { WellFormedNameAnswers(g, s, blanket, p); }
    FieldsAreWords(Join(list, " "));
    forall e | e in scopes && EntryAnswers(g, s, blanket, e, p)
      ensures UsableTarget(g, s) && ScopeName(ParseGrant(e).action)
    {
      AnsweredTargetIsUsable(g, s, blanket, e, p);
      WordsReadAsScopeNames(e);
    }
  }

  /** Exactly when the declared list, as a scope string, is enough on a surface. */
  lemma DeclaredScopeAdmits(g: Guard, token: string, s: Surface, c: Claims)
    requires ReachesVerifier(g, token, s)
    requires IdentityOf(c).scopes == Fields(Join(DeclaredList(g.permissions), " "))
    requires Resolve(g.permissions, s).Some? && Resolve(g.permissions, s).value.permission != ""
    requires Permits(Resolve(g.permissions, s).value.actor, IdentityOf(c).kind)
    ensures var p := Resolve(g.permissions, s).value.permission;
      Decide(g, token, s, Some(IdentityOf(c))).principal.Some? <==>
      ( || (ScopeName(p) && UsableTarget(g, s))
        || exists e :: e in IdentityOf(c).scopes && ParseGrant(e).action != p
             && EntryAnswers(g, s, g.permissions.BlanketActions(), e, p))
  {
    hide IsExempt, Resolve, Permits, Passes, IdentityOf, EntryAnswers, DeclaredList, Fields, Join, ScopeName;
    DemandsAreDeclared(g.permissions, s);
    ScopedPermissionPasses(g, s, c, DeclaredList(g.permissions), Resolve(g.permissions, s).value.permission);
  }

  /** And a scope string of the declared list is enough everywhere when every declared name
      survives in one. */
  lemma DeclaredScopeSuffices(g: Guard, token: string, s: Surface, c: Claims)
    requires IdentityOf(c).scopes == Fields(Join(DeclaredList(g.permissions), " "))
    requires forall p :: p in DeclaredList(g.permissions) ==> ScopeName(p)
    requires UsableTarget(g, s)
    ensures Decide(g, token, s, Some(IdentityOf(c))).denial != Some(NOT_ENOUGH)
  {
    hide Decide, UsableTarget, IdentityOf, Fields, Join, SpaceFree, ScopeName, WellFormedName;
    var list := DeclaredList(g.permissions);
    forall i | 0 <= i < |list| ensures list[i] != "" && SpaceFree(list[i]) && WellFormedName(list[i]) {
      assert list[i] in Elements(list);
      ScopeNameIsWellFormed(list[i]);
    }
    FieldsOfJoin(list);
    DeclaredListSuffices(g, token, s, c);
  }

  // ---------------------------------------------------------------- surfaces and grants that are no use

  /** A caller whose only grant has a pattern that does not parse: it gets in where no
      permission is demanded, and where the action alone is asked for and covered. */
  lemma MalformedGrantAdmits(g: Guard, token: string, s: Surface, id: Identity, x: Grant)
    requires ReachesVerifier(g, token, s)
    requires id.grants == [x] && x.resource != "" && Mrn.ParsePattern(x.resource).Err?
    ensures Decide(g, token, s, Some(id)).principal.Some? <==>
      ( && Resolve(g.permissions, s).Some?
        && var rule := Resolve(g.permissions, s).value;
        && Permits(rule.actor, id.kind)
        && (rule.permission == ""
            || ( (g.resource.Some? ==> g.resource.value(s).None?)
                 && NamesAction(WithBlanket(g, id), x, rule.permission))))
  {
    hide IsExempt, Resolve, Permits, Mrn.Parse, Mrn.ParsePattern, Mrn.Matches;
    var held := WithBlanket(g, id);
    assert held.grants == [x] && x in [x];
  }

  /** A mapped surface that asks no question, or asks it of no resource or of one that parses. */
  predicate CanBePassed(g: Guard, s: Surface) {
    && Resolve(g.permissions, s).Some?
    && (Resolve(g.permissions, s).value.permission == "" || UsableTarget(g, s))
  }

  /** Those are exactly the guarded surfaces anybody at all gets through. On a mapped one
      that is not among them every caller of a permitted class is refused for lack of
      permission, whatever it holds. */
  lemma UsableSurface(g: Guard, token: string, s: Surface)
    requires ReachesVerifier(g, token, s)
    ensures (exists id :: Decide(g, token, s, Some(id)).principal.Some?) <==> CanBePassed(g, s)
    ensures var rule := Resolve(g.permissions, s);
      rule.Some? && !CanBePassed(g, s) ==>
        forall id: Identity :: Permits(rule.value.actor, id.kind) ==>
          Decide(g, token, s, Some(id)).denial == Some(NOT_ENOUGH)
  {
    hide IsExempt, Resolve, Permits, UsableTarget, Decide;
    if CanBePassed(g, s) {
      var id := SomebodyPasses(g, token, s);
    }
    forall id: Identity
      ensures Decide(g, token, s, Some(id)).principal.Some? ==> CanBePassed(g, s)
      ensures !CanBePassed(g, s) && Resolve(g.permissions, s).Some?
              && Permits(Resolve(g.permissions, s).value.actor, id.kind) ==>
        Decide(g, token, s, Some(id)).denial == Some(NOT_ENOUGH)
    {
      UnusableRefuses(g, token, s, id);
    }
  }

  lemma SomebodyPasses(g: Guard, token: string, s: Surface) returns (id: Identity)
    requires ReachesVerifier(g, token, s) && CanBePassed(g, s)
    ensures Decide(g, token, s, Some(id)).principal.Some?
  {
    var rule := Resolve(g.permissions, s).value;
    id := DevIdentity(g).(kind := if rule.actor == ServiceOnly then KIND_SERVICE else KIND_USER);
    ActorClasses(rule.actor, id.kind);
    BlanketOnly(g, id);
    hide IsExempt, Resolve, Permits, Passes, UsableTarget, WithBlanket, DevIdentity;
    HoldsEverything(g, s, WithBlanket(g, id), rule.permission);
  }

  lemma UnusableRefuses(g: Guard, token: string, s: Surface, id: Identity)
    requires ReachesVerifier(g, token, s)
    ensures Decide(g, token, s, Some(id)).principal.Some? ==> CanBePassed(g, s)
    ensures !CanBePassed(g, s) && Resolve(g.permissions, s).Some?
            && Permits(Resolve(g.permissions, s).value.actor, id.kind) ==>
      Decide(g, token, s, Some(id)).denial == Some(NOT_ENOUGH)
  {
    hide IsExempt, Resolve, Permits, Mrn.Parse, HasAction;
  }

  lemma HoldsEverything(g: Guard, s: Surface, id: Identity, required: string)
    requires id.grants == [Grant(WILDCARD, "")] && (required == "" || UsableTarget(g, s))
    ensures Passes(g, s, id, required)
  {
    hide Mrn.Parse;
    assert Grant(WILDCARD, "") in id.grants;
  }

  // ---------------------------------------------------------------- trailing slashes

  /** The outcome for a non-empty path is the outcome for that path with slashes behind it. */
  lemma OutcomeAbsorbsSlashes(g: Guard, token: string, s: Surface, verified: Option<Identity>, n: nat)
    requires s.path != ""
    requires g.permissions.routeKey.None? && g.permissions.exempt.None? && g.resource.None?
    requires forall p :: p in g.permissions.exemptPaths ==> SlashSafe(p)
    ensures Decide(g, token, s.(path := s.path + Repeat('/', n)), verified) == Decide(g, token, s, verified)
  {
    hide IsExempt, Resolve, Permits, Allows, HasAction;
    ResolveAbsorbsSlashes(g.permissions, s, n);
    ExemptAbsorbsSlashes(g.permissions, s, n);
  }
}
