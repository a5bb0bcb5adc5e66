# Verified model of the maintainerd SDK's authorization engine

This project models the parts of the SDK that decide who may do what, and proves what they
promise:

- **Resource names** (`Mrn.dfy`, `MrnMatching.dfy`, `MrnCanon.dfy`): the
  `mrn:<service>:<tenant>:<project>:<resource-path>` grammar, its printer and the segment-aware
  matcher. Beneath them stand byte strings and their functions (`Strings.dfy`, `TextLaws.dfy`) and
  UTF-8 as RFC 3629 defines it (`Utf8.dfy`).
- **Grants and principals** (`Grants.dfy`, `Principals.dfy`): the grant grammar, the decision
  loops of a principal object, and how a principal is built from token claims.
- **The surface table** (`Surfaces.dfy`, `SurfaceLaws.dfy`): rule lookup, exemptions, slash and
  segment handling, and the list of permissions to register.
- **The guard** (`Guard.dfy`): the decision ladder, the startup posture that it starts from, and
  the end-to-end laws.
- **The token source** (`TokenSource.dfy`): the cached token with its clock and skew
  arithmetic, as one call, as any sequence of calls, and as many callers interleaving over one lock.

Code that loops or assigns is a method with its loop, proved equal to a specification function;
objects whose fields the code changes are classes (`Principal`, `CachedTokenSource`); the laws
are lemmas about the specification functions, so they hold of the methods.

## How to read the model

- **Unicode tables.** `IsPrint` is an unspecified table that contains the printable ASCII
  characters. Case folding is exact on ASCII; on other text it is an unspecified table
  (`LOWER_TABLE`, and `UPPER_TABLE`, which makes no space and no outer white space where there was
  none, and leaves nothing to do for a second time). White space is the full table of white-space
  code points, in bytes.
- **Oracles.** What the token verifier, the resource resolver, the token endpoint and the clock
  answer comes in as a parameter.
- **Concurrency.** In `TokenMachine` each atomic step of each caller is a `Step`; time passes only
  in `Tick`, which may stand between any two other steps. A call is decided when the cache is read
  (a hit) or when the new expiry is computed (a fetch); "before" and "after" refer to those instants.
- **Definitions and what pins them.** A specification function that a method is proved equal to has a
  law that says what it means without it, on the raw inputs: the grammar (`MrnGrammar`), actions and
  grants (`GrantLaws.HeldActions`, `GrantLaws.AllowedActions`), claims (`ClaimLaws.TokenIdentity`),
  table entries and exemptions (`RuleLaws`), and the questions the guard asks
  (`GuardLaws.ResolverDecides`, `GuardLaws.ActionDecides`).
- **Sorting.** The library sort is represented by an insertion sort; only its result matters, and
  `SortedListIsUnique` shows the result is determined.

## Where the code and its documentation differ

The model follows the code.

- A grant with no resource is documented as `mrn:<service>:*:*:*`. The code lets it through for
  every target that parses, so it is `mrn:*:*:*:*` (`GrantLaws.BareIsAllStars`); it agrees with the
  documented form on that service's resources only (`GrantLaws.BareIsNotServiceWide`).
- A malformed pattern counts as no grant in resource decisions only (`GrantLaws.MalformedIsAbsent`);
  action decisions never look at the pattern (`GrantLaws.ActionIgnoresResource`), so a caller with
  nothing but a malformed grant passes a surface whose resource is not known
  (`GuardLaws.MalformedGrantAdmits`).
- An entry with "=" is unconfined when its first "=" is its last byte after trimming: `a=` is the
  bare grant of `a`, while `a==` has the malformed pattern `=` (`GrantLaws.UnconfinedEntries`).
- Exact entries fold the case of the method; the read/write choice of a segment pair does not.
  `PathLaws.MethodCase` says when two methods with one key get different rules.
- An exact entry whose key is not spelled as requests spell it, such as "post /x" or "POST /x/", is
  dead: its surface falls through to the segment pair (`PathLaws.ExactEntryCounts`, with the exact
  condition).
- Under a table prefix that does not end in a slash, a path that merely runs on from it has a route
  key: under "/api/v1" the path "/api/v1x" has "x" (`PathLaws.RouteKeyNeedsSlash`).
- Registering the declared list is enough for names that survive in a token, and what survives depends
  on the claim. As an entry of the permissions array a name must have no "=" and no outer white space
  (`GuardLaws.DeclaredListSuffices`); in the scope string, which splits at white space, it must have
  none inside either (`GuardLaws.DeclaredScopeSuffices`). Any other name is enough only where some
  entry reads back as the wildcard or a blanket action; `GuardLaws.DeclaredListAdmits` and
  `GuardLaws.DeclaredScopeAdmits` give the exact conditions.
- An exemption prefix with two trailing slashes distinguishes a path from the path with a slash
  behind it; `PathLaws.ExemptionAbsorbsSlashes` gives the exact condition.
- The skew is counted from when a fetch completes, not from when it was sent. A token issued during
  its own fetch can be served past its end of life exactly when that fetch took longer than the skew
  (`TokenMachine.StaleIffFetchIsSlow`).
- Taking the lock before the expiry is not enough to be served: the clock is read after it
  (`TokenMachine.LockBeforeExpiryMayFetch`). The instant of the look decides, both ways
  (`TokenMachine.LookDecides`).

## Model

| member | source | states |
|---|---|---|
| `Mrn.CheckSegment` | mrn/mrn.go:213-222 | The byte loop accepts exactly the strings of lower-case letters, digits and hyphens. |
| `Mrn.CheckResourcePath` | mrn/mrn.go:229-248 | Which fault the code-point loop reports, each as an iff over the path itself: missing, a star, a leading slash, not UTF-8, not printable, in that order, and none otherwise. |
| `Utf8.EncodeDecodes` | mrn/mrn.go:239-241 | Partner of the UTF-8 decoder: decoding the RFC 3629 encoding of a code point gives it back. |
| `Utf8.DecodeEncodes` | mrn/mrn.go:239-241 | Valid text has one spelling: the front of a valid string is the encoding of the code point it decodes to, never a surrogate. |
| `Utf8.PrefixIsCodePointPrefix` | mrn/mrn.go:275-283 | On valid text a byte prefix is exactly a code-point prefix. |
| `Utf8.SplitNIsCodePointSplit` | mrn/mrn.go:198-207 | Splitting valid text at an ASCII byte is splitting its code points there: same parts, all valid. |
| `MrnText.ParsePrint` | mrn/mrn.go:77-115 | Parse accepts a string as m iff m is valid and the string is m printed: one spelling per resource, colons in the path kept. |
| `MrnText.ParsePatternPrint` | mrn/mrn.go:83-149 | The same equivalence for patterns. |
| `MrnText.RoundTrips` | mrn/mrn.go:75-115 | Parsing and printing undo each other both ways; two strings that parse to one name are one string. |
| `MrnText.NameIsItsOwnPattern` | mrn/mrn.go:125-193 | Every concrete name is an accepted pattern that matches itself and no other name. |
| `MrnGrammar.AcceptedNames` | mrn/mrn.go:83-248 | Parse accepts a string as these four parts iff it is "mrn:" and they, with colons between, the service not empty, the segments of lower-case letters, digits and hyphens, the path non-empty printable text without a star or a leading slash. |
| `MrnGrammar.AcceptedPatterns` | mrn/mrn.go:125-265 | The same for patterns, with a star for any segment, for the path, or behind a path. |
| `MrnGrammar.HeadFaults` | mrn/mrn.go:198-207 | The prefix fault iff the string does not begin with "mrn:", the part-count fault iff it does and has fewer than four colons. |
| `MrnGrammar.SegmentFaults` | mrn/mrn.go:83-115 | Which fault a name with five parts reports: the leftmost one, each as an iff. |
| `MrnGrammar.PatternFaults` | mrn/mrn.go:125-149 | The same for a pattern. |
| `MrnMeaning.PathPatternGrammar` | mrn/mrn.go:250-265 | A path pattern is accepted iff it is a bare star, a resource path, or a resource path with one star behind it. |
| `MrnMeaning.MisplacedStarIsNamed` | mrn/mrn.go:253-265 | The misplaced-wildcard fault is reported iff a star stands before the last byte of the path. |
| `MrnMeaning.MatchMeansExpansion` | mrn/mrn.go:151-207 | For accepted raw strings a match holds iff the resource is the pattern with each head star replaced by a colon-free string and the final path star by any string. |
| `MrnMeaning.MatchOrError` | mrn/mrn.go:151-178 | For any two strings: a verdict iff both are valid for their roles, and then the expansion verdict; otherwise an error, the pattern's first. |
| `MrnMeaning.NeverLooserThanGlob` | mrn/mrn.go:18-22 | Every match is a flat-glob match. |
| `MrnMeaning.StrictlyTighterThanGlob` | mrn/mrn.go:165-166 | For every choice of segments there is a resource the flat glob would let a tenant star reach across a colon, and the matcher refuses it. |
| `MrnCodePoints.BytesMatchAsText` | mrn/mrn.go:167-207 | Accepted strings are valid UTF-8, and the byte matcher decides as the same rules read over code points. |
| `MrnCanon.EveryPatternMatchesSomething` | mrn/mrn.go:125-149 | Every accepted pattern matches at least one name that parses. |
| `MrnCanon.InclusionIsSegmentwise` | mrn/mrn.go:182-193 | One accepted pattern includes another, over all resources, iff it does so segment by segment. |
| `MrnCanon.PatternsAreCanonical` | mrn/mrn.go:125-149 | Accepted patterns that match the same resources are the same string. |
| `MrnCanon.PathsNestOrAreDisjoint` | mrn/mrn.go:275-283 | Any two path patterns are nested or share no path. |
| `MrnCanon.PathCoversIsInclusion` | mrn/mrn.go:253-283 | The nesting of path patterns is inclusion over the paths a resource can have. |
| `Strings.TrimSpaceDropsBlanks` | authz/authz.go:137-143 | Trimming removes white space from the two ends and nothing else. |
| `TextLaws.LeadingWhiteSpace` | authz/authz.go:137-143 | A code point at the front is taken for white space, whole, iff it has the White_Space property. |
| `TextLaws.TrailingWhiteSpace` | authz/authz.go:137-143 | The same at the end. |
| `Strings.TrimSpaceIs` | authz/authz.go:137-143 | However white space is taken off the two ends, if none is left there the middle is what trimming returns. |
| `GrantLaws.GrantRoundTrips` | authz/authz.go:136-164 | A grant survives printing and parsing iff its parts are trimmed and its action has no "=". |
| `GrantLaws.ParsedGrantRoundTrips` | authz/authz.go:136-164 | Every parsed grant survives printing and parsing. |
| `GrantLaws.ReadsAs` | authz/authz.go:136-143 | Any entry reads as the trimmed text before its first "=" and the trimmed text behind it, or all of it without one. |
| `GrantLaws.UnconfinedEntries` | authz/authz.go:137-143 | An entry has no pattern iff it holds no "=" or its first "=" is its last byte after trimming. |
| `GrantLaws.TrailingEqualsIsBare` | authz/authz.go:137-143 | Instance: a trimmed action without "=", with one "=" behind it, reads as the unconfined grant of that action. |
| `Grants.CollectGrants` | authz/authz.go:145-156 | The appending loop yields the parsed entries in order, without those that have no action. |
| `Principals.Principal.CoversAction` | authz/authz.go:294-308 | The loop answers yes iff the actions are equal, the granted one is the star, or it is non-empty and on the blanket list: no prefix covers. |
| `Principals.CheckAllows` | authz/authz.go:202-239 | The early-exit loop decides iff there is a grant that covers the action and reaches the parsed resource; a nil principal never passes. |
| `Principals.CheckHasAction` | authz/authz.go:253-266 | The early-exit loop decides iff some grant covers the action. |
| `Principals.CheckAllowsAny` | authz/authz.go:241-251 | True iff one of the actions is allowed on the resource. |
| `GrantLaws.OrderIsIrrelevant` | authz/authz.go:212-266 | Decisions depend on which grants are held, not on order or number. |
| `GrantLaws.HeldActions` | authz/authz.go:253-308 | An action is held iff it is not empty and some grant names it, the star or one of the caller's blanket actions. |
| `GrantLaws.AllowedActions` | authz/authz.go:202-239 | An action is allowed on a resource iff the resource parses and some such grant has no pattern or one that expands to it. |
| `GrantLaws.UnnamedActionIsRefused` | authz/authz.go:290-308 | No other action covers one: if no grant names it, the star or a blanket action, both decisions refuse it on every resource. |
| `GrantLaws.ConcatIsUnion` | authz/authz.go:212-266 | Two lists together permit what either permits. |
| `GrantLaws.MoreGrantsAllowMore` | authz/authz.go:212-266 | Decisions are monotone in the grants. |
| `GrantLaws.MalformedIsAbsent` | authz/authz.go:208-239 | Removing a grant whose non-empty pattern does not parse changes no resource decision. |
| `GrantLaws.ActionIgnoresResource` | authz/authz.go:253-266 | For action decisions any grant counts, whatever its pattern: removing one changes nothing iff the action is empty, the rest covers it, or the grant did not. |
| `GrantLaws.BareIsAllStars` | authz/authz.go:227-229 | A grant without a pattern decides as the pattern with every segment wild, in any list. |
| `GrantLaws.BareIsNotServiceWide` | authz/authz.go:121-126 | The documented service-wide form agrees with the bare grant on that service's resources and no others. |
| `GrantLaws.AllowsNeedsAction` | authz/authz.go:212-266 | A resource decision implies the action decision. |
| `GrantLaws.SomeResourceIsAllowed` | authz/authz.go:212-239 | An action is usable on some resource iff a covering grant is bare or has a pattern that parses. |
| `GrantLaws.TenantIsolation` | authz/authz.go:168-181 | A caller whose every grant names one tenant reaches nothing outside it, blanket actions included. |
| `GrantLaws.WiderPatternAllowsMore` | authz/authz.go:223-237 | Replacing a pattern, anywhere in a list, by one that includes it takes no resource permission away. |
| `Principals.FromClaims` | authz/adapter.go:75-98 | The object built from claims holds exactly the identity of the claims; no claims give no principal. |
| `ClaimLaws.TokenIdentity` | authz/adapter.go:75-153 | Claim by claim what a token becomes: subject, tenant or tenant slug, class, the words of the scope string with the usable permissions behind them, and exactly the grants those entries read as. |
| `ClaimLaws.EntriesInOrder` | authz/adapter.go:81-89 | The permissions array is read in order. |
| `ClaimLaws.ShapesAgree` | authz/adapter.go:66-97 | The same entries joined in the scope string or listed in the permissions array give the same identity. |
| `ClaimLaws.MixedIsUnion` | authz/adapter.go:81-89 | A token with both shapes permits exactly what the two permit apart. |
| `Strings.FieldsOfJoin` | auth/verifier.go:71-73 | Splitting on white space undoes joining white-space-free words with spaces. |
| `Strings.WordIsField` | auth/verifier.go:71-73 | Of any list joined with spaces, a name comes back from splitting iff it is free of white space. |
| `Surfaces.TrimSlashLoop` | authz/permissions.go:291-297 | The loop ends with the path trimmed of trailing slashes. |
| `PathLaws.KeyOfRequest` | authz/permissions.go:272-297 | The key of a request with an ASCII method: the trimmed method in upper case, a space, the path without the slashes behind it. |
| `PathLaws.AsciiCase` | authz/permissions.go:287-289 | The two case foldings on ASCII, by codes. |
| `PathLaws.TrimSlashSpec` | authz/permissions.go:291-297 | A path is its trimmed form followed by slashes; the trimmed form ends in no slash unless it is one byte, and is empty only for "". |
| `PathLaws.TrimSlashIdempotent` | authz/permissions.go:291-297 | Trimming twice is trimming once. |
| `PathLaws.ExactKeyEquality` | authz/permissions.go:279-289 | For methods without inner spaces keys are equal iff the methods fold alike and the paths differ in trailing slashes only. |
| `PathLaws.MethodsCollide` | authz/permissions.go:287-289 | For all methods: keys of two methods can meet iff they fold alike or one with a space behind it starts the other. |
| `PathLaws.RequestKeys` | authz/permissions.go:279-297 | Exactly which keys requests have: up to some space an already folded method, behind it a path without trailing slashes. |
| `PathLaws.AsciiFolded` | authz/permissions.go:287-289 | An ASCII method is folded iff it is trimmed and has no lower-case letter. |
| `PathLaws.ExactEntryCounts` | authz/permissions.go:251-270 | Whatever the table holds, the entry under a key can change what some surface demands iff requests have that key. |
| `PathLaws.MethodCase` | authz/permissions.go:259-269 | Two methods with one key, on a path with one route key for both, get the same rule iff an exact entry decides, there is no segment entry, both or neither is literally GET or HEAD, or the two halves of the pair coincide; GET and HEAD get the read half, all others the write half. |
| `PathLaws.AsciiMethodsFold` | authz/permissions.go:287-289 | Methods that are ASCII once trimmed have one key iff they differ in letter case and outer white space only. |
| `TextLaws.SplitMeaning` | authz/permissions.go:378-397 | Splitting gives the one list of separator-free parts that joins to the string. |
| `PathLaws.PrefixTestIsSegmentTest` | authz/permissions.go:399-412 | The prefix test holds iff the prefix's segments begin the path's segments. |
| `PathLaws.PrefixTestIsLyingUnder` | authz/permissions.go:399-412 | The prefix test holds iff the path is the prefix, less one slash that may end it, or lies beneath that; never for "". |
| `PathLaws.FirstSegmentIsNextSegment` | authz/permissions.go:378-397 | Under a prefix ending in a slash the route key is the next segment, or "" where there is none. |
| `PathLaws.FirstSegmentOfPath` | authz/permissions.go:386-397 | Without a prefix the route key is the first segment of the path, one leading slash aside. |
| `PathLaws.FirstSegmentBehind` | authz/permissions.go:378-397 | For every non-empty prefix the route key is what stands behind it up to the next slash, and "" for other paths. |
| `PathLaws.RouteKeyNeedsSlash` | authz/permissions.go:386-412 | For a non-empty prefix: every path with a route key lies beneath the prefix iff the prefix ends in a slash. |
| `PathLaws.RouteKeyAbsorbsSlashes` | authz/permissions.go:378-397 | Slashes behind a non-empty path never change its route key, whatever the prefix. |
| `PathLaws.ExemptionAbsorbsSlashes` | authz/permissions.go:403-412 | An exemption prefix treats a path with and without slashes behind it alike iff it is slash-safe. |
| `PathLaws.DoubleSlashExemptionDiffers` | authz/permissions.go:403-412 | A prefix that is not slash-safe: "/a//" exempts "/a/" and not "/a". |
| `RuleLaws.MethodRules` | authz/permissions.go:251-258 | A gRPC method is mapped iff listed; its rule has the permission listed for it and the class listed beside it, or any class. |
| `RuleLaws.SegmentRules` | authz/permissions.go:262-269 | Without an exact entry GET and HEAD get the read half of the mapped pair, its actor included, and every other method the write half; a custom route function replaces the segment. |
| `RuleLaws.ExactRules` | authz/permissions.go:259-261 | An exact entry decides alone for every case of its method and any number of slashes behind its path. |
| `RuleLaws.OnlyListedSurfaces` | authz/permissions.go:251-270 | A surface has no rule iff no table lists it. |
| `RuleLaws.HalvesAreApart` | authz/permissions.go:262-269 | What the write half says never changes the rule of a GET or HEAD, and what the read half says never changes any other method's. |
| `RuleLaws.ExemptSurfaces` | authz/permissions.go:299-318 | A surface is exempt iff the table's own test says so, its gRPC method is listed by name, or its HTTP path is or lies beneath a listed path; all else is guarded. |
| `Surfaces.CheckExempt` | authz/permissions.go:299-318 | The loops decide exemption: the predicate, an exact method, or a path prefix. |
| `Surfaces.DeclaredPermissions` | authz/permissions.go:335-368 | For every order in which the maps are traversed the loops return the one sorted list of the declared set. |
| `Surfaces.SortedListIsUnique` | authz/permissions.go:333-334 | A strictly increasing list is determined by its elements. |
| `TextLaws.LessIsLexicographic` | authz/permissions.go:333-334 | The order of the sorted list is the byte-wise lexicographic one, by first difference. |
| `DeclarationLaws.DeclaredMeaning` | authz/permissions.go:320-368 | A permission is declared iff an exact rule, a route half, a method, an operation entry or a blanket action other than the wildcard names it. |
| `DeclarationLaws.DemandsAreDeclared` | authz/permissions.go:251-270 | Every permission any surface demands is declared. |
| `Guards.DevPrincipal` | authz/guard.go:136-147 | A fresh principal with the development identity. |
| `GuardLaws.DevelopmentAllowsAll` | authz/guard.go:136-164 | In development mode every guarded request comes out as one service by that name, which holds every action and is allowed every action on every resource that parses. |
| `Guards.Check` | authz/guard.go:155-261 | The ladder returns the specified outcome, writes to no existing object, and hands back the verifier's own principal or a new one. |
| `Guards.CheckAll` | authz/guard.go:198-206 | Over any run of checks on one shared principal the object keeps its fields and each outcome depends on its own request. |
| `Startup.MissingReason` | authz/startup.go:85-103 | Empty iff all three settings are there; otherwise it names the variables of exactly the blank settings, each once, in the fixed order. |
| `Startup.ReasonsSpelled` | authz/startup.go:14-19 | The variable names as the reason spells them. |
| `Startup.ResolveGuard` | authz/startup.go:55-83 | The posture ladder on the settings themselves: enforcing with a verifier iff none of the three is blank, otherwise open iff development; an error only for a full configuration that cannot be used; the reason tells of the blank settings. |
| `GuardLaws.ExactlyOneOutcome` | authz/guard.go:149-261 | Exempt surfaces give neither principal nor denial, all others exactly one. |
| `GuardLaws.AdmissionOutsideDevelopment` | authz/startup.go:38-83 | Outside development a principal comes out iff all three settings are present and every check of the ladder passed. |
| `GuardLaws.UnverifiedOnlyInDevelopment` | authz/startup.go:76-82 | Without a verified principal one comes out iff development, not fully configured, and not exempt. |
| `GuardLaws.DenialCauses` | authz/guard.go:155-261 | Each denial code has exactly one cause; the wrong class of caller is refused before any permission is looked at. |
| `GuardLaws.DenialStatuses` | authz/guard.go:155-261 | The HTTP and gRPC status that go with each denial code. |
| `GuardLaws.MethodActorBinds` | authz/permissions.go:191-197 | On a listed gRPC method the actor denial comes iff the method names a class and the caller is of another, whatever it holds. |
| `GuardLaws.ClaimedClassBinds` | authz/adapter.go:135-153 | Any mapped surface refuses a token for its class iff the surface is for the other class, a token being human exactly without a service claim and with a listed or absent subject type. |
| `GuardLaws.AdmittedIdentity` | authz/guard.go:198-206 | The principal returned is the verified one; only a nil blanket list is filled, from the table. |
| `GuardLaws.NothingDemanded` | authz/guard.go:220-236 | Where no permission is demanded a verified caller gets in iff its class is permitted. |
| `GuardLaws.ResolverDecides` | authz/guard.go:238-249 | Where the resolver names a resource, on either transport, a caller gets in iff its class is permitted and it is allowed the permission on that resource. |
| `GuardLaws.ActionDecides` | authz/guard.go:251-260 | Without a resolver, or where it names none, a caller gets in iff its class is permitted and it holds the action. |
| `GuardLaws.ReadersAndWriters` | authz/permissions.go:262-269 | On a segment pair a GET or HEAD is admitted iff class and permission of the read half are met, any other method iff those of the write half are. |
| `GuardLaws.AllowedByAnEntry` | authz/authz.go:137-239 | A claim list allows an action on a raw resource iff one raw entry names the action (or a blanket one) with no pattern or with one that expands to that resource. |
| `GuardLaws.HeldByAnEntry` | authz/authz.go:137-266 | A claim list holds an action iff one raw entry has a non-empty action that covers it, whatever its pattern. |
| `GuardLaws.AdmittedByAnEntry` | authz/guard.go:155-261 | End to end outside development, for every surface: raw claims get in iff fully configured, guarded and mapped, the class is permitted, and nothing is demanded or one raw entry settles it: action and raw resource where a resource is known, the action alone where none is. |
| `GuardLaws.ResolverOnlyTightens` | authz/guard.go:238-260 | Whoever passes with a resolver passes without it, as the same principal. |
| `GuardLaws.MoreGrantsStayAdmitted` | authz/guard.go:233-260 | Adding grants to the verified principal turns no admission into a denial. |
| `GuardLaws.DeclaredListSuffices` | authz/permissions.go:320-334 | A claim list that is the declared list, of names without "=" and outer white space, is never refused for lack of permission on any surface. |
| `GuardLaws.DemandedPermissionSuffices` | authz/guard.go:233-260 | The one demanded permission is enough for its surface. |
| `GuardLaws.ListedPermissionPasses` | authz/guard.go:233-260 | A token listing the demanded name among others passes iff the name is well formed and the target usable, or an entry reading back as another action settles the question. |
| `GuardLaws.LonePermissionPasses` | authz/authz.go:137-156 | The same for a token listing only that name, with no known target: well formed, or read back as the wildcard or a blanket action. |
| `GuardLaws.DeclaredListAdmits` | authz/permissions.go:320-334 | The same for a claim list that is the declared list, as an admission by the guard: the exact condition under which registering the list is enough on a surface. |
| `GuardLaws.ScopedPermissionPasses` | auth/verifier.go:71-73 | A token whose scope string joins a list with the demanded name passes iff the name has no "=" and no white space and the target is usable, or a word reading back as another action settles the question. |
| `GuardLaws.DeclaredScopeAdmits` | authz/permissions.go:320-334 | The same for the declared list as a scope string, as an admission by the guard. |
| `GuardLaws.DeclaredScopeSuffices` | authz/permissions.go:320-334 | The declared list as a scope string, of names without "=" and white space, is never refused for lack of permission on any surface. |
| `GuardLaws.MalformedGrantAdmits` | authz/guard.go:233-260 | A caller whose only grant is malformed gets in iff the surface is mapped, the class permitted, and nothing is demanded or no target is known and the action covers. |
| `GuardLaws.UsableSurface` | authz/guard.go:233-260 | Some caller gets through a guarded surface iff it is mapped and demands nothing or has a target that parses or none; on a mapped one without that every permitted class is refused for lack of permission. |
| `GuardLaws.OutcomeAbsorbsSlashes` | authz/permissions.go:251-317 | With no custom functions and slash-safe exemptions, slashes behind a non-empty path never change the outcome. |
| `TokenSource.ComputeTtl` | tokensource.go:215-218 | Positive: the 64-bit value of the product where that is positive, else five minutes; without overflow the seconds given. |
| `TokenLaws.TtlRule` | tokensource.go:215-218 | The lifetime is the seconds given iff they are positive and do not overflow, five minutes for none, and whole seconds without overflow. |
| `TokenSource.CachedTokenSource.constructor` | tokensource.go:35-40 | Starts empty. |
| `TokenSource.CachedTokenSource.Token` | tokensource.go:42-60 | One call leaves the specified cache and answer; an error leaves the fields alone. |
| `TokenLaws.LifetimeBounds` | tokensource.go:52-58 | The skew is 30 s, or half the lifetime when that is no longer than 30 s; what remains is positive, and at least half a second for whole seconds. |
| `TokenLaws.NonPositiveLifetime` | tokensource.go:52-58 | A lifetime that is not positive is halved towards zero. |
| `TokenLaws.FreshTokenIsServed` | tokensource.go:45-47 | Until a stored token's expiry every later call returns it and none fetches. |
| `TokenLaws.ServedFromSource` | tokensource.go:45-59 | Every token handed out was stored by a definite fetch, from the cache only before its expiry. |
| `TokenLaws.NeverServedExpired` | tokensource.go:52-58 | A token issued no more than the skew before its fetch completed is never handed out past its end of life. |
| `TokenLaws.SkewIsExact` | tokensource.go:52-58 | That condition on the issue time is necessary and sufficient for the cached token. |
| `TokenLaws.FetchRate` | tokensource.go:42-60 | With whole-second lifetimes at most 1 + W / 500 ms fetches succeed in any window W. |
| `TokenMachine.StepKeepsInv` | tokensource.go:42-60 | Every step of every caller keeps mutual exclusion and agreement with a sequential log, and extends the log. |
| `TokenMachine.RunsAreSequential` | tokensource.go:32-40 | Every state of every interleaving is explained by a sequence of non-overlapping calls. |
| `TokenMachine.OneFetchInFlight` | tokensource.go:43-48 | At most one fetch is in flight in any reachable state. |
| `TokenMachine.FetchingHoldsCache` | tokensource.go:43-60 | From its look to its decision a caller keeps the lock, and no step of anyone changes cache or log. |
| `TokenMachine.FailedFetchChangesNothing` | tokensource.go:48-51 | From the look that starts a fetch to the error that ends it, the cache is the same before and after, whatever the other callers do in between. |
| `TokenMachine.LookBeforeExpiryIsServed` | tokensource.go:45-47 | A caller that looks between a successful fetch and its expiry leaves with that token and starts no fetch. |
| `TokenMachine.LookDecides` | tokensource.go:45-47 | In every run a caller at its look can be served iff some successful fetch is before its expiry, and goes on to fetch iff not. |
| `TokenMachine.LockBeforeExpiryMayFetch` | tokensource.go:43-48 | Any run with a fresh cache and a free lock continues to one where a caller locks while the token is fresh and still fetches. |
| `TokenMachine.ServedInFetchOrder` | tokensource.go:42-60 | In every run, of two served callers the earlier has the token of the same or an earlier fetch. |
| `TokenMachine.LeavingTokenIsLive` | tokensource.go:42-60 | In every run the handing out of a token is decided within its serving time, and before its end of life if issued within the skew. |
| `TokenMachine.StaleTokenRun` | tokensource.go:52-58 | For every fetch duration and every issue time earlier than the skew before the fetch completed, there is a run in which a second call is decided by a cache hit on that fetch, past the token's end of life. |
| `TokenMachine.PromptFetchIsLive` | tokensource.go:52-58 | In no run is a token that was issued during a fetch no longer than the skew handed out past its end of life. |
| `TokenMachine.StaleIffFetchIsSlow` | tokensource.go:42-60 | For every lifetime and fetch duration: some run hands out a token issued during such a fetch past its end of life iff the duration exceeds the skew. |
| `TokenMachine.RunFetchRate` | tokensource.go:42-60 | The rate bound holds in every run. |
| `TokenMachine.NoDeadlock` | tokensource.go:43-44 | In every reachable state somebody in the call can take a step iff somebody is in it. |
| `TokenMachine.EverybodyCanLeave` | tokensource.go:43-44 | Every run can go on to a state in which every caller has left. |

## Left out

- HTTP and gRPC plumbing (middleware, interceptors, contexts, header parsing, error bodies): thin wrappers around `Check`.
- Token verification itself (JWT, JWKS, key parsing), client assertions, form posting and JSON decoding: their answers are inputs.
- Network clients, dialing and discovery.
- Denial messages, log banners and the `String` methods of modes and actors; denials keep their status pair and code.
- `HasScope`, `HasAnyScope`, `RequirePermission`, `New`, `IsMRN`, `Required`: one-line members that add nothing.
- Slices are values: sharing of a slice's backing array between principals is not modelled; principal objects and their aliasing are.
- TokenLaws.FetchRate: needs every lifetime to be whole seconds, which holds unless `expires_in` is above 9223372036 or below -9223372036 seconds and the duration overflows.
- Instants of the clock are unbounded integers, and it never runs backwards, as Go's monotonic reading does not.
- Upper- and lower-casing of text that is not all ASCII is left open: what a subject type with such a letter folds to is not decided here.
