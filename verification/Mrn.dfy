/** The resource-name grammar: mrn:<service>:<tenant>:<project>:<resource-path>.

    A concrete name and a grant pattern share the head shape and differ in where "*" may
    stand. The laws about these definitions are in the MrnText, MrnCodePoints and
    MrnCanon modules. */
module Mrn {
  import opened Strings
  import Utf8

  const PREFIX := "mrn:"

  /** unicode.IsPrint: some table that contains the printable ASCII characters. Nothing
      below depends on which other code points it contains. */
  type PrintTable = table: Utf8.CodePoint -> bool | forall c :: 0x20 <= c <= 0x7E ==> table(c)
    witness c => true
  const IsPrint: PrintTable

  datatype Name = Name(service: string, tenant: string, project: string, path: string)

  datatype Pattern = Pattern(service: string, tenant: string, project: string, path: string)

  datatype Error =
    | MissingPrefix
    | WrongPartCount
    | ServiceRequired
    | BadService
    | BadTenant
    | BadProject
    | PathRequired
    | PathHasStar
    | PathLeadingSlash
    | PathNotUtf8
    | PathNotPrintable
    | MisplacedStar

  datatype Result<+T> = Ok(value: T) | Err(error: Error)

  // ---------------------------------------------------------------- printing

  function Render(service: string, tenant: string, project: string, path: string): string {
    PREFIX + (service + ":" + (tenant + ":" + (project + ":" + path)))
  }

  function NameString(m: Name): string { Render(m.service, m.tenant, m.project, m.path) }

  function PatternString(p: Pattern): string { Render(p.service, p.tenant, p.project, p.path) }

  // ---------------------------------------------------------------- validity

  predicate IsSegmentChar(c: char) {
    'a' <= c <= 'z' || '0' <= c <= '9' || c == '-'
  }

  predicate ValidSegment(s: string) {
    forall i :: 0 <= i < |s| ==> IsSegmentChar(s[i])
  }

  predicate AllPrint(cs: seq<Utf8.CodePoint>) {
    forall i :: 0 <= i < |cs| ==> IsPrint(cs[i])
  }

  /** What is wrong with a concrete resource path, None when nothing is. The order of the
      tests decides which error a path with several faults reports. */
  function PathError(path: string): Option<Error> {
    if path == "" then Some(PathRequired)
    else if '*' in path then Some(PathHasStar)
    else if "/" <= path then Some(PathLeadingSlash)
    else if !Utf8.Valid(path) then Some(PathNotUtf8)
    else if !AllPrint(Utf8.Decode(path)) then Some(PathNotPrintable)
    else None
  }

  predicate ValidPath(path: string) { PathError(path).None? }

  function PathPatternError(path: string): Option<Error> {
    if path == "*" then None
    else if '*' in path then
      if Count(path, '*') > 1 || !HasSuffix(path, "*") then Some(MisplacedStar)
      else PathError(TrimSuffix(path, "*"))
    else PathError(path)
  }

  predicate ValidPathPattern(path: string) { PathPatternError(path).None? }

  /** The byte loop of the segment test. */
  method CheckSegment(s: string) returns (ok: bool)
    ensures ok == ValidSegment(s)
  {
    var i := 0;
    while i < |s|
      invariant i <= |s|
      invariant forall j :: 0 <= j < i ==> IsSegmentChar(s[j])
    {
      var c := s[i];
      if (c >= 'a' && c <= 'z') || (c >= '0' && c <= '9') || c == '-' {
        i := i + 1;
        continue;
      }
      return false;
    }
    return true;
  }

  /** The code-point loop of the resource-path test: it decodes as it goes. Each fault is
      reported exactly when the path has it and none of those tested before. */
  method CheckResourcePath(path: string) returns (e: Option<Error>)
    ensures e == PathError(path)
    ensures e == Some(PathRequired) <==> path == ""
    ensures e == Some(PathHasStar) <==> '*' in path
    ensures e == Some(PathLeadingSlash) <==> '*' !in path && path != "" && path[0] == '/'
    ensures e == Some(PathNotUtf8) <==> '*' !in path && path != "" && path[0] != '/' && !Utf8.Valid(path)
    ensures e == Some(PathNotPrintable) <==>
      ( && '*' !in path && path != "" && path[0] != '/' && Utf8.Valid(path)
        && exists c :: c in Utf8.Decode(path) && !IsPrint(c))
    ensures e == None <==>
      ( && '*' !in path && path != "" && path[0] != '/' && Utf8.Valid(path)
        && forall c :: c in Utf8.Decode(path) ==> IsPrint(c))
  {
    if path == "" { return Some(PathRequired); }
    if '*' in path { return Some(PathHasStar); }
    if "/" <= path { return Some(PathLeadingSlash); }
    if !Utf8.Valid(path) { return Some(PathNotUtf8); }
    var at := 0;
    ghost var seen: seq<Utf8.CodePoint> := [];
    assert path[0..] == path;
    while at < |path|
      invariant at <= |path| && Utf8.Valid(path[at..])
      invariant Utf8.Decode(path) == seen + Utf8.Decode(path[at..])
      invariant AllPrint(seen)
    {
      var rest := path[at..];
      var r := Utf8.First(rest);
      assert Utf8.Decode(path)[|seen|] == r;
      if !IsPrint(r) { return Some(PathNotPrintable); }
      seen := seen + [r];
      at := at + Utf8.Width(rest);
      assert path[at..] == rest[Utf8.Width(rest)..];
    }
    return None;
  }

  // ---------------------------------------------------------------- parsing

  function SplitHead(s: string): (r: Result<seq<string>>)
    ensures r.Ok? ==> |r.value| == 5
  {
    if !(PREFIX <= s) then Err(MissingPrefix)
    else
      var parts := SplitN(s, ':', 5);
      if |parts| != 5 then Err(WrongPartCount) else Ok(parts)
  }

  function Parse(s: string): Result<Name> {
    match SplitHead(s)
    case Err(e) => Err(e)
    case Ok(parts) =>
      if parts[1] == "" then Err(ServiceRequired)
      else if !ValidSegment(parts[1]) then Err(BadService)
      else if !ValidSegment(parts[2]) then Err(BadTenant)
      else if !ValidSegment(parts[3]) then Err(BadProject)
      else match PathError(parts[4])
        case Some(e) => Err(e)
        case None => Ok(Name(parts[1], parts[2], parts[3], parts[4]))
  }

  function ParsePattern(s: string): Result<Pattern> {
    match SplitHead(s)
    case Err(e) => Err(e)
    case Ok(parts) =>
      if parts[1] == "" then Err(ServiceRequired)
      else if parts[1] != "*" && !ValidSegment(parts[1]) then Err(BadService)
      else if parts[2] != "*" && !ValidSegment(parts[2]) then Err(BadTenant)
      else if parts[3] != "*" && !ValidSegment(parts[3]) then Err(BadProject)
      else match PathPatternError(parts[4])
        case Some(e) => Err(e)
        case None => Ok(Pattern(parts[1], parts[2], parts[3], parts[4]))
  }

  // ---------------------------------------------------------------- matching

  predicate SegmentMatches(pattern: string, value: string) {
    pattern == "*" || pattern == value
  }

  predicate PathMatches(pattern: string, value: string) {
    if pattern == "*" then true
    else if HasSuffix(pattern, "*") then pattern[..|pattern| - 1] <= value
    else pattern == value
  }

  predicate Matches(p: Pattern, r: Name) {
    && SegmentMatches(p.service, r.service)
    && SegmentMatches(p.tenant, r.tenant)
    && SegmentMatches(p.project, r.project)
    && PathMatches(p.path, r.path)
  }

  /** An error, never false, when either side is invalid for its role. */
  function MatchPattern(pattern: string, resource: string): Result<bool> {
    match ParsePattern(pattern)
    case Err(e) => Err(e)
    case Ok(p) =>
      match Parse(resource)
      case Err(e) => Err(e)
      case Ok(r) => Ok(Matches(p, r))
  }

  // ---------------------------------------------------------------- shapes

  /** What Parse accepts, segment by segment. */
  predicate ValidName(m: Name) {
    m.service != "" && ValidSegment(m.service) && ValidSegment(m.tenant) && ValidSegment(m.project) && ValidPath(m.path)
  }

  predicate ValidHead(s: string) { s == "*" || ValidSegment(s) }

  /** What ParsePattern accepts, segment by segment. */
  predicate ValidPattern(p: Pattern) {
    p.service != "" && ValidHead(p.service) && ValidHead(p.tenant) && ValidHead(p.project) && ValidPathPattern(p.path)
  }
}

/** Parsing and printing undo each other. */
module MrnText {
  import opened Strings
  import opened Mrn

  lemma NoColonInHead(s: string)
    requires ValidHead(s)
    ensures ':' !in s
  {
  }

  lemma SplitTwo(a: string, b: string)
    requires ':' !in a
    ensures SplitN(a + ":" + b, ':', 2) == [a, b]
  {
    SplitNStep(a, ':', b, 2);
    assert SplitN(b, ':', 1) == [b];
    hide SplitN;
  }

  lemma SplitCons(a: string, rest: string, n: nat, parts: seq<string>)
    requires ':' !in a && n >= 2 && SplitN(rest, ':', n - 1) == parts
    ensures SplitN(a + ":" + rest, ':', n) == [a] + parts
  {
    SplitNStep(a, ':', rest, n);
    hide SplitN;
  }

  lemma SplitThree(a: string, b: string, c: string)
    requires ':' !in a && ':' !in b
    ensures SplitN(a + ":" + (b + ":" + c), ':', 3) == [a, b, c]
  {
    hide SplitN;
    SplitTwo(b, c);
    SplitCons(a, b + ":" + c, 3, [b, c]);
    assert [a] + [b, c] == [a, b, c];
  }

  lemma SplitFour(a: string, b: string, c: string, d: string)
    requires ':' !in a && ':' !in b && ':' !in c
    ensures SplitN(a + ":" + (b + ":" + (c + ":" + d)), ':', 4) == [a, b, c, d]
  {
    hide SplitN;
    SplitThree(b, c, d);
    SplitCons(a, b + ":" + (c + ":" + d), 4, [b, c, d]);
    assert [a] + [b, c, d] == [a, b, c, d];
  }

  /** Splitting what Render prints gives back the four segments, whatever colons the path holds. */
  lemma SplitRender(service: string, tenant: string, project: string, path: string)
    requires ':' !in service && ':' !in tenant && ':' !in project
    ensures SplitHead(Render(service, tenant, project, path)) == Ok(["mrn", service, tenant, project, path])
  {
    SplitFour(service, tenant, project, path);
    SplitScheme(service + ":" + (tenant + ":" + (project + ":" + path)), [service, tenant, project, path]);
    assert ["mrn"] + [service, tenant, project, path] == ["mrn", service, tenant, project, path];
  }

  lemma SplitScheme(rest: string, parts: seq<string>)
    requires SplitN(rest, ':', 4) == parts && |parts| == 4
    ensures SplitHead(PREFIX + rest) == Ok(["mrn"] + parts)
  {
    SplitAtScheme(rest);
    hide SplitN;
    assert PREFIX <= PREFIX + rest;
  }

  lemma SplitAtScheme(rest: string)
    ensures SplitN(PREFIX + rest, ':', 5) == ["mrn"] + SplitN(rest, ':', 4)
  {
    assert PREFIX + rest == "mrn" + ":" + rest;
    SplitNStep("mrn", ':', rest, 5);
    hide SplitN;
  }

  /** Joining the parts of a split with the separator gives the string back. */
  lemma {:induction false} SplitNJoins(s: string, n: nat)
    requires n >= 1
    ensures Join(SplitN(s, ':', n), ":") == s
    ensures |SplitN(s, ':', n)| >= 2 ==> ':' !in SplitN(s, ':', n)[0]
    decreases n
  {
    if n > 1 && ':' in s {
      var i := IndexOf(s, ':');
      SplitNJoins(s[i + 1..], n - 1);
      JoinCons(s[..i], SplitN(s[i + 1..], ':', n - 1), ":");
      hide Join;
      assert s == s[..i] + ":" + s[i + 1..];
    }
  }

  lemma JoinFive(a: string, b: string, c: string, d: string, e: string)
    ensures Join([a, b, c, d, e], ":") == a + ":" + (b + ":" + (c + ":" + (d + ":" + e)))
  {
    assert [d, e][1..] == [e];
    assert [c, d, e][1..] == [d, e];
    assert [b, c, d, e][1..] == [c, d, e];
    assert [a, b, c, d, e][1..] == [b, c, d, e];
    assert Join([e], ":") == e;
    assert Join([d, e], ":") == d + ":" + e;
    assert Join([c, d, e], ":") == c + ":" + (d + ":" + e);
    assert Join([b, c, d, e], ":") == b + ":" + (c + ":" + (d + ":" + e));
  }

  /** A head split spells the string it came from. */
  lemma SplitHeadRenders(s: string)
    requires SplitHead(s).Ok?
    ensures var parts := SplitHead(s).value;
      s == Render(parts[1], parts[2], parts[3], parts[4])
  {
    SplitNJoins(s, 5);
    PartsRender(s, SplitN(s, ':', 5));
  }

  lemma PartsRender(s: string, parts: seq<string>)
    requires |parts| == 5 && Join(parts, ":") == s && PREFIX <= s && ':' !in parts[0]
    ensures s == Render(parts[1], parts[2], parts[3], parts[4])
  {
    assert parts == [parts[0], parts[1], parts[2], parts[3], parts[4]];
    JoinFive(parts[0], parts[1], parts[2], parts[3], parts[4]);
    hide Join;
    SchemeIsFirst(parts[0], parts[1] + ":" + (parts[2] + ":" + (parts[3] + ":" + parts[4])), s);
  }

  lemma SchemeIsFirst(head: string, rest: string, s: string)
    requires s == head + ":" + rest && PREFIX <= s && ':' !in head
    ensures s == PREFIX + rest
  {
    assert s[3] == ':' && ':' !in s[..3];
    assert s[|head|] == ':' && s[..|head|] == head;
    assert |head| == 3;
  }

  /** Parse accepts exactly the prints of valid names: one spelling per resource. */
  lemma ParsePrint(s: string, m: Name)
    ensures Parse(s) == Ok(m) <==> ValidName(m) && NameString(m) == s
  {
    hide PathError, SplitN;
    if Parse(s) == Ok(m) { SplitHeadRenders(s); }
    if ValidName(m) { SplitRender(m.service, m.tenant, m.project, m.path); }
  }

  /** ParsePattern accepts exactly the prints of valid patterns. */
  lemma ParsePatternPrint(s: string, p: Pattern)
    ensures ParsePattern(s) == Ok(p) <==> ValidPattern(p) && PatternString(p) == s
  {
    hide PathPatternError, PathError, SplitN;
    if ParsePattern(s) == Ok(p) { SplitHeadRenders(s); }
    if ValidPattern(p) {
      NoColonInHead(p.service);
      NoColonInHead(p.tenant);
      NoColonInHead(p.project);
      SplitRender(p.service, p.tenant, p.project, p.path);
    }
  }

  /** Round trips in both directions, colons in the path included. */
  lemma RoundTrips(s: string, t: string)
    ensures Parse(s).Ok? ==> NameString(Parse(s).value) == s && Parse(NameString(Parse(s).value)) == Parse(s)
    ensures ParsePattern(s).Ok? ==> PatternString(ParsePattern(s).value) == s
    ensures Parse(s).Ok? && Parse(t).Ok? && Parse(s).value == Parse(t).value ==> s == t
  {
    if Parse(s).Ok? { ParsePrint(s, Parse(s).value); }
    if Parse(t).Ok? { ParsePrint(t, Parse(t).value); }
    if ParsePattern(s).Ok? { ParsePatternPrint(s, ParsePattern(s).value); }
  }

  /** A concrete name, read as a pattern, is accepted and matches itself and nothing else. */
  lemma NameIsItsOwnPattern(s: string, t: string)
    requires Parse(s).Ok? && Parse(t).Ok?
    ensures ParsePattern(s).Ok?
    ensures MatchPattern(s, t) == Ok(s == t)
  {
    var m := Parse(s).value;
    ParsePrint(s, m);
    var p := Pattern(m.service, m.tenant, m.project, m.path);
    assert m.path != "*" by { assert m.path == "*" ==> '*' in m.path; }
    ParsePatternPrint(s, p);
    RoundTrips(s, t);
    StarFree(m.path);
    assert Matches(p, Parse(t).value) <==> m == Parse(t).value by {
      assert m.service != "*" && m.tenant != "*" && m.project != "*" by {
        assert !IsSegmentChar("*"[0]);
      }
    }
  }

  lemma StarFree(s: string)
    requires '*' !in s
    ensures !HasSuffix(s, "*")
  {
    assert s != "" ==> s[|s| - 1..][0] == s[|s| - 1];
  }
}

/** Which strings are accepted, spelled out byte by byte. */
module MrnGrammar {
  import opened Strings
  import Utf8
  import opened Mrn
  import opened MrnText
  import opened MrnMeaning

  /** Lower-case ASCII letters, ASCII digits and hyphens only, by their codes. */
  predicate IsSegment(s: string) {
    forall c :: c in s ==> 0x61 <= c as int <= 0x7A || 0x30 <= c as int <= 0x39 || c as int == 0x2D
  }

  /** A path names one concrete thing: it is there, it is printable text, it has no star,
      and it has no slash in front. */
  predicate IsPath(path: string) {
    && path != "" && path[0] != '/' && '*' !in path
    && Utf8.Valid(path) && forall c :: c in Utf8.Decode(path) ==> IsPrint(c)
  }

  lemma SegmentIsValid(s: string)
    ensures ValidSegment(s) <==> IsSegment(s)
  {
    if IsSegment(s) {
      forall i | 0 <= i < |s| ensures IsSegmentChar(s[i]) { assert s[i] in s; }
    }
  }

  lemma PathIsValid(path: string)
    ensures ValidPath(path) <==> IsPath(path)
  {
  }

  /** Parse accepts exactly the strings "mrn:<service>:<tenant>:<project>:<path>" of a
      non-empty service and segments of those bytes, with such a path, and takes them apart. */
  lemma AcceptedNames(s: string, service: string, tenant: string, project: string, path: string)
    ensures Parse(s) == Ok(Name(service, tenant, project, path)) <==>
      ( && s == "mrn:" + service + ":" + tenant + ":" + project + ":" + path
        && service != "" && IsSegment(service) && IsSegment(tenant) && IsSegment(project) && IsPath(path))
  {
    ParsePrint(s, Name(service, tenant, project, path));
    SegmentIsValid(service);
    SegmentIsValid(tenant);
    SegmentIsValid(project);
    PathIsValid(path);
    RenderIsFlat(service, tenant, project, path);
    hide Parse, Render, ValidSegment, ValidPath, IsSegment, IsPath;
  }

  /** ParsePattern accepts the same with a star for any of the three segments, for the whole
      path, or behind a path. */
  lemma AcceptedPatterns(s: string, service: string, tenant: string, project: string, path: string)
    ensures ParsePattern(s) == Ok(Pattern(service, tenant, project, path)) <==>
      ( && s == "mrn:" + service + ":" + tenant + ":" + project + ":" + path
        && service != "" && (service == "*" || IsSegment(service))
        && (tenant == "*" || IsSegment(tenant)) && (project == "*" || IsSegment(project))
        && (path == "*" || IsPath(path) || exists lit :: path == lit + "*" && IsPath(lit)))
  {
    ParsePatternPrint(s, Pattern(service, tenant, project, path));
    SegmentIsValid(service);
    SegmentIsValid(tenant);
    SegmentIsValid(project);
    RenderIsFlat(service, tenant, project, path);
    PathPatternIsPath(path);
    hide ParsePattern, Render, ValidSegment, ValidPathPattern, IsSegment, IsPath;
  }

  lemma PathPatternIsPath(path: string)
    ensures ValidPathPattern(path) <==> path == "*" || IsPath(path) || exists lit :: path == lit + "*" && IsPath(lit)
  {
    PathPatternGrammar(path);
    PathIsValid(path);
    hide ValidPathPattern, ValidPath, IsPath;
    if HasSuffix(path, "*") {
      var lit := TrimSuffix(path, "*");
      PathIsValid(lit);
      assert path == lit + "*";
    }
    forall lit | path == lit + "*" ensures HasSuffix(path, "*") && TrimSuffix(path, "*") == lit {
    }
  }

  lemma RenderIsFlat(service: string, tenant: string, project: string, path: string)
    ensures Render(service, tenant, project, path) == "mrn:" + service + ":" + tenant + ":" + project + ":" + path
  {
  }

  /** Which fault of the head is reported: the first one, from left to right. */
  lemma HeadFaults(s: string)
    ensures Parse(s) == Err(MissingPrefix) <==> !("mrn:" <= s)
    ensures Parse(s) == Err(WrongPartCount) <==> "mrn:" <= s && Count(s, ':') < 4
  {
    SplitNCounts(s, 5);
  }

  lemma {:induction false} SplitNCounts(s: string, n: nat)
    requires n >= 1
    ensures |SplitN(s, ':', n)| == if Count(s, ':') < n then Count(s, ':') + 1 else n
    decreases n
  {
    if ':' !in s {
      NoneCounted(s);
    } else if n > 1 {
      var i := IndexOf(s, ':');
      SplitNCounts(s[i + 1..], n - 1);
      CountBehindFirst(s, i);
    }
  }

  lemma {:induction false} NoneCounted(s: string)
    requires ':' !in s
    ensures Count(s, ':') == 0
  {
    if s != "" { NoneCounted(s[1..]); }
  }

  lemma {:induction false} CountBehindFirst(s: string, i: nat)
    requires i < |s| && s[i] == ':' && ':' !in s[..i]
    ensures Count(s, ':') == 1 + Count(s[i + 1..], ':')
  {
    if i > 0 {
      assert s[0] == s[..i][0] && s[1..][..i - 1] == s[..i][1..] && s[1..][i..] == s[i + 1..];
      CountBehindFirst(s[1..], i - 1);
    }
  }

  /** And behind a head that splits: service, tenant, project, then the path. */
  lemma SegmentFaults(service: string, tenant: string, project: string, path: string)
    requires ':' !in service && ':' !in tenant && ':' !in project
    ensures var r := Parse("mrn:" + service + ":" + tenant + ":" + project + ":" + path);
      && (r == Err(ServiceRequired) <==> service == "")
      && (r == Err(BadService) <==> !IsSegment(service))
      && (r == Err(BadTenant) <==> service != "" && IsSegment(service) && !IsSegment(tenant))
      && (r == Err(BadProject) <==> service != "" && IsSegment(service) && IsSegment(tenant) && !IsSegment(project))
      && (r.Ok? <==> service != "" && IsSegment(service) && IsSegment(tenant) && IsSegment(project) && IsPath(path))
      && (service != "" && IsSegment(service) && IsSegment(tenant) && IsSegment(project) ==>
           PathError(path) == if r.Ok? then None else Some(r.error))
  {
    RenderIsFlat(service, tenant, project, path);
    SplitRender(service, tenant, project, path);
    SegmentIsValid(service);
    SegmentIsValid(tenant);
    SegmentIsValid(project);
    PathIsValid(path);
    hide Render, SplitHead, ValidSegment, IsSegment, IsPath;
  }

  /** The same for a pattern, where a star is as good as a segment. */
  lemma PatternFaults(service: string, tenant: string, project: string, path: string)
    requires ':' !in service && ':' !in tenant && ':' !in project
    ensures var r := ParsePattern("mrn:" + service + ":" + tenant + ":" + project + ":" + path);
      var a, b, c := IsSegment(service) || service == "*", IsSegment(tenant) || tenant == "*",
                     IsSegment(project) || project == "*";
      && (r == Err(ServiceRequired) <==> service == "")
      && (r == Err(BadService) <==> !a)
      && (r == Err(BadTenant) <==> service != "" && a && !b)
      && (r == Err(BadProject) <==> service != "" && a && b && !c)
      && (service != "" && a && b && c ==>
           && (r == Err(MisplacedStar) <==> path != "" && '*' in path[..|path| - 1])
           && (r.Err? && r != Err(MisplacedStar) ==> PathError(TrimSuffix(path, "*")) == Some(r.error)))
  {
    RenderIsFlat(service, tenant, project, path);
    SplitRender(service, tenant, project, path);
    SegmentIsValid(service);
    SegmentIsValid(tenant);
    SegmentIsValid(project);
    PatternPathFaults(path);
    NoFaultTwice(path);
    hide Render, SplitHead, ValidSegment, IsSegment, PathError, PathPatternError, TrimSuffix;
  }

  lemma PatternPathFaults(path: string)
    ensures PathPatternError(path) == Some(MisplacedStar) <==> path != "" && '*' in path[..|path| - 1]
    ensures forall e :: PathPatternError(path) == Some(e) && e != MisplacedStar ==>
      PathError(TrimSuffix(path, "*")) == Some(e)
  {
    MisplacedStarIsNamed(path);
    if '*' !in path { StarFree(path); }
    hide PathError, Count;
  }

  /** The faults of a path are none of the head's. */
  lemma NoFaultTwice(path: string)
    ensures PathPatternError(path) !in {Some(ServiceRequired), Some(BadService), Some(BadTenant), Some(BadProject)}
  {
    hide Count, Utf8.Valid, AllPrint;
  }
}
