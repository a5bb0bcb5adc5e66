/** Patterns as sets of resources: what an accepted pattern grants determines its spelling. */
module MrnCanon {
  import opened Strings
  import Utf8
  import opened Mrn
  import opened MrnText
  import opened MrnMeaning

  /** Everything `b` matches, `a` matches. */
  ghost predicate Includes(a: string, b: string) {
    forall r: string :: MatchPattern(b, r) == Ok(true) ==> MatchPattern(a, r) == Ok(true)
  }

  predicate PathCovers(a: string, b: string) {
    if a == "*" then true
    else if HasSuffix(a, "*") then a[..|a| - 1] <= TrimSuffix(b, "*")
    else a == b
  }

  /** Segment by segment; a head segment covers another exactly when it matches its text. */
  predicate Covers(a: Pattern, b: Pattern) {
    && SegmentMatches(a.service, b.service)
    && SegmentMatches(a.tenant, b.tenant)
    && SegmentMatches(a.project, b.project)
    && PathCovers(a.path, b.path)
  }

  // ---------------------------------------------------------------- witnesses

  /** A segment `b` matches and, unless it covers b, `a` does not. */
  function PickSegment(b: string, a: string): (v: string)
    requires ValidHead(a) && ValidHead(b)
    ensures ValidSegment(v) && (b != "" ==> v != "")
    ensures SegmentMatches(b, v)
    ensures SegmentMatches(a, v) ==> SegmentMatches(a, b)
  {
    if b != "*" then b else if a == "a" then "b" else "a"
  }

  /** A resource path `b` matches and, unless it covers b, `a` does not. */
  function PickPath(b: string, a: string): string {
    var base := if b != "*" then TrimSuffix(b, "*") else if TrimSuffix(a, "*") == "a" then "b" else "a";
    if HasSuffix(b, "*") && base == a then base + "a" else base
  }

  lemma LettersArePaths()
    ensures ValidPath("a") && ValidPath("b")
  {
  }

  lemma ExtendedPathIsValid(path: string)
    requires ValidPath(path)
    ensures ValidPath(path + "a")
  {
    Utf8.DecodeConcat(path, "a");
    PrintableAscii("a");
  }

  lemma PickedPath(b: string, a: string)
    requires ValidPathPattern(a) && ValidPathPattern(b)
    ensures ValidPath(PickPath(b, a))
    ensures PathMatches(b, PickPath(b, a))
    ensures PathMatches(a, PickPath(b, a)) ==> PathCovers(a, b)
  {
    if b == "*" {
      PickedFromStar(a);
    } else if HasSuffix(b, "*") {
      PickedFromPrefix(b, a);
    } else {
      PathPatternShape(b);
    }
  }

  lemma PickedFromStar(a: string)
    requires ValidPathPattern(a)
    ensures ValidPath(PickPath("*", a))
    ensures PathMatches(a, PickPath("*", a)) ==> a == "*"
  {
    PathPatternShape(a);
    LettersArePaths();
    hide ValidPathPattern;
    assert ValidPath(TrimSuffix(a, "*")) ==> TrimSuffix(a, "*") != "";
    hide ValidPath;
    var base := if TrimSuffix(a, "*") == "a" then "b" else "a";
    ExtendedPathIsValid(base);
  }

  lemma PickedFromPrefix(b: string, a: string)
    requires ValidPathPattern(a) && ValidPathPattern(b) && b != "*" && HasSuffix(b, "*")
    ensures ValidPath(PickPath(b, a))
    ensures PathMatches(b, PickPath(b, a))
    ensures PathMatches(a, PickPath(b, a)) ==> PathCovers(a, b)
  {
    PathPatternShape(a);
    PathPatternShape(b);
    hide ValidPathPattern, ValidPath;
    var base := TrimSuffix(b, "*");
    ExtendedPathIsValid(base);
    assert base <= base + "a";
  }

  // ---------------------------------------------------------------- inclusion

  /** A name only b matches, if there is one; always a name b matches. */
  function PickName(b: Pattern, a: Pattern): Name
    requires ValidPattern(a) && ValidPattern(b)
  {
    Name(PickSegment(b.service, a.service), PickSegment(b.tenant, a.tenant), PickSegment(b.project, a.project),
         PickPath(b.path, a.path))
  }

  lemma PickedName(b: Pattern, a: Pattern)
    requires ValidPattern(a) && ValidPattern(b)
    ensures ValidName(PickName(b, a)) && Matches(b, PickName(b, a))
    ensures Matches(a, PickName(b, a)) ==> Covers(a, b)
  {
    PickedPath(b.path, a.path);
  }

  /** No accepted pattern is empty: each one grants at least one resource. */
  lemma EveryPatternMatchesSomething(s: string) returns (r: string)
    requires ParsePattern(s).Ok?
    ensures MatchPattern(s, r) == Ok(true)
  {
    var p := ParsePattern(s).value;
    ParsePatternPrint(s, p);
    PickedName(p, p);
    r := NameString(PickName(p, p));
    MatchOfPrints(p, PickName(p, p));
  }

  lemma CoversMatches(a: Pattern, b: Pattern, m: Name)
    requires ValidPattern(a) && ValidPattern(b) && Covers(a, b) && Matches(b, m) && ValidName(m)
    ensures Matches(a, m)
  {
  }

  /** Inclusion of grants is decided segment by segment. */
  lemma InclusionIsSegmentwise(s: string, t: string)
    requires ParsePattern(s).Ok? && ParsePattern(t).Ok?
    ensures Includes(s, t) <==> Covers(ParsePattern(s).value, ParsePattern(t).value)
  {
    var a, b := ParsePattern(s).value, ParsePattern(t).value;
    ParsePatternPrint(s, a);
    ParsePatternPrint(t, b);
    if Includes(s, t) {
      PickedName(b, a);
      MatchOfPrints(b, PickName(b, a));
      MatchOfPrints(a, PickName(b, a));
      assert MatchPattern(t, NameString(PickName(b, a))) == Ok(true);
    }
    if Covers(a, b) {
      forall r: string | MatchPattern(t, r) == Ok(true) ensures MatchPattern(s, r) == Ok(true) {
        ParsePrint(r, Parse(r).value);
        CoversMatches(a, b, Parse(r).value);
      }
    }
  }

  /** Two accepted patterns that grant the same resources are the same string. */
  lemma PatternsAreCanonical(s: string, t: string)
    requires ParsePattern(s).Ok? && ParsePattern(t).Ok?
    requires forall r: string :: MatchPattern(s, r) == Ok(true) <==> MatchPattern(t, r) == Ok(true)
    ensures s == t
  {
    InclusionIsSegmentwise(s, t);
    InclusionIsSegmentwise(t, s);
    var a, b := ParsePattern(s).value, ParsePattern(t).value;
    ParsePatternPrint(s, a);
    ParsePatternPrint(t, b);
    PathCoversAntisymmetric(a.path, b.path);
  }

  lemma PathCoversAntisymmetric(a: string, b: string)
    requires ValidPathPattern(a) && ValidPathPattern(b)
    requires PathCovers(a, b) && PathCovers(b, a)
    ensures a == b
  {
  }

  /** Any two path patterns are nested or share no resource path. */
  lemma PathsNestOrAreDisjoint(a: string, b: string)
    requires ValidPathPattern(a) && ValidPathPattern(b)
    ensures PathCovers(a, b) || PathCovers(b, a) || forall v :: !(PathMatches(a, v) && PathMatches(b, v))
  {
  }

  /** What covering a path pattern means, over the paths a resource can have. */
  lemma PathCoversIsInclusion(a: string, b: string)
    requires ValidPathPattern(a) && ValidPathPattern(b)
    ensures PathCovers(a, b) <==> forall v :: ValidPath(v) && PathMatches(b, v) ==> PathMatches(a, v)
  {
    PickedPath(b, a);
    PathPatternShape(a);
    PathPatternShape(b);
    if PathCovers(a, b) {
      forall v | ValidPath(v) && PathMatches(b, v) ensures PathMatches(a, v) { StarFreeOr(v); }
    }
  }
}
