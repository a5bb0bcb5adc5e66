/** What a pattern match means for the two raw strings, with no parsing in the definition. */
module MrnMeaning {
  import opened Strings
  import Utf8
  import opened Mrn
  import opened MrnText

  /** `s` is `pat` with every "*" replaced by some string; a "*" standing before the
      `head`-th ":" of the pattern may only be replaced by a colon-free string. */
  ghost predicate Expands(pat: string, s: string, head: nat)
    decreases |pat|
  {
    if pat == "" then s == ""
    else if pat[0] == '*' then exists k: nat :: StarTakes(pat, s, head, k)
    else s != "" && s[0] == pat[0] && Expands(pat[1..], s[1..], if pat[0] == ':' && head > 0 then head - 1 else head)
  }

  /** The leading "*" of pat is replaced by the first k bytes of s. */
  ghost predicate StarTakes(pat: string, s: string, head: nat, k: nat)
    requires pat != ""
    decreases |pat|, 0
  {
    k <= |s| && (head > 0 ==> ':' !in s[..k]) && Expands(pat[1..], s[k..], head)
  }

  /** The flat glob lets every "*" run across colons. */
  ghost predicate FlatGlob(pat: string, s: string) { Expands(pat, s, 0) }

  /** A star-free stretch of the pattern is matched byte for byte. */
  lemma {:induction false} LiteralStep(lit: string, rest: string, s: string, head: nat)
    requires '*' !in lit && (head == 0 || ':' !in lit)
    ensures Expands(lit + rest, s, head) <==> lit <= s && Expands(rest, s[|lit|..], head)
  {
    var pat := lit + rest;
    if lit == "" {
      assert pat == rest && s[0..] == s;
    } else {
      assert pat[0] == lit[0] && pat[1..] == lit[1..] + rest;
      if s != "" && s[0] == lit[0] {
        LiteralStep(lit[1..], rest, s[1..], head);
        if |lit| <= |s| { assert s[1..][|lit| - 1..] == s[|lit|..]; }
        assert lit == [lit[0]] + lit[1..] && s == [s[0]] + s[1..];
      }
    }
  }

  lemma ColonStep(rest: string, s: string, head: nat)
    requires head > 0
    ensures Expands(":" + rest, s, head) <==> s != "" && s[0] == ':' && Expands(rest, s[1..], head - 1)
  {
  }

  /** One head segment: the pattern's segment meets exactly the resource's segment. */
  lemma SegmentStep(seg: string, rest: string, v: string, tail: string, head: nat)
    requires ValidHead(seg) && ':' !in v && head > 0
    ensures Expands(seg + ":" + rest, v + ":" + tail, head) <==> SegmentMatches(seg, v) && Expands(rest, tail, head - 1)
  {
    var s := v + ":" + tail;
    assert seg + ":" + rest == seg + (":" + rest);
    assert s[|v|] == ':' && s[|v|..] == ":" + tail && s[..|v|] == v;
    ColonStep(rest, ":" + tail, head);
    assert (":" + tail)[1..] == tail;
    if seg == "*" {
      var pat := "*" + (":" + rest);
      assert pat[1..] == ":" + rest;
      forall k: nat | StarTakes(pat, s, head, k) ensures k == |v| {
        ColonStep(rest, s[k..], head);
        assert s[k..][0] == s[k];
        ColonIsAt(s, v, k);
      }
      assert StarTakes(pat, s, head, |v|) <==> Expands(rest, tail, head - 1);
    } else {
      LiteralStep(seg, ":" + rest, s, head);
      if seg <= s {
        ColonStep(rest, s[|seg|..], head);
        if |seg| < |s| && s[|seg|] == ':' { ColonIsAt(s, v, |seg|); }
      }
      if seg == v { assert seg <= s; }
    }
  }

  /** The first colon of s is right behind v. */
  lemma ColonIsAt(s: string, v: string, k: nat)
    requires |v| < |s| && s[..|v|] == v && ':' !in v && s[|v|] == ':'
    requires k < |s| && s[k] == ':' && ':' !in s[..k]
    ensures k == |v|
  {
  }

  /** A path pattern is a star-free literal, perhaps with one "*" behind it. */
  lemma PathPatternShape(path: string)
    requires ValidPathPattern(path)
    ensures path == "*" || ('*' !in path && !HasSuffix(path, "*") && ValidPath(path))
         || (HasSuffix(path, "*") && path == TrimSuffix(path, "*") + "*" && ValidPath(TrimSuffix(path, "*")))
  {
    StarFreeOr(path);
  }

  lemma {:induction false} CountConcat(a: string, b: string)
    ensures Count(a + b, '*') == Count(a, '*') + Count(b, '*')
  {
    if a == "" {
      assert a + b == b;
    } else {
      assert (a + b)[1..] == a[1..] + b;
      CountConcat(a[1..], b);
    }
  }

  lemma {:induction false} CountIsPresence(s: string)
    ensures Count(s, '*') > 0 <==> '*' in s
  {
    if s != "" {
      CountIsPresence(s[1..]);
      assert s == [s[0]] + s[1..];
    }
  }

  lemma CountOneStar()
    ensures Count("*", '*') == 1
  {
    assert "*"[1..] == "";
  }

  /** The misplaced-star fault is reported exactly when a star stands before the last byte. */
  lemma MisplacedStarIsNamed(path: string)
    ensures PathPatternError(path) == Some(MisplacedStar) <==> path != "" && '*' in path[..|path| - 1]
  {
    if path != "" {
      var init, last := path[..|path| - 1], path[|path| - 1..];
      assert path == init + last && last == [path[|path| - 1]];
      CountConcat(init, last);
      CountIsPresence(init);
      CountOneStar();
      assert '*' in path <==> '*' in init || last == "*";
    }
  }

  /** Exactly three shapes of path pattern are accepted: a bare star, a resource path, and
      a resource path with one star behind it. */
  lemma PathPatternGrammar(path: string)
    ensures ValidPathPattern(path) <==>
      (path == "*" || ValidPath(path) || (HasSuffix(path, "*") && ValidPath(TrimSuffix(path, "*"))))
  {
    if ValidPathPattern(path) { PathPatternShape(path); }
    if HasSuffix(path, "*") && ValidPath(TrimSuffix(path, "*")) {
      var lit := TrimSuffix(path, "*");
      assert path == lit + "*";
      CountConcat(lit, "*");
      CountIsPresence(lit);
      CountOneStar();
    }
  }

  lemma StarFreeOr(path: string)
    ensures '*' !in path ==> !HasSuffix(path, "*")
  {
    if '*' !in path { StarFree(path); }
  }

  /** The path part: everything behind the head is literal text, its colons included. */
  lemma PathStep(path: string, v: string)
    requires ValidPathPattern(path)
    ensures Expands(path, v, 0) <==> PathMatches(path, v)
  {
    PathPatternShape(path);
    if path == "*" {
      BareStar(v);
    } else if HasSuffix(path, "*") {
      var lit := TrimSuffix(path, "*");
      LiteralStep(lit, "*", v, 0);
      if lit <= v { BareStar(v[|lit|..]); }
    } else {
      assert path + "" == path;
      LiteralStep(path, "", v, 0);
    }
  }

  lemma BareStar(v: string)
    ensures Expands("*", v, 0)
  {
    assert "*"[1..] == "" && v[|v|..] == "";
    assert StarTakes("*", v, 0, |v|);
  }

  /** Matching, read off the two raw strings: the resource is the pattern with each head
      "*" replaced by a colon-free string and a final path "*" by any string. */
  lemma MatchMeansExpansion(pattern: string, resource: string)
    requires ParsePattern(pattern).Ok? && Parse(resource).Ok?
    ensures MatchPattern(pattern, resource) == Ok(Expands(pattern, resource, 4))
  {
    hide Expands, Parse, ParsePattern, MatchPattern, PathMatches, ValidPathPattern, ValidPath;
    var p, m := ParsePattern(pattern).value, Parse(resource).value;
    ParsePatternPrint(pattern, p);
    ParsePrint(resource, m);
    var p3, m3 := p.path, m.path;
    var p2, m2 := p.project + ":" + p3, m.project + ":" + m3;
    var p1, m1 := p.tenant + ":" + p2, m.tenant + ":" + m2;
    var p0, m0 := p.service + ":" + p1, m.service + ":" + m1;
    assert pattern == "mrn" + ":" + p0 && resource == "mrn" + ":" + m0;
    SegmentStep("mrn", p0, "mrn", m0, 4);
    SegmentStep(p.service, p1, m.service, m1, 3);
    SegmentStep(p.tenant, p2, m.tenant, m2, 2);
    SegmentStep(p.project, p3, m.project, m3, 1);
    PathStep(p3, m3);
    MatchOfPrints(p, m);
  }

  /** The whole answer: a verdict exactly when both sides are valid for their roles, and then
      that one; otherwise an error and never false, the pattern's before the resource's. */
  lemma MatchOrError(pattern: string, resource: string)
    ensures var p, r, answer := ParsePattern(pattern), Parse(resource), MatchPattern(pattern, resource);
      && (forall verdict :: answer == Ok(verdict) <==> p.Ok? && r.Ok? && verdict == Expands(pattern, resource, 4))
      && (p.Err? ==> answer == Err(p.error))
      && (p.Ok? && r.Err? ==> answer == Err(r.error))
  {
    if ParsePattern(pattern).Ok? && Parse(resource).Ok? { MatchMeansExpansion(pattern, resource); }
    hide ParsePattern, Parse, Expands, Matches;
  }

  /** Confining the stars only ever removes matches. */
  lemma {:induction false} ConfinedIsFlat(pat: string, s: string, head: nat)
    requires Expands(pat, s, head)
    ensures FlatGlob(pat, s)
    decreases |pat|
  {
    if pat != "" {
      if pat[0] == '*' {
        var k: nat :| StarTakes(pat, s, head, k);
        ConfinedIsFlat(pat[1..], s[k..], head);
        assert StarTakes(pat, s, 0, k);
      } else {
        ConfinedIsFlat(pat[1..], s[1..], if pat[0] == ':' && head > 0 then head - 1 else head);
      }
    }
  }

  /** A match is a flat-glob match: segment awareness is never looser. */
  lemma NeverLooserThanGlob(pattern: string, resource: string)
    requires MatchPattern(pattern, resource) == Ok(true)
    ensures FlatGlob(pattern, resource)
  {
    MatchMeansExpansion(pattern, resource);
    ConfinedIsFlat(pattern, resource, 4);
  }

  /** ... and it is strictly tighter: whatever the segments are, a flat glob lets a tenant
      "*" swallow "<tenant>:<project>", which the matcher never does. */
  lemma StrictlyTighterThanGlob(service: string, tenant: string, project: string, path: string)
    requires service != "" && ValidSegment(service) && ValidSegment(tenant) && ValidSegment(project) && ValidPath(path)
    ensures var pattern := Render(service, "*", project, path);
      var resource := Render(service, tenant, project, project + ":" + path);
      FlatGlob(pattern, resource) && MatchPattern(pattern, resource) == Ok(false)
  {
    StarNeverSwallows(service, tenant, project, path);
    RegroupStar(service, project, path);
    RegroupSwallowed(service, tenant, project, path);
    FlatStar(PREFIX + (service + ":"), tenant + ":" + project, ":" + (project + ":" + path));
  }

  lemma StarNeverSwallows(service: string, tenant: string, project: string, path: string)
    requires service != "" && ValidSegment(service) && ValidSegment(tenant) && ValidSegment(project) && ValidPath(path)
    ensures MatchPattern(Render(service, "*", project, path), Render(service, tenant, project, project + ":" + path))
         == Ok(false)
  {
    PrependedPathIsValid(project, path);
    StarFree(path);
    MatchOfPrints(Pattern(service, "*", project, path), Name(service, tenant, project, project + ":" + path));
  }

  lemma RegroupStar(service: string, project: string, path: string)
    ensures Render(service, "*", project, path) == PREFIX + (service + ":") + ("*" + (":" + (project + ":" + path)))
  {
  }

  lemma RegroupSwallowed(service: string, tenant: string, project: string, path: string)
    ensures Render(service, tenant, project, project + ":" + path)
         == PREFIX + (service + ":") + ((tenant + ":" + project) + (":" + (project + ":" + path)))
  {
  }

  lemma FlatStar(head: string, s: string, tail: string)
    requires '*' !in head && '*' !in tail
    ensures FlatGlob(head + ("*" + tail), head + (s + tail))
  {
    LiteralStep(head, "*" + tail, head + (s + tail), 0);
    assert (head + (s + tail))[|head|..] == s + tail;
    LiteralStep(tail, "", tail, 0);
    assert tail + "" == tail && tail[|tail|..] == "";
    assert ("*" + tail)[1..] == tail && (s + tail)[|s|..] == tail;
    assert StarTakes("*" + tail, s + tail, 0, |s|);
  }

  lemma PrependedPathIsValid(segment: string, path: string)
    requires ValidSegment(segment) && ValidPath(path)
    ensures ValidPath(segment + ":" + path)
  {
    var a := segment + ":";
    PrintableAscii(a);
    Utf8.DecodeConcat(a, path);
  }

  lemma {:induction false} PrintableAscii(s: string)
    requires forall i :: 0 <= i < |s| ==> 0x20 <= s[i] as int <= 0x7E
    ensures Utf8.Valid(s) && AllPrint(Utf8.Decode(s))
  {
    if s != "" { PrintableAscii(s[1..]); }
  }

  /** Matching printed forms is matching the parsed forms. */
  lemma MatchOfPrints(p: Pattern, m: Name)
    requires ValidPattern(p) && ValidName(m)
    ensures MatchPattern(PatternString(p), NameString(m)) == Ok(Matches(p, m))
  {
    ParsePatternPrint(PatternString(p), p);
    ParsePrint(NameString(m), m);
  }
}

/** Matching bytes is matching code points: the two never disagree on accepted input. */
module MrnCodePoints {
  import opened Strings
  import opened Utf8
  import opened Mrn
  import opened MrnText
  import opened MrnMeaning

  const COLON: CodePoint := ':' as int
  const STAR: CodePoint := '*' as int

  predicate TextSegmentMatches(pattern: seq<CodePoint>, value: seq<CodePoint>) {
    pattern == [STAR] || pattern == value
  }

  predicate TextPathMatches(pattern: seq<CodePoint>, value: seq<CodePoint>) {
    if HasSuffix(pattern, [STAR]) then pattern[..|pattern| - 1] <= value else pattern == value
  }

  /** The matching rules read over decoded text instead of bytes. */
  predicate TextMatches(pattern: seq<CodePoint>, resource: seq<CodePoint>) {
    TextPartsMatch(SplitN(pattern, COLON, 5), SplitN(resource, COLON, 5))
  }

  predicate TextPartsMatch(p: seq<seq<CodePoint>>, r: seq<seq<CodePoint>>) {
    && |p| == |r| == 5
    && p[0] == r[0]
    && TextSegmentMatches(p[1], r[1])
    && TextSegmentMatches(p[2], r[2])
    && TextSegmentMatches(p[3], r[3])
    && TextPathMatches(p[4], r[4])
  }

  lemma {:induction false} AsciiIsValid(s: string)
    requires forall i :: 0 <= i < |s| ==> s[i] as int <= 0x7F
    ensures Valid(s)
  {
    if s != "" { AsciiIsValid(s[1..]); }
  }

  lemma ConcatIsValid(a: string, b: string)
    requires Valid(a) && Valid(b)
    ensures Valid(a + b)
  {
    DecodeConcat(a, b);
  }

  lemma RenderIsValid(service: string, tenant: string, project: string, path: string)
    requires ValidHead(service) && ValidHead(tenant) && ValidHead(project) && Valid(path)
    ensures Valid(Render(service, tenant, project, path))
  {
    AsciiIsValid(service + ":");
    AsciiIsValid(tenant + ":");
    AsciiIsValid(project + ":");
    AsciiIsValid(PREFIX);
    ConcatIsValid(project + ":", path);
    ConcatIsValid(tenant + ":", project + ":" + path);
    ConcatIsValid(service + ":", tenant + ":" + (project + ":" + path));
    ConcatIsValid(PREFIX, service + ":" + (tenant + ":" + (project + ":" + path)));
  }

  /** Everything either parser accepts is valid UTF-8 as a whole. */
  lemma AcceptedIsValid(s: string)
    ensures Parse(s).Ok? || ParsePattern(s).Ok? ==> Valid(s)
  {
    if Parse(s).Ok? {
      var m := Parse(s).value;
      ParsePrint(s, m);
      RenderIsValid(m.service, m.tenant, m.project, m.path);
    } else if ParsePattern(s).Ok? {
      var p := ParsePattern(s).value;
      ParsePatternPrint(s, p);
      PathPatternIsValid(p.path);
      RenderIsValid(p.service, p.tenant, p.project, p.path);
    }
  }

  lemma PathPatternIsValid(path: string)
    requires ValidPathPattern(path)
    ensures Valid(path)
  {
    PathPatternShape(path);
    AsciiIsValid("*");
    if HasSuffix(path, "*") && path != "*" { ConcatIsValid(TrimSuffix(path, "*"), "*"); }
  }

  lemma SegmentAgrees(pattern: string, value: string)
    requires Valid(pattern) && Valid(value)
    ensures SegmentMatches(pattern, value) <==> TextSegmentMatches(Decode(pattern), Decode(value))
  {
    DecodeAscii('*');
    DecodeInjective(pattern, "*");
    DecodeInjective(pattern, value);
  }

  lemma PathAgrees(pattern: string, value: string)
    requires ValidPathPattern(pattern) && Valid(pattern) && Valid(value)
    ensures PathMatches(pattern, value) <==> TextPathMatches(Decode(pattern), Decode(value))
  {
    PathPatternShape(pattern);
    DecodeAscii('*');
    if pattern == "*" {
      assert Decode(pattern) == [STAR];
    } else if HasSuffix(pattern, "*") {
      var lit := TrimSuffix(pattern, "*");
      DecodeConcat(lit, "*");
      assert Decode(pattern) == Decode(lit) + [STAR];
      assert Decode(pattern)[..|Decode(pattern)| - 1] == Decode(lit);
      PrefixIsCodePointPrefix(lit, value);
    } else {
      AsciiAbsent(pattern, '*');
      assert !HasSuffix(Decode(pattern), [STAR]) by { LastIsIn(Decode(pattern), STAR); }
      DecodeInjective(pattern, value);
    }
  }

  lemma LastIsIn(s: seq<CodePoint>, c: CodePoint)
    ensures HasSuffix(s, [c]) ==> c in s
  {
    if HasSuffix(s, [c]) { assert s[|s| - 1..][0] == c; }
  }

  /** The whole matcher, on raw accepted strings. */
  lemma BytesMatchAsText(pattern: string, resource: string)
    requires ParsePattern(pattern).Ok? && Parse(resource).Ok?
    ensures Valid(pattern) && Valid(resource)
    ensures MatchPattern(pattern, resource) == Ok(TextMatches(Decode(pattern), Decode(resource)))
  {
    hide PathError, PathPatternError, ValidSegment, TextPartsMatch, Matches, Valid, Decode;
    AcceptedIsValid(pattern);
    AcceptedIsValid(resource);
    PartsDecode(pattern);
    PartsDecode(resource);
    PartsAgree(SplitN(pattern, ':', 5), SplitN(Decode(pattern), COLON, 5),
               SplitN(resource, ':', 5), SplitN(Decode(resource), COLON, 5));
  }

  lemma PartsAgree(ps: seq<string>, pt: seq<seq<CodePoint>>, rs: seq<string>, rt: seq<seq<CodePoint>>)
    requires Spell(ps, pt) && Spell(rs, rt) && |ps| == |rs| == 5
    requires ps[0] == rs[0] && ValidPathPattern(ps[4])
    ensures Matches(Pattern(ps[1], ps[2], ps[3], ps[4]), Name(rs[1], rs[2], rs[3], rs[4])) <==> TextPartsMatch(pt, rt)
  {
    SegmentAgrees(ps[1], rs[1]);
    SegmentAgrees(ps[2], rs[2]);
    SegmentAgrees(ps[3], rs[3]);
    PathAgrees(ps[4], rs[4]);
  }

  lemma PartsDecode(s: string)
    requires Valid(s) && SplitHead(s).Ok?
    ensures Spell(SplitN(s, ':', 5), SplitN(Decode(s), COLON, 5))
    ensures SplitN(s, ':', 5)[0] == "mrn"
  {
    SplitNIsCodePointSplit(s, ':', 5);
    SplitHeadRenders(s);
    var parts := SplitN(s, ':', 5);
    SplitNStep("mrn", ':', parts[1] + ":" + (parts[2] + ":" + (parts[3] + ":" + parts[4])), 5);
    assert s == "mrn" + ":" + (parts[1] + ":" + (parts[2] + ":" + (parts[3] + ":" + parts[4])));
  }
}
