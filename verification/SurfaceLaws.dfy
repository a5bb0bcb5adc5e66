/** Laws of the table's path handling: slashes, keys and segment boundaries. */
module PathLaws {
  import opened Strings
  import opened TextLaws
  import opened Principals
  import opened Surfaces

  // ---------------------------------------------------------------- trailing slashes

  lemma {:induction false} TrimSlashSpec(path: string)
    ensures var t := TrimTrailingSlash(path);
      && t <= path && path == t + Repeat('/', |path| - |t|)
      && (t == "" <==> path == "")
      && (|t| > 1 ==> t[|t| - 1] != '/')
    decreases |path|
  {
    if |path| > 1 && path[|path| - 1] == '/' {
      var shorter := path[..|path| - 1];
      TrimSlashSpec(shorter);
      var t := TrimTrailingSlash(shorter);
      assert path == shorter + "/";
      assert Repeat('/', |path| - |t|) == Repeat('/', |shorter| - |t|) + "/";
      assert path == t + (Repeat('/', |shorter| - |t|) + "/");
    } else {
      assert path == path + Repeat('/', 0);
    }
  }

  lemma TrimSlashIdempotent(path: string)
    ensures TrimTrailingSlash(TrimTrailingSlash(path)) == TrimTrailingSlash(path)
  {
  }

  /** Slashes behind a non-empty path do not change what trimming leaves. */
  lemma {:induction false} TrimSlashAbsorbs(base: string, n: nat)
    requires base != ""
    ensures TrimTrailingSlash(base + Repeat('/', n)) == TrimTrailingSlash(base)
  {
    if n == 0 {
      assert base + Repeat('/', 0) == base;
    } else {
      var p := base + Repeat('/', n);
      assert p[|p| - 1] == '/' && p[..|p| - 1] == base + Repeat('/', n - 1);
      TrimSlashAbsorbs(base, n - 1);
    }
  }

  /** p and q are one non-empty base followed by slashes, or both empty. */
  ghost predicate SameButSlashes(p: string, q: string) {
    p == q == "" || exists base: string, i: nat, j: nat :: IsSlashed(p, base, i) && IsSlashed(q, base, j)
  }

  predicate IsSlashed(p: string, base: string, n: nat) {
    base != "" && p == base + Repeat('/', n)
  }

  lemma TrimSlashEquality(p: string, q: string)
    ensures TrimTrailingSlash(p) == TrimTrailingSlash(q) <==> SameButSlashes(p, q)
  {
    TrimSlashSpec(p);
    TrimSlashSpec(q);
    if TrimTrailingSlash(p) == TrimTrailingSlash(q) && p != "" {
      var base := TrimTrailingSlash(p);
      assert IsSlashed(p, base, |p| - |base|) && IsSlashed(q, base, |q| - |base|);
    }
    if base: string, i: nat, j: nat :| IsSlashed(p, base, i) && IsSlashed(q, base, j) {
      TrimSlashAbsorbs(base, i);
      TrimSlashAbsorbs(base, j);
    }
  }

  // ---------------------------------------------------------------- exact keys

  lemma CutAtSpace(a: string, x: string, b: string, y: string)
    requires ' ' !in a && ' ' !in b
    ensures a + " " + x == b + " " + y <==> a == b && x == y
  {
    if a + " " + x == b + " " + y {
      IndexOfFirst(a, ' ', x);
      IndexOfFirst(b, ' ', y);
      assert (a + " " + x)[|a|..] == " " + x && (b + " " + y)[|b|..] == " " + y;
      assert (" " + x)[1..] == x && (" " + y)[1..] == y;
      assert (a + " " + x)[..|a|] == a && (b + " " + y)[..|b|] == b;
    }
  }

  /** For methods without a space inside, two keys are equal exactly when the methods fold
      to the same text and the paths differ in trailing slashes only. */
  lemma ExactKeyEquality(m: string, p: string, n: string, q: string)
    requires ' ' !in TrimSpace(m) && ' ' !in TrimSpace(n)
    ensures ExactKey(m, p) == ExactKey(n, q) <==> MethodKey(m) == MethodKey(n) && SameButSlashes(p, q)
  {
    hide TrimTrailingSlash, SameButSlashes, TrimSpace, ToUpper;
    UpperLaws(TrimSpace(m));
    UpperLaws(TrimSpace(n));
    CutAtSpace(MethodKey(m), TrimTrailingSlash(p), MethodKey(n), TrimTrailingSlash(q));
    TrimSlashEquality(p, q);
  }

  /** With spaces inside methods, keys of different methods can meet: exactly when one
      method, with a space behind it, starts the other. */
  lemma MethodsCollide(m: string, n: string)
    ensures (exists p: string, q: string :: ExactKey(m, p) == ExactKey(n, q))
       <==> MethodKey(m) == MethodKey(n) || MethodKey(m) + " " <= MethodKey(n) || MethodKey(n) + " " <= MethodKey(m)
  {
    hide MethodKey;
    var a, b := MethodKey(m), MethodKey(n);
    if p: string, q: string :| ExactKey(m, p) == ExactKey(n, q) {
      LongerHead(a, TrimTrailingSlash(p), b, TrimTrailingSlash(q));
    }
    if a == b { assert ExactKey(m, "") == ExactKey(n, ""); }
    if a + " " <= b { CollideAt(m, n); }
    if b + " " <= a { CollideAt(n, m); }
  }

  lemma LongerHead(a: string, x: string, b: string, y: string)
    requires a + " " + x == b + " " + y
    ensures a == b || a + " " <= b || b + " " <= a
  {
    var s := a + " " + x;
    assert s[..|a|] == a && s[..|b|] == b && s[|a|] == ' ' && s[|b|] == ' ';
    assert s[..|a| + 1] == a + " " && s[..|b| + 1] == b + " ";
    assert |a| < |b| ==> s[..|b|][..|a| + 1] == s[..|a| + 1];
    assert |b| < |a| ==> s[..|a|][..|b| + 1] == s[..|b| + 1];
  }

  lemma CollideAt(m: string, n: string)
    requires MethodKey(m) + " " <= MethodKey(n)
    ensures exists p: string, q: string :: ExactKey(m, p) == ExactKey(n, q)
  {
    hide MethodKey;
    var a, b := MethodKey(m), MethodKey(n);
    var p, q := b[|a| + 1..] + " x", "x";
    assert p[|p| - 1] == 'x';
    assert b == a + " " + b[|a| + 1..];
    assert a + " " + p == b + " " + q;
    assert ExactKey(m, p) == ExactKey(n, q);
  }

  /** The two case foldings on ASCII, by codes: only letters move, by 32. */
  lemma AsciiCase(s: string)
    ensures |AsciiUpper(s)| == |AsciiLower(s)| == |s|
    ensures forall i :: 0 <= i < |s| ==>
      AsciiUpper(s)[i] as int == s[i] as int - if 0x61 <= s[i] as int <= 0x7A then 32 else 0
    ensures forall i :: 0 <= i < |s| ==>
      AsciiLower(s)[i] as int == s[i] as int + if 0x41 <= s[i] as int <= 0x5A then 32 else 0
  {
  }

  /** The key of a request: its method in upper case, a space, and its path without the
      slashes behind it. */
  lemma KeyOfRequest(m: string, base: string, n: nat)
    requires IsAscii(TrimSpace(m)) && base != "" && (base == "/" || base[|base| - 1] != '/')
    ensures ExactKey(m, base + Repeat('/', n)) == AsciiUpper(TrimSpace(m)) + " " + base
  {
    TrimSlashAbsorbs(base, n);
    hide AsciiUpper, TrimSpace;
  }

  /** Folding a method twice is folding it once. */
  lemma MethodKeyIdempotent(m: string)
    ensures MethodKey(MethodKey(m)) == MethodKey(m)
  {
    hide ToUpper, Trimmed, TrimSpace;
    var t := TrimSpace(m);
    TrimSpaceTrims(m);
    TrimSpaceTrims(ToUpper(t));
    UpperLaws(t);
  }

  /** An entry key some request can have: up to some space a method that is already folded,
      and behind it a path without trailing slashes. */
  predicate IsRequestKey(k: string) {
    exists i :: 0 <= i < |k| && k[i] == ' ' && IsFolded(k, i)
  }

  predicate IsFolded(k: string, i: nat)
    requires i < |k|
  {
    MethodKey(k[..i]) == k[..i] && TrimTrailingSlash(k[i + 1..]) == k[i + 1..]
  }

  /** Those are all the keys requests have. */
  lemma RequestKeys(k: string)
    ensures (exists m: string, p: string :: ExactKey(m, p) == k) <==> IsRequestKey(k)
  {
    hide MethodKey, TrimTrailingSlash;
    if m: string, p: string :| ExactKey(m, p) == k {
      var a, b := MethodKey(m), TrimTrailingSlash(p);
      MethodKeyIdempotent(m);
      TrimSlashIdempotent(p);
      assert k[|a|] == ' ' && k[..|a|] == a && k[|a| + 1..] == b;
      assert IsFolded(k, |a|);
    }
    if IsRequestKey(k) {
      var i :| 0 <= i < |k| && k[i] == ' ' && IsFolded(k, i);
      assert k == k[..i] + " " + k[i + 1..];
      assert ExactKey(k[..i], k[i + 1..]) == k;
    }
  }

  lemma MethodKeyIsTrimmed(m: string)
    ensures Trimmed(MethodKey(m))
  {
    hide ToUpper, Trimmed, TrimSpace;
    TrimSpaceTrims(m);
    UpperLaws(TrimSpace(m));
  }

  lemma UpperFixes(m: string)
    requires IsAscii(m)
    ensures ToUpper(m) == m <==> forall c :: c in m ==> !('a' <= c <= 'z')
  {
    if ToUpper(m) == m {
      forall i | 0 <= i < |m| ensures !('a' <= m[i] <= 'z') {
        assert ToUpper(m)[i] == m[i];
      }
    } else {
      var i :| 0 <= i < |m| && ToUpper(m)[i] != m[i];
      assert m[i] in m;
    }
  }

  /** For ASCII: folded is trimmed, without a lower-case letter. */
  lemma AsciiFolded(m: string)
    requires IsAscii(m)
    ensures MethodKey(m) == m <==> Trimmed(m) && forall c :: c in m ==> !('a' <= c <= 'z')
  {
    hide Trimmed, TrimSpace;
    TrimSpaceTrims(m);
    TrimSpaceTrims(MethodKey(m));
    MethodKeyIdempotent(m);
    MethodKeyIsTrimmed(m);
    if Trimmed(m) { UpperFixes(m); }
    hide MethodKey;
  }

  function WithEntry(t: Table, k: string, rule: Rule): Table { t.(exact := t.exact[k := rule]) }

  /** An exact entry can decide a request exactly when its key is one that requests have:
      an entry under any other key is dead, and its surface falls through to the segment
      pair whatever the entry says. */
  lemma ExactEntryCounts(t: Table, k: string)
    ensures (exists rule: Rule, s: Surface :: Resolve(WithEntry(t, k, rule), s) != Resolve(t, s)) <==> IsRequestKey(k)
  {
    RequestKeys(k);
    hide IsRequestKey, ExactKey, RouteKey;
    if m: string, p: string :| ExactKey(m, p) == k {
      var s := Surface(p, m, "");
      var was := Resolve(t, s);
      var rule := Rule("", if was == Some(Rule("", AnyActor)) then UserOnly else AnyActor);
      assert Resolve(WithEntry(t, k, rule), s) != was;
    }
    if rule: Rule, s: Surface :| Resolve(WithEntry(t, k, rule), s) != Resolve(t, s) {
      assert ExactKey(s.httpMethod, s.path) == k by { OtherKeySameRule(t, k, rule, s); }
    }
  }

  lemma OtherKeySameRule(t: Table, k: string, rule: Rule, s: Surface)
    ensures s.IsGrpc() || ExactKey(s.httpMethod, s.path) != k ==> Resolve(WithEntry(t, k, rule), s) == Resolve(t, s)
  {
    hide ExactKey, FirstSegment;
  }

  // ---------------------------------------------------------------- segments

  lemma Regroup(a: string, b: string, c: string)
    ensures (a + "/" + b) + "/" + c == a + "/" + (b + "/" + c)
  {
  }

  /** A slash between two paths puts their segments side by side. */
  lemma {:induction false} SplitConcat(q: string, rest: string)
    ensures Split(q + "/" + rest, '/') == Split(q, '/') + Split(rest, '/')
    decreases |q|
  {
    if '/' !in q {
      SplitStep(q, '/', rest);
    } else {
      var j := IndexOf(q, '/');
      var head, tail := q[..j], q[j + 1..];
      assert q == head + "/" + tail;
      SplitConcat(tail, rest);
      Regroup(head, tail, rest);
      SplitStep(head, '/', tail + "/" + rest);
      assert [head] + (Split(tail, '/') + Split(rest, '/')) == ([head] + Split(tail, '/')) + Split(rest, '/');
    }
  }

  lemma {:induction false} JoinConcat(a: seq<string>, b: seq<string>)
    requires a != [] && b != []
    ensures Join(a + b, "/") == Join(a, "/") + "/" + Join(b, "/")
  {
    if |a| == 1 {
      JoinCons(a[0], b, "/");
      assert a == [a[0]];
    } else {
      JoinConcat(a[1..], b);
      JoinCons(a[0], a[1..], "/");
      JoinCons(a[0], a[1..] + b, "/");
      assert a == [a[0]] + a[1..] && a + b == [a[0]] + (a[1..] + b);
      Regroup(a[0], Join(a[1..], "/"), Join(b, "/"));
    }
  }

  /** One path's segments begin with another's exactly when the path itself is the other
      or continues it behind a slash. */
  lemma SplitPrefix(q: string, path: string)
    ensures Split(q, '/') <= Split(path, '/') <==> path == q || q + "/" <= path
  {
    if q + "/" <= path { ContinuedSplits(q, path); }
    if Split(q, '/') <= Split(path, '/') { SplitsContinue(q, path); }
  }

  lemma ContinuedSplits(q: string, path: string)
    requires q + "/" <= path
    ensures Split(path, '/') == Split(q, '/') + Split(path[|q| + 1..], '/')
  {
    assert path == q + "/" + path[|q| + 1..];
    SplitConcat(q, path[|q| + 1..]);
  }

  lemma SplitsContinue(q: string, path: string)
    requires Split(q, '/') <= Split(path, '/')
    ensures path == q || q + "/" <= path
  {
    var a, all := Split(q, '/'), Split(path, '/');
    var more := all[|a|..];
    assert all == a + more;
    SplitHasParts(q, '/');
    SplitHasParts(path, '/');
    if more == [] {
      assert all == a;
    } else {
      JoinConcat(a, more);
    }
  }

  /** The prefix test is a test on segments: with one trailing slash of the prefix
      dropped, its segments must begin the path's. */
  lemma PrefixTestIsSegmentTest(path: string, prefix: string)
    ensures PathHasPrefix(path, prefix) <==> prefix != "" && Split(TrimSuffix(prefix, "/"), '/') <= Split(path, '/')
  {
    SplitPrefix(TrimSuffix(prefix, "/"), path);
  }

  /** path is q or lies beneath it. */
  ghost predicate LiesUnder(path: string, q: string) {
    path == q || exists rest :: path == q + "/" + rest
  }

  /** The prefix test with the one slash that may end the prefix left out of account. */
  lemma PrefixTestIsLyingUnder(path: string, q: string)
    ensures PathHasPrefix(path, q + "/") <==> LiesUnder(path, q)
    ensures q != "" && q[|q| - 1] != '/' ==> (PathHasPrefix(path, q) <==> LiesUnder(path, q))
    ensures !PathHasPrefix(path, "")
  {
    assert TrimSuffix(q + "/", "/") == q;
    if q != "" && q[|q| - 1] != '/' { assert q[|q| - 1..] != "/" by { assert q[|q| - 1..][0] != '/'; } }
    if q + "/" <= path { assert path == q + "/" + path[|q| + 1..]; }
  }

  /** Under a prefix that ends in a slash, the route key is the segment right behind the
      prefix's own, and "" for every path that has none there. */
  lemma FirstSegmentIsNextSegment(q: string, path: string)
    ensures FirstSegment(q + "/", path)
         == if Split(q, '/') < Split(path, '/') then Split(path, '/')[|Split(q, '/')|] else ""
  {
    SplitPrefix(q, path);
    if q + "/" <= path {
      ContinuedSplits(q, path);
      FirstPart(path[|q| + 1..]);
      NextPart(Split(q, '/'), Split(path[|q| + 1..], '/'), Split(path, '/'));
    } else {
      hide Split;
      assert FirstSegment(q + "/", path) == "";
    }
  }

  /** Whatever the prefix, it is what stands behind it up to the next slash, and "" for a
      path that does not begin with the prefix. */
  lemma FirstSegmentBehind(prefix: string, path: string)
    requires prefix != ""
    ensures forall rest :: path == prefix + rest ==> FirstSegment(prefix, path) == Split(rest, '/')[0]
    ensures !(prefix <= path) ==> FirstSegment(prefix, path) == ""
  {
    forall rest | path == prefix + rest ensures FirstSegment(prefix, path) == Split(rest, '/')[0] {
      assert path[|prefix|..] == rest;
      FirstPart(rest);
    }
  }

  /** With no prefix it is the path's own first segment, one leading slash aside. */
  lemma FirstSegmentOfPath(path: string)
    ensures FirstSegment("", path) == Split(TrimPrefix(path, "/"), '/')[0]
  {
    FirstPart(TrimPrefix(path, "/"));
  }

  /** Exactly which prefixes keep to segment boundaries: those that end in a slash. Under
      any other the path that runs on from it has a route key without lying beneath it. */
  lemma RouteKeyNeedsSlash(prefix: string)
    requires prefix != ""
    ensures (forall path :: FirstSegment(prefix, path) != "" ==> PathHasPrefix(path, prefix))
       <==> HasSuffix(prefix, "/")
  {
    if HasSuffix(prefix, "/") {
      forall path | FirstSegment(prefix, path) != "" ensures PathHasPrefix(path, prefix) {
        assert prefix == TrimSuffix(prefix, "/") + "/";
      }
    } else {
      var path := prefix + "x";
      assert path[|prefix|..] == "x";
      assert FirstSegment(prefix, path) == "x";
      assert !PathHasPrefix(path, prefix);
    }
  }

  lemma NextPart(a: seq<string>, b: seq<string>, all: seq<string>)
    requires all == a + b && b != []
    ensures a < all && all[|a|] == b[0]
  {
  }

  lemma FirstPart(s: string)
    ensures Split(s, '/')[0] == s[..IndexOf(s, '/')]
  {
  }

  // ---------------------------------------------------------------- slash invariance

  /** Slashes behind a non-empty path never change its route key, whatever the prefix. */
  lemma RouteKeyAbsorbsSlashes(prefix: string, path: string, n: nat)
    requires path != ""
    ensures FirstSegment(prefix, path + Repeat('/', n)) == FirstSegment(prefix, path)
  {
    var slashes := Repeat('/', n);
    var longer := path + slashes;
    var cut := if prefix != "" then prefix else "/";
    assert path[0] == longer[0];
    if cut <= path {
      var rest := path[|cut|..];
      assert longer[|cut|..] == rest + slashes;
      FirstStops(rest, n);
    } else if prefix == "" {
      assert !("/" <= longer) by { assert longer[..1] == path[..1]; }
      FirstStops(path, n);
    } else if prefix <= longer {
      assert longer[..|path|] == path;
      var k := |prefix| - |path|;
      assert longer[|prefix|..] == Repeat('/', n - k);
      FirstStops("", n - k);
      assert "" + Repeat('/', n - k) == Repeat('/', n - k);
    }
  }

  lemma FirstStops(rest: string, n: nat)
    ensures var longer := rest + Repeat('/', n);
      longer[..IndexOf(longer, '/')] == rest[..IndexOf(rest, '/')]
  {
    var longer := rest + Repeat('/', n);
    if '/' in rest {
      var i := IndexOf(rest, '/');
      assert longer[i] == '/' && forall j :: 0 <= j < i ==> longer[j] == rest[j];
      assert IndexOf(longer, '/') == i;
    } else if n > 0 {
      assert longer == rest + ['/'] + Repeat('/', n - 1);
      IndexOfFirst(rest, '/', Repeat('/', n - 1));
    } else {
      assert longer == rest;
    }
  }

  /** An exemption prefix that keeps no slash once one is dropped. "/" and "//" qualify:
      what they leave is empty or matches every non-empty path of slashes. */
  predicate SlashSafe(prefix: string) {
    var q := TrimSuffix(prefix, "/");
    q == "" || q == "/" || q[|q| - 1] != '/'
  }

  /** An exemption prefix treats a path and the path with slashes behind it alike exactly
      when it is slash-safe. */
  lemma ExemptionAbsorbsSlashes(prefix: string)
    ensures SlashSafe(prefix) <==>
      forall path: string, n: nat :: path != "" ==>
        PathHasPrefix(path + Repeat('/', n), prefix) == PathHasPrefix(path, prefix)
  {
    if SlashSafe(prefix) {
      forall path: string, n: nat | path != ""
        ensures PathHasPrefix(path + Repeat('/', n), prefix) == PathHasPrefix(path, prefix)
      {
        SafePrefixAbsorbs(prefix, path, n);
      }
    } else {
      var q := TrimSuffix(prefix, "/");
      var path := q[..|q| - 1];
      assert path + Repeat('/', 1) == q;
      assert PathHasPrefix(path + Repeat('/', 1), prefix) && !PathHasPrefix(path, prefix);
    }
  }

  lemma SafePrefixAbsorbs(prefix: string, path: string, n: nat)
    requires SlashSafe(prefix) && path != ""
    ensures PathHasPrefix(path + Repeat('/', n), prefix) == PathHasPrefix(path, prefix)
  {
    var q := TrimSuffix(prefix, "/");
    var longer := path + Repeat('/', n);
    if n == 0 {
      assert longer == path;
    } else {
      if path == q {
        assert longer[..|q| + 1] == q + "/";
      } else if q + "/" <= path {
        assert longer[..|q| + 1] == path[..|q| + 1];
      } else if longer == q || q + "/" <= longer {
        ReachedOnlyBySlashes(q, path, n);
      }
    }
  }

  lemma ReachedOnlyBySlashes(q: string, path: string, n: nat)
    requires path != "" && n > 0 && (q == "" || q == "/" || q[|q| - 1] != '/')
    requires var longer := path + Repeat('/', n); longer == q || q + "/" <= longer
    ensures path == q || q + "/" <= path
  {
    var longer := path + Repeat('/', n);
    assert longer[..|path|] == path;
    if |q| + 1 <= |path| {
      assert q + "/" <= longer ==> longer[..|path|][..|q| + 1] == q + "/";
    } else {
      assert longer[..|q|] == q;
      assert forall i :: |path| <= i < |longer| ==> longer[i] == '/';
      assert forall i :: 0 <= i < |q| ==> q[i] == longer[i];
    }
  }

  /** "/a//" is not slash-safe: it exempts "/a/" but not "/a". */
  lemma DoubleSlashExemptionDiffers()
    ensures PathHasPrefix("/a/", "/a//") && !PathHasPrefix("/a", "/a//")
  {
  }

  /** The rule of a surface does not depend on slashes behind its path. */
  lemma ResolveAbsorbsSlashes(t: Table, s: Surface, n: nat)
    requires s.path != "" && t.routeKey.None?
    ensures Resolve(t, s.(path := s.path + Repeat('/', n))) == Resolve(t, s)
  {
    hide TrimTrailingSlash, FirstSegment, MethodKey;
    TrimSlashAbsorbs(s.path, n);
    RouteKeyAbsorbsSlashes(t.prefix, s.path, n);
  }

  /** The methods a segment pair reads by: an exact test, unlike the folded key. */
  predicate TakesRead(httpMethod: string) { httpMethod == "GET" || httpMethod == "HEAD" }

  /** Method case is folded for exact entries and not for segment pairs: two methods with
      one key get the same rule exactly when an exact entry or no entry at all decides, when
      both or neither is literally GET or HEAD, or when the pair's two halves coincide. */
  lemma MethodCase(t: Table, path: string, m: string, n: string)
    requires MethodKey(m) == MethodKey(n)
    requires RouteKey(t, Surface(path, m, "")) == RouteKey(t, Surface(path, n, ""))
    ensures var route := RouteKey(t, Surface(path, m, ""));
      Resolve(t, Surface(path, m, "")) == Resolve(t, Surface(path, n, "")) <==>
      ( || ExactKey(m, path) in t.exact
        || route !in t.routes
        || TakesRead(m) == TakesRead(n)
        || (t.routes[route].read == t.routes[route].write && t.routes[route].readActor == t.routes[route].writeActor))
    ensures var route := RouteKey(t, Surface(path, m, ""));
      ExactKey(m, path) !in t.exact && route in t.routes ==>
        var p := t.routes[route];
        Resolve(t, Surface(path, m, ""))
        == Some(if m in {"GET", "HEAD"} then Rule(p.read, p.readActor) else Rule(p.write, p.writeActor))
  {
    hide MethodKey, RouteKey, TrimTrailingSlash;
  }

  /** Methods that are ASCII once trimmed have one key exactly when they differ in letter
      case and outer white space only. */
  lemma AsciiMethodsFold(m: string, n: string)
    requires IsAscii(TrimSpace(m)) && IsAscii(TrimSpace(n))
    ensures MethodKey(m) == MethodKey(n) <==> AsciiUpper(TrimSpace(m)) == AsciiUpper(TrimSpace(n))
  {
  }

  lemma ExemptAbsorbsSlashes(t: Table, s: Surface, n: nat)
    requires s.path != "" && t.exempt.None?
    requires forall p :: p in t.exemptPaths ==> SlashSafe(p)
    ensures IsExempt(t, s.(path := s.path + Repeat('/', n))) == IsExempt(t, s)
  {
    forall p | p in t.exemptPaths ensures PathHasPrefix(s.path + Repeat('/', n), p) == PathHasPrefix(s.path, p) {
      SafePrefixAbsorbs(p, s.path, n);
    }
  }
}

/** What a table entry decides. */
module RuleLaws {
  import opened Strings
  import opened Principals
  import opened Surfaces
  import opened PathLaws

  /** The table's entry for a gRPC method: the permission listed for it, with the class
      listed beside it or any class. The HTTP tables have no say. */
  lemma MethodRules(t: Table, path: string, httpMethod: string, name: string)
    requires name != ""
    ensures var rule := Resolve(t, Surface(path, httpMethod, name));
      && (rule.Some? <==> name in t.methods)
      && (rule.Some? ==> rule.value.permission == t.methods[name])
      && (rule.Some? ==> rule.value.actor == if name in t.methodActors then t.methodActors[name] else AnyActor)
  {
  }

  /** The segment pair: GET and HEAD take the read half, every other method the write half,
      where no exact entry stands before it. */
  lemma SegmentRules(t: Table, path: string, httpMethod: string, p: Perms)
    requires ExactKey(httpMethod, path) !in t.exact
    requires var s := Surface(path, httpMethod, "");
      var route := if t.routeKey.Some? then t.routeKey.value(s) else FirstSegment(t.prefix, path);
      route in t.routes && t.routes[route] == p
    ensures var rule := Resolve(t, Surface(path, httpMethod, ""));
      && (httpMethod in {"GET", "HEAD"} ==> rule == Some(Rule(p.read, p.readActor)))
      && (httpMethod !in {"GET", "HEAD"} ==> rule == Some(Rule(p.write, p.writeActor)))
  {
    hide ExactKey, FirstSegment;
  }

  /** An exact entry decides alone: for every spelling of its method's case and every number
      of slashes behind its path, whatever the segment pairs say. */
  lemma ExactRules(t: Table, m: string, base: string, n: nat)
    requires IsAscii(TrimSpace(m)) && base != "" && (base == "/" || base[|base| - 1] != '/')
    requires AsciiUpper(TrimSpace(m)) + " " + base in t.exact
    ensures Resolve(t, Surface(base + Repeat('/', n), m, "")) == Some(t.exact[AsciiUpper(TrimSpace(m)) + " " + base])
  {
    KeyOfRequest(m, base, n);
    hide ExactKey, AsciiUpper, TrimSpace, RouteKey;
  }

  /** The allowlist property: a surface in none of the tables has no rule. */
  lemma OnlyListedSurfaces(t: Table, s: Surface)
    ensures Resolve(t, s).None? <==>
      if s.fullMethod != "" then s.fullMethod !in t.methods
      else ExactKey(s.httpMethod, s.path) !in t.exact && RouteKey(t, s) !in t.routes
  {
    hide ExactKey, FirstSegment;
  }

  function WithPair(t: Table, route: string, p: Perms): Table { t.(routes := t.routes[route := p]) }

  /** The halves of a pair do not touch each other's requests: nothing written in the write
      half changes what a GET or HEAD demands, and nothing in the read half what any other
      method demands. */
  lemma HalvesAreApart(t: Table, s: Surface, route: string, p: Perms, q: Perms)
    ensures var was := Resolve(WithPair(t, route, p), s);
      && (s.httpMethod in {"GET", "HEAD"} ==>
           Resolve(WithPair(t, route, p.(write := q.write, writeActor := q.writeActor)), s) == was)
      && (s.httpMethod !in {"GET", "HEAD"} ==>
           Resolve(WithPair(t, route, p.(read := q.read, readActor := q.readActor)), s) == was)
  {
    hide ExactKey, FirstSegment;
  }

  /** Exactly what is served without a guard: what the table's own test exempts, a gRPC
      method on the list of names, and an HTTP path that is, or lies beneath, a listed path
      with one slash that may end it left out of account. All else is guarded. */
  lemma ExemptSurfaces(t: Table, s: Surface)
    ensures IsExempt(t, s) <==>
      ( || (t.exempt.Some? && t.exempt.value(s))
        || (s.fullMethod != "" && s.fullMethod in t.exemptMethods)
        || (s.fullMethod == "" && exists q :: LiesUnder(s.path, q) && ListsPath(t, q)))
  {
    forall p ensures PathHasPrefix(s.path, p) <==> exists q :: LiesUnder(s.path, q) && Spells(p, q) {
      PrefixByBase(s.path, p);
    }
    hide PathHasPrefix, LiesUnder;
    if p :| p in t.exemptPaths && PathHasPrefix(s.path, p) {
      var q :| LiesUnder(s.path, q) && Spells(p, q);
      assert ListsPath(t, q);
    }
  }

  /** p is q, or q with one slash behind it. */
  predicate Spells(p: string, q: string) {
    p == q + "/" || (p == q && q != "" && q[|q| - 1] != '/')
  }

  predicate ListsPath(t: Table, q: string) { exists p :: p in t.exemptPaths && Spells(p, q) }

  lemma PrefixByBase(path: string, p: string)
    ensures PathHasPrefix(path, p) <==> exists q :: LiesUnder(path, q) && Spells(p, q)
  {
    hide PathHasPrefix, LiesUnder;
    PrefixTestIsLyingUnder(path, p);
    if p != "" && p[|p| - 1] == '/' {
      var base := p[..|p| - 1];
      assert p == base + "/";
      PrefixTestIsLyingUnder(path, base);
      assert Spells(p, base);
      forall q | Spells(p, q) ensures q == base { assert p[..|p| - 1] == q; }
    } else if p != "" {
      assert Spells(p, p);
      forall q | Spells(p, q) ensures q == p { assert (q + "/")[|q|] == '/'; }
    } else {
      forall q ensures !Spells(p, q) { assert |q + "/"| > 0; }
    }
  }
}

/** The declared list is an exact, order-free summary of the table. */
module DeclarationLaws {
  import opened Strings
  import opened Grants
  import opened Surfaces

  /** Membership, spelled out table by table. */
  lemma DeclaredMeaning(t: Table, p: string)
    requires p != ""
    ensures p in DeclaredList(t) <==>
      ( (exists k :: k in t.exact && t.exact[k].permission == p)
      || (exists k :: k in t.routes && (t.routes[k].read == p || t.routes[k].write == p))
      || (exists k :: k in t.methods && t.methods[k] == p)
      || p in t.operationPermissions
      || (p in t.BlanketActions() && p != WILDCARD))
  {
    assert p in DeclaredList(t) <==> p in Elements(DeclaredList(t));
  }

  /** No surface can demand a permission that is not declared. */
  lemma DemandsAreDeclared(t: Table, s: Surface)
    requires Resolve(t, s).Some? && Resolve(t, s).value.permission != ""
    ensures Resolve(t, s).value.permission in DeclaredList(t)
  {
    hide MethodKey, FirstSegment, TrimTrailingSlash;
    assert Resolve(t, s).value.permission in Elements(DeclaredList(t));
  }
}
