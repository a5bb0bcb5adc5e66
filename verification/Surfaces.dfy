/** The surface table: which permission and which class of caller each route or method demands. */
module Surfaces {
  import opened Strings
  import opened Grants
  import opened Principals

  datatype Surface = Surface(path: string, httpMethod: string, fullMethod: string)
  {
    predicate IsGrpc() { fullMethod != "" }
  }

  datatype Actor = AnyActor | UserOnly | ServiceOnly

  datatype Rule = Rule(permission: string, actor: Actor)

  datatype Perms = Perms(read: string, write: string, readActor: Actor, writeActor: Actor)

  /** A missing map entry reads as the zero value, and an absent function as a nil one. */
  datatype Table = Table(
    prefix: string,
    exact: map<string, Rule>,
    routes: map<string, Perms>,
    methods: map<string, string>,
    methodActors: map<string, Actor>,
    operationPermissions: seq<string>,
    blanketActions: Option<seq<string>>,
    exemptPaths: seq<string>,
    exemptMethods: seq<string>,
    exempt: Option<Surface -> bool>,
    routeKey: Option<Surface -> string>)
  {
    function BlanketActions(): seq<string> {
      if blanketActions.Some? then blanketActions.value else []
    }
  }

  /** An unclassified caller passes only the surface that asks no question. */
  predicate Permits(actor: Actor, kind: string) {
    match actor
    case AnyActor => true
    case UserOnly => kind == KIND_USER
    case ServiceOnly => kind == KIND_SERVICE
  }

  function AsciiUpper(s: string): string {
    seq(|s|, i requires 0 <= i < |s| => if 'a' <= s[i] <= 'z' then (s[i] as int - 32) as char else s[i])
  }

  /** Upper-casing s makes no space and no outer white space where there was none, and
      leaves nothing for a second time. */
  predicate UpperCases(table: string -> string, s: string) {
    var u := table(s);
    && (' ' in u ==> ' ' in s)
    && (Trimmed(s) ==> Trimmed(u))
    && u == if IsAscii(u) then AsciiUpper(u) else table(u)
  }

  lemma AsciiUpperCases()
    ensures forall s :: UpperCases(AsciiUpper, s)
  {
  }

  /** What upper-casing does to text that is not all ASCII is left open otherwise. */
  type UpperTable = table: string -> string | forall s :: UpperCases(table, s)
    witness (AsciiUpperCases(); AsciiUpper)
  const UPPER_TABLE: UpperTable

  /** strings.ToUpper. */
  function ToUpper(s: string): string {
    if IsAscii(s) then AsciiUpper(s) else UPPER_TABLE(s)
  }

  lemma UpperLaws(s: string)
    ensures ' ' in ToUpper(s) ==> ' ' in s
    ensures Trimmed(s) ==> Trimmed(ToUpper(s))
    ensures ToUpper(ToUpper(s)) == ToUpper(s)
  {
    AsciiUpperCases();
    assert UpperCases(AsciiUpper, s);
    assert UpperCases(UPPER_TABLE, s);
    hide Trimmed;
  }

  // ---------------------------------------------------------------- paths

  /** The path without its trailing slashes; one byte is always kept. */
  function TrimTrailingSlash(path: string): string {
    if |path| > 1 && path[|path| - 1] == '/' then TrimTrailingSlash(path[..|path| - 1]) else path
  }

  method TrimSlashLoop(path: string) returns (r: string)
    ensures r == TrimTrailingSlash(path)
  {
    r := path;
    while |r| > 1 && r[|r| - 1] == '/'
      invariant TrimTrailingSlash(r) == TrimTrailingSlash(path)
    {
      r := r[..|r| - 1];
    }
  }

  function MethodKey(httpMethod: string): string { ToUpper(TrimSpace(httpMethod)) }

  function ExactKey(httpMethod: string, path: string): string {
    MethodKey(httpMethod) + " " + TrimTrailingSlash(path)
  }

  /** The first segment of path under prefix; "" when path is not under it. */
  function FirstSegment(prefix: string, path: string): string {
    if prefix != "" && !(prefix <= path) then ""
    else
      var rest := TrimPrefix(path, if prefix != "" then prefix else "/");
      rest[..IndexOf(rest, '/')]
  }

  predicate PathHasPrefix(path: string, prefix: string) {
    && prefix != ""
    && var p := TrimSuffix(prefix, "/");
    path == p || p + "/" <= path
  }

  // ---------------------------------------------------------------- lookup

  function RouteKey(t: Table, s: Surface): string {
    if t.routeKey.Some? then t.routeKey.value(s) else FirstSegment(t.prefix, s.path)
  }

  /** None means the surface is not in the table; an exact entry beats the segment pair. */
  function Resolve(t: Table, s: Surface): Option<Rule> {
    if s.IsGrpc() then
      if s.fullMethod !in t.methods then None
      else Some(Rule(t.methods[s.fullMethod],
                     if s.fullMethod in t.methodActors then t.methodActors[s.fullMethod] else AnyActor))
    else
      var key := ExactKey(s.httpMethod, s.path);
      if key in t.exact then Some(t.exact[key])
      else
        var route := RouteKey(t, s);
        if route !in t.routes then None
        else
          var p := t.routes[route];
          if s.httpMethod == "GET" || s.httpMethod == "HEAD" then Some(Rule(p.read, p.readActor))
          else Some(Rule(p.write, p.writeActor))
  }

  /** Served with no guard at all. */
  predicate IsExempt(t: Table, s: Surface) {
    || (t.exempt.Some? && t.exempt.value(s))
    || (s.IsGrpc() && s.fullMethod in t.exemptMethods)
    || (!s.IsGrpc() && exists p :: p in t.exemptPaths && PathHasPrefix(s.path, p))
  }

  method CheckExempt(t: Table, s: Surface) returns (exempt: bool)
    ensures exempt == IsExempt(t, s)
  {
    if t.exempt.Some? && t.exempt.value(s) { return true; }
    if s.IsGrpc() {
      for i := 0 to |t.exemptMethods|
        invariant s.fullMethod !in t.exemptMethods[..i]
      {
        if t.exemptMethods[i] != "" && t.exemptMethods[i] == s.fullMethod { return true; }
      }
      return false;
    }
    for i := 0 to |t.exemptPaths|
      invariant forall j :: 0 <= j < i ==> !PathHasPrefix(s.path, t.exemptPaths[j])
    {
      if PathHasPrefix(s.path, t.exemptPaths[i]) {
        assert t.exemptPaths[i] in t.exemptPaths;
        return true;
      }
    }
    return false;
  }

  // ---------------------------------------------------------------- declared permissions

  function Elements(list: seq<string>): set<string> { set p | p in list }

  function ExactPermissions(m: map<string, Rule>, keys: set<string>): set<string> {
    set k | k in keys && k in m :: m[k].permission
  }

  function RoutePermissions(m: map<string, Perms>, keys: set<string>): set<string> {
    (set k | k in keys && k in m :: m[k].read) + (set k | k in keys && k in m :: m[k].write)
  }

  function MethodPermissions(m: map<string, string>, keys: set<string>): set<string> {
    set k | k in keys && k in m :: m[k]
  }

  /** Every permission the table names, except the empty one and the blanket wildcard. */
  function DeclaredSet(t: Table): set<string> {
    ( ExactPermissions(t.exact, t.exact.Keys)
    + RoutePermissions(t.routes, t.routes.Keys)
    + MethodPermissions(t.methods, t.methods.Keys)
    + Elements(t.operationPermissions)
    + (Elements(t.BlanketActions()) - {WILDCARD})
    ) - {""}
  }

  predicate StrictlySorted(list: seq<string>) {
    forall i, j :: 0 <= i < j < |list| ==> Less(list[i], list[j])
  }

  predicate NoDuplicates(list: seq<string>) {
    forall i, j :: 0 <= i < j < |list| ==> list[i] != list[j]
  }

  lemma FirstIsLeast(a: seq<string>, x: string)
    requires StrictlySorted(a) && a != [] && x in a
    ensures x == a[0] || Less(a[0], x)
  {
  }

  /** A strictly increasing list is determined by its elements. */
  lemma {:induction false} SortedListIsUnique(a: seq<string>, b: seq<string>)
    requires StrictlySorted(a) && StrictlySorted(b) && Elements(a) == Elements(b)
    ensures a == b
  {
    if a == [] {
      assert forall i :: 0 <= i < |b| ==> b[i] in Elements(b);
    } else {
      assert a[0] in Elements(a);
      assert a[0] in b;
      assert b[0] in Elements(b);
      assert b[0] in a;
      FirstIsLeast(a, b[0]);
      FirstIsLeast(b, a[0]);
      if a[0] != b[0] { LessTransitive(a[0], b[0], a[0]); LessIrreflexive(a[0]); }
      RestElements(a);
      RestElements(b);
      SortedListIsUnique(a[1..], b[1..]);
      assert a == [a[0]] + a[1..] && b == [b[0]] + b[1..];
    }
  }

  lemma RestElements(a: seq<string>)
    requires StrictlySorted(a) && a != []
    ensures Elements(a[1..]) == Elements(a) - {a[0]}
  {
    assert a == [a[0]] + a[1..];
    forall x | x in a[1..] ensures x != a[0] {
      var i :| 0 <= i < |a[1..]| && a[1..][i] == x;
      assert Less(a[0], a[i + 1]);
      LessIrreflexive(a[0]);
    }
  }

  /** The strictly increasing list of a set; SortedListIsUnique says there is only one. */
  ghost function SortedOf(names: set<string>): (list: seq<string>)
    ensures StrictlySorted(list) && Elements(list) == names
  {
    if names == {} then []
    else
      var p :| p in names;
      var rest := SortedOf(names - {p});
      assert p !in Elements(rest);
      Insert(rest, p)
  }

  /** The list to register: a function of the table alone. */
  ghost function DeclaredList(t: Table): seq<string> { SortedOf(DeclaredSet(t)) }

  /** What the loops have collected so far: no duplicates, `seen` in step with `out`. */
  predicate Collected(seen: set<string>, out: seq<string>, named: set<string>) {
    NoDuplicates(out) && seen == Elements(out) == named - {""}
  }

  /** The closure that appends a permission unless it is empty or already there. */
  method Add(seen: set<string>, out: seq<string>, p: string, ghost named: set<string>)
    returns (seen': set<string>, out': seq<string>)
    requires Collected(seen, out, named)
    ensures Collected(seen', out', named + {p})
  {
    seen', out' := seen, out;
    if p == "" || p in seen { return; }
    seen' := seen + {p};
    out' := out + [p];
  }

  /** Go ranges over a map in an order it does not fix: each loop below takes the keys in
      an arbitrary order, so what it ensures holds for every one of them. */
  method DeclaredPermissions(t: Table) returns (out: seq<string>)
    ensures out == DeclaredList(t)
  {
    var seen: set<string> := {};
    out := [];
    ghost var named: set<string> := {};
    seen, out := AddExact(t, seen, out, named);
    named := named + ExactPermissions(t.exact, t.exact.Keys);
    seen, out := AddRoutes(t, seen, out, named);
    named := named + RoutePermissions(t.routes, t.routes.Keys);
    seen, out := AddMethods(t, seen, out, named);
    named := named + MethodPermissions(t.methods, t.methods.Keys);
    seen, out := AddListed(t.operationPermissions, seen, out, named);
    named := named + Elements(t.operationPermissions);
    seen, out := AddBlanket(t.BlanketActions(), seen, out, named);
    named := named + (Elements(t.BlanketActions()) - {WILDCARD});
    assert named - {""} == DeclaredSet(t);
    out := SortStrings(out);
    SortedListIsUnique(out, DeclaredList(t));
  }

  method AddExact(t: Table, seen0: set<string>, out0: seq<string>, ghost named: set<string>)
    returns (seen: set<string>, out: seq<string>)
    requires Collected(seen0, out0, named)
    ensures Collected(seen, out, named + ExactPermissions(t.exact, t.exact.Keys))
  {
    seen, out := seen0, out0;
    var left := t.exact.Keys;
    ghost var done: set<string> := {};
    while left != {}
      invariant done + left == t.exact.Keys
      invariant Collected(seen, out, named + ExactPermissions(t.exact, done))
      decreases left
    {
      var k :| k in left;
      left := left - {k};
      ghost var before := named + ExactPermissions(t.exact, done);
      seen, out := Add(seen, out, t.exact[k].permission, before);
      assert ExactPermissions(t.exact, done + {k}) == ExactPermissions(t.exact, done) + {t.exact[k].permission};
      done := done + {k};
      assert named + ExactPermissions(t.exact, done) == before + {t.exact[k].permission};
    }
    assert done == t.exact.Keys;
  }

  method AddRoutes(t: Table, seen0: set<string>, out0: seq<string>, ghost named: set<string>)
    returns (seen: set<string>, out: seq<string>)
    requires Collected(seen0, out0, named)
    ensures Collected(seen, out, named + RoutePermissions(t.routes, t.routes.Keys))
  {
    seen, out := seen0, out0;
    var left := t.routes.Keys;
    ghost var done: set<string> := {};
    while left != {}
      invariant done + left == t.routes.Keys
      invariant Collected(seen, out, named + RoutePermissions(t.routes, done))
      decreases left
    {
      var k :| k in left;
      left := left - {k};
      var p := t.routes[k];
      ghost var before := named + RoutePermissions(t.routes, done);
      seen, out := Add(seen, out, p.read, before);
      seen, out := Add(seen, out, p.write, before + {p.read});
      RoutePermissionsStep(t.routes, done, k);
      done := done + {k};
      assert named + RoutePermissions(t.routes, done) == before + {p.read} + {p.write};
    }
    assert done == t.routes.Keys;
  }

  lemma RoutePermissionsStep(m: map<string, Perms>, keys: set<string>, k: string)
    requires k in m
    ensures RoutePermissions(m, keys + {k}) == RoutePermissions(m, keys) + {m[k].read} + {m[k].write}
  {
  }

  method AddMethods(t: Table, seen0: set<string>, out0: seq<string>, ghost named: set<string>)
    returns (seen: set<string>, out: seq<string>)
    requires Collected(seen0, out0, named)
    ensures Collected(seen, out, named + MethodPermissions(t.methods, t.methods.Keys))
  {
    seen, out := seen0, out0;
    var left := t.methods.Keys;
    ghost var done: set<string> := {};
    while left != {}
      invariant done + left == t.methods.Keys
      invariant Collected(seen, out, named + MethodPermissions(t.methods, done))
      decreases left
    {
      var k :| k in left;
      left := left - {k};
      ghost var before := named + MethodPermissions(t.methods, done);
      seen, out := Add(seen, out, t.methods[k], before);
      assert MethodPermissions(t.methods, done + {k}) == MethodPermissions(t.methods, done) + {t.methods[k]};
      done := done + {k};
      assert named + MethodPermissions(t.methods, done) == before + {t.methods[k]};
    }
    assert done == t.methods.Keys;
  }

  method AddListed(list: seq<string>, seen0: set<string>, out0: seq<string>, ghost named: set<string>)
    returns (seen: set<string>, out: seq<string>)
    requires Collected(seen0, out0, named)
    ensures Collected(seen, out, named + Elements(list))
  {
    seen, out := seen0, out0;
    for i := 0 to |list|
      invariant Collected(seen, out, named + Elements(list[..i]))
    {
      seen, out := Add(seen, out, list[i], named + Elements(list[..i]));
      assert list[..i + 1] == list[..i] + [list[i]];
      assert named + Elements(list[..i + 1]) == named + Elements(list[..i]) + {list[i]};
    }
    assert list[..|list|] == list;
  }

  method AddBlanket(list: seq<string>, seen0: set<string>, out0: seq<string>, ghost named: set<string>)
    returns (seen: set<string>, out: seq<string>)
    requires Collected(seen0, out0, named)
    ensures Collected(seen, out, named + (Elements(list) - {WILDCARD}))
  {
    seen, out := seen0, out0;
    for i := 0 to |list|
      invariant Collected(seen, out, named + (Elements(list[..i]) - {WILDCARD}))
    {
      assert list[..i + 1] == list[..i] + [list[i]];
      if list[i] != WILDCARD {
        seen, out := Add(seen, out, list[i], named + (Elements(list[..i]) - {WILDCARD}));
        assert named + (Elements(list[..i + 1]) - {WILDCARD}) == named + (Elements(list[..i]) - {WILDCARD}) + {list[i]};
      } else {
        assert Elements(list[..i + 1]) - {WILDCARD} == Elements(list[..i]) - {WILDCARD};
      }
    }
    assert list[..|list|] == list;
  }

  /** sort.Strings, for a list without duplicates. */
  method SortStrings(list: seq<string>) returns (sorted: seq<string>)
    requires NoDuplicates(list)
    ensures StrictlySorted(sorted) && Elements(sorted) == Elements(list)
  {
    sorted := [];
    for i := 0 to |list|
      invariant StrictlySorted(sorted) && Elements(sorted) == Elements(list[..i])
    {
      assert list[i] !in sorted by {
        assert forall j :: 0 <= j < i ==> list[j] != list[i];
        assert list[i] !in list[..i];
        assert list[i] !in Elements(sorted);
      }
      assert list[..i + 1] == list[..i] + [list[i]];
      sorted := Insert(sorted, list[i]);
    }
    assert list[..|list|] == list;
  }

  function Insert(sorted: seq<string>, p: string): (r: seq<string>)
    requires StrictlySorted(sorted) && p !in sorted
    ensures StrictlySorted(r) && Elements(r) == Elements(sorted) + {p}
  {
    if sorted == [] then [p]
    else if Less(p, sorted[0]) then
      LessThanAll(p, sorted);
      [p] + sorted
    else
      var rest := Insert(sorted[1..], p);
      InsertBehind(sorted, p, rest);
      [sorted[0]] + rest
  }

  lemma LessThanAll(p: string, sorted: seq<string>)
    requires StrictlySorted(sorted) && sorted != [] && Less(p, sorted[0])
    ensures forall i :: 0 <= i < |sorted| ==> Less(p, sorted[i])
  {
    forall i | 0 <= i < |sorted| ensures Less(p, sorted[i]) {
      if i > 0 { LessTransitive(p, sorted[0], sorted[i]); }
    }
  }

  lemma InsertBehind(sorted: seq<string>, p: string, rest: seq<string>)
    requires StrictlySorted(sorted) && sorted != [] && p !in sorted && !Less(p, sorted[0])
    requires StrictlySorted(rest) && Elements(rest) == Elements(sorted[1..]) + {p}
    ensures StrictlySorted([sorted[0]] + rest)
    ensures Elements([sorted[0]] + rest) == Elements(sorted) + {p}
  {
    LessTotal(p, sorted[0]);
    hide Less;
    assert forall x :: x in rest ==> x in Elements(rest);
    assert forall x :: x in rest ==> Less(sorted[0], x);
    assert sorted == [sorted[0]] + sorted[1..];
  }
}
