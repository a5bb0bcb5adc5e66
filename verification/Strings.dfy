/** Go's byte strings, and the parts of Go's `strings` package the authorization code leans on.

    A Go string is a sequence of bytes, so a `string` here holds one byte per element:
    `'a'` is the byte 0x61 and `'\U{C2}'` the byte 0xC2. Nothing in a string is decoded
    until module Utf8 does it. Elements above 0xFF never occur in a Go string; the
    statements below hold for them too, because UTF-8 validation rejects them. */
module Strings {

  datatype Option<+T> = None | Some(value: T)

  // ---------------------------------------------------------------- searching and splitting

  /** Position of the first `c`, or |s| when there is none (strings.IndexByte). */
  function IndexOf<T(==)>(s: seq<T>, c: T): (i: nat)
    ensures i <= |s|
    ensures forall j :: 0 <= j < i ==> s[j] != c
    ensures i < |s| ==> s[i] == c
    ensures i < |s| <==> c in s
  {
    if s == [] then 0
    else if s[0] == c then 0
    else
      assert s == [s[0]] + s[1..];
      1 + IndexOf(s[1..], c)
  }

  /** strings.SplitN for n >= 1: at most n parts, the last one left unsplit. */
  function SplitN<T(==)>(s: seq<T>, sep: T, n: nat): (parts: seq<seq<T>>)
    requires n >= 1
    ensures 1 <= |parts| <= n
    decreases |s|
  {
    if n == 1 || sep !in s then [s]
    else [s[..IndexOf(s, sep)]] + SplitN(s[IndexOf(s, sep) + 1..], sep, n - 1)
  }

  /** strings.Split: every separator splits. */
  function Split(s: string, sep: char): (parts: seq<string>)
    ensures |parts| >= 1
    decreases |s|
  {
    if sep !in s then [s]
    else [s[..IndexOf(s, sep)]] + Split(s[IndexOf(s, sep) + 1..], sep)
  }

  /** strings.Join. */
  function Join(parts: seq<string>, sep: string): string {
    if parts == [] then ""
    else if |parts| == 1 then parts[0]
    else parts[0] + sep + Join(parts[1..], sep)
  }

  /** strings.Count for a one-byte needle. */
  function Count(s: string, c: char): nat {
    if s == "" then 0 else (if s[0] == c then 1 else 0) + Count(s[1..], c)
  }

  predicate HasSuffix<T(==)>(s: seq<T>, suffix: seq<T>) {
    |suffix| <= |s| && s[|s| - |suffix|..] == suffix
  }

  /** strings.TrimSuffix. */
  function TrimSuffix(s: string, suffix: string): string {
    if HasSuffix(s, suffix) then s[..|s| - |suffix|] else s
  }

  /** strings.TrimPrefix. */
  function TrimPrefix(s: string, prefix: string): string {
    if prefix <= s then s[|prefix|..] else s
  }

  function Repeat(c: char, n: nat): (s: string)
    ensures |s| == n
    ensures forall i :: 0 <= i < n ==> s[i] == c
  {
    seq(n, i => c)
  }

  lemma JoinCons(a: string, rest: seq<string>, sep: string)
    requires rest != []
    ensures Join([a] + rest, sep) == a + sep + Join(rest, sep)
  {
  }

  /** The first separator of `a + [c] + b` is the explicit one when `a` has none. */
  lemma IndexOfFirst<T>(a: seq<T>, c: T, b: seq<T>)
    requires c !in a
    ensures IndexOf(a + [c] + b, c) == |a|
  {
    var s := a + [c] + b;
    assert s[|a|] == c;
    assert forall j :: 0 <= j < |a| ==> s[j] == a[j];
  }

  lemma SplitNStep<T>(a: seq<T>, c: T, b: seq<T>, n: nat)
    requires c !in a && n >= 2
    ensures SplitN(a + [c] + b, c, n) == [a] + SplitN(b, c, n - 1)
  {
    var s := a + [c] + b;
    IndexOfFirst(a, c, b);
    assert s[|a|] == c;
    assert s[..|a|] == a && s[|a| + 1..] == b;
  }

  lemma SplitStep(a: string, c: char, b: string)
    requires c !in a
    ensures Split(a + [c] + b, c) == [a] + Split(b, c)
  {
    var s := a + [c] + b;
    IndexOfFirst(a, c, b);
    assert s[|a|] == c;
    assert s[..|a|] == a && s[|a| + 1..] == b;
  }

  // ---------------------------------------------------------------- white space

  predicate IsAsciiSpace(c: char) {
    c == '\t' || c == '\n' || c == '\U{0B}' || c == '\U{0C}' || c == '\r' || c == ' '
  }

  /** U+0085 and U+00A0. */
  predicate IsSpacePair(a: char, b: char) {
    a == '\U{C2}' && (b == '\U{85}' || b == '\U{A0}')
  }

  /** U+1680, U+2000..U+200A, U+2028, U+2029, U+202F, U+205F and U+3000. */
  predicate IsSpaceTriple(a: char, b: char, c: char) {
    || (a == '\U{E1}' && b == '\U{9A}' && c == '\U{80}')
    || (a == '\U{E2}' && b == '\U{80}' && '\U{80}' <= c <= '\U{8A}')
    || (a == '\U{E2}' && b == '\U{80}' && (c == '\U{A8}' || c == '\U{A9}' || c == '\U{AF}'))
    || (a == '\U{E2}' && b == '\U{81}' && c == '\U{9F}')
    || (a == '\U{E3}' && b == '\U{80}' && c == '\U{80}')
  }

  /** Bytes taken by a white-space code point at the front of s; 0 when there is none.
      Every encoding starts with a byte that cannot continue another code point, so
      looking at each byte position finds the same code points as decoding does. */
  function LeadSpace(s: string): (w: nat)
    ensures w <= |s|
  {
    if |s| >= 1 && IsAsciiSpace(s[0]) then 1
    else if |s| >= 2 && IsSpacePair(s[0], s[1]) then 2
    else if |s| >= 3 && IsSpaceTriple(s[0], s[1], s[2]) then 3
    else 0
  }

  /** The same at the end of s. */
  function TailSpace(s: string): (w: nat)
    ensures w <= |s|
  {
    var n := |s|;
    if n >= 1 && IsAsciiSpace(s[n - 1]) then 1
    else if n >= 2 && IsSpacePair(s[n - 2], s[n - 1]) then 2
    else if n >= 3 && IsSpaceTriple(s[n - 3], s[n - 2], s[n - 1]) then 3
    else 0
  }

  function TrimLeft(s: string): string {
    if LeadSpace(s) == 0 then s else TrimLeft(s[LeadSpace(s)..])
  }

  function TrimRight(s: string): string {
    if TailSpace(s) == 0 then s else TrimRight(s[..|s| - TailSpace(s)])
  }

  /** strings.TrimSpace. */
  function TrimSpace(s: string): string {
    TrimRight(TrimLeft(s))
  }

  /** No white space at either end. */
  predicate Trimmed(s: string) {
    LeadSpace(s) == 0 && TailSpace(s) == 0
  }

  /** No white space anywhere. */
  predicate SpaceFree(s: string) {
    forall i :: 0 <= i < |s| ==> LeadSpace(s[i..]) == 0
  }

  /** Length of the word at the front of s: up to the next white space or the end. */
  function WordLength(s: string): (k: nat)
    ensures k <= |s|
    ensures s != "" && LeadSpace(s) == 0 ==> k > 0
    ensures forall i :: 0 <= i < k ==> LeadSpace(s[i..]) == 0
    ensures k < |s| ==> LeadSpace(s[k..]) > 0
  {
    if s == "" then 0
    else if LeadSpace(s) > 0 then
      assert s[0..] == s;
      0
    else
      var k := 1 + WordLength(s[1..]);
      assert forall i :: 0 <= i < k ==> LeadSpace(s[i..]) == 0 by {
        forall i | 0 <= i < k ensures LeadSpace(s[i..]) == 0 {
          if i == 0 { assert s[0..] == s; } else { assert s[i..] == s[1..][i - 1..]; }
        }
      }
      assert k < |s| ==> s[k..] == s[1..][k - 1..];
      k
  }

  /** strings.Fields: the maximal white-space-free runs. */
  function Fields(s: string): seq<string>
    decreases |s|
  {
    if s == "" then []
    else if LeadSpace(s) > 0 then Fields(s[LeadSpace(s)..])
    else [s[..WordLength(s)]] + Fields(s[WordLength(s)..])
  }

  lemma LeadSpaceOfPrefix(s: string, k: nat)
    requires k <= |s| && LeadSpace(s) == 0
    ensures LeadSpace(s[..k]) == 0
  {
  }

  lemma {:induction false} TrimLeftTrims(s: string)
    ensures LeadSpace(TrimLeft(s)) == 0
    decreases |s|
  {
    if LeadSpace(s) > 0 { TrimLeftTrims(s[LeadSpace(s)..]); }
  }

  lemma {:induction false} TrimRightTrims(s: string)
    ensures TailSpace(TrimRight(s)) == 0
    ensures LeadSpace(s) == 0 ==> LeadSpace(TrimRight(s)) == 0
    decreases |s|
  {
    if TailSpace(s) > 0 {
      var k := |s| - TailSpace(s);
      if LeadSpace(s) == 0 { LeadSpaceOfPrefix(s, k); }
      TrimRightTrims(s[..k]);
    }
  }

  /** TrimSpace leaves nothing to trim, so trimming twice is trimming once. */
  lemma TrimSpaceTrims(s: string)
    ensures Trimmed(TrimSpace(s))
    ensures TrimSpace(TrimSpace(s)) == TrimSpace(s)
    ensures Trimmed(s) <==> TrimSpace(s) == s
  {
    TrimLeftTrims(s);
    TrimRightTrims(TrimLeft(s));
  }

  /** White space only. */
  predicate Blank(s: string) {
    s == "" || (LeadSpace(s) > 0 && Blank(s[LeadSpace(s)..]))
  }

  lemma {:induction false} BlankConcat(a: string, b: string)
    requires Blank(a) && Blank(b)
    ensures Blank(a + b)
    decreases |a|
  {
    if a == "" {
      assert a + b == b;
    } else {
      var w := LeadSpace(a);
      assert (a + b)[w..] == a[w..] + b && LeadSpace(a + b) == w;
      BlankConcat(a[w..], b);
    }
  }

  lemma LeadIsBlank(s: string)
    ensures Blank(s[..LeadSpace(s)])
  {
  }

  lemma TailIsBlank(s: string)
    ensures Blank(s[|s| - TailSpace(s)..])
  {
  }

  lemma {:induction false} TrimLeftDrops(s: string) returns (k: nat)
    ensures k <= |s| && TrimLeft(s) == s[k..] && Blank(s[..k])
    decreases |s|
  {
    LeadIsBlank(s);
    var w := LeadSpace(s);
    hide LeadSpace, Blank;
    k := w;
    if w > 0 {
      var more := TrimLeftDrops(s[w..]);
      k := w + more;
      BlankConcat(s[..w], s[w..][..more]);
      assert s[..k] == s[..w] + s[w..][..more];
    }
  }

  lemma {:induction false} TrimRightDrops(s: string) returns (k: nat)
    ensures k <= |s| && TrimRight(s) == s[..k] && Blank(s[k..])
    decreases |s|
  {
    TailIsBlank(s);
    var end := |s| - TailSpace(s);
    hide TailSpace, Blank;
    k := end;
    if end < |s| {
      k := TrimRightDrops(s[..end]);
      BlankConcat(s[..end][k..], s[end..]);
      assert s[k..] == s[..end][k..] + s[end..];
    }
  }

  /** TrimSpace removes white space from the two ends and nothing else. */
  lemma TrimSpaceDropsBlanks(s: string) returns (from: nat, to: nat)
    ensures from <= to <= |s| && TrimSpace(s) == s[from..to]
    ensures Blank(s[..from]) && Blank(s[to..])
  {
    from := TrimLeftDrops(s);
    var k := TrimRightDrops(s[from..]);
    to := from + k;
    assert s[from..][k..] == s[to..];
  }

  lemma {:induction false} BlankEnds(s: string)
    requires Blank(s) && s != ""
    ensures TailSpace(s) > 0
    decreases |s|
  {
    var w := LeadSpace(s);
    var rest := s[w..];
    if rest != "" {
      BlankEnds(rest);
      TailOfSuffix(s, w);
    }
  }

  /** White space at the end of a stretch is white space at the end of the whole. */
  lemma TailOfSuffix(s: string, k: nat)
    requires k <= |s|
    ensures TailSpace(s[k..]) > 0 ==> TailSpace(s) > 0
  {
    assert forall i :: k <= i < |s| ==> s[k..][i - k] == s[i];
  }

  /** Trimming empties exactly the strings of white space. */
  lemma TrimSpaceEmpties(s: string)
    ensures TrimSpace(s) == "" <==> Blank(s)
  {
    hide Blank, TrimSpace;
    if Blank(s) { BlankIsEmptied(s); }
    var from, to := TrimSpaceDropsBlanks(s);
    if TrimSpace(s) == "" {
      BlankConcat(s[..from], s[to..]);
      assert s == s[..from] + s[to..];
    }
  }

  lemma BlankIsEmptied(s: string)
    requires Blank(s)
    ensures TrimSpace(s) == ""
  {
    BlankTrimsLeft(s);
    hide Blank, TrimLeft;
  }

  lemma {:induction false} BlankTrimsLeft(s: string)
    requires Blank(s)
    ensures TrimLeft(s) == ""
    decreases |s|
  {
    if s != "" { BlankTrimsLeft(s[LeadSpace(s)..]); }
  }

  /** A stretch at the end of trimmed text is emptied by trimming only if it is empty. */
  lemma TrimmedTail(s: string, k: nat)
    requires Trimmed(s) && k <= |s|
    ensures TrimSpace(s[k..]) == "" <==> k == |s|
  {
    TrimSpaceEmpties(s[k..]);
    if Blank(s[k..]) && k < |s| {
      BlankEnds(s[k..]);
      TailOfSuffix(s, k);
    }
  }

  // ---------------------------------------------------------------- the one trimmed middle

  lemma {:induction false} BlankInFront(p: string, s: string)
    requires Blank(p)
    ensures TrimLeft(p + s) == TrimLeft(s)
    decreases |p|
  {
    if p == "" {
      assert p + s == s;
    } else {
      var w := LeadSpace(p);
      assert LeadSpace(p + s) == w && (p + s)[w..] == p[w..] + s;
      BlankInFront(p[w..], s);
    }
  }

  /** What ends blank text can be taken off it. */
  lemma {:induction false} BlankWithoutTail(q: string)
    requires Blank(q) && q != ""
    ensures TailSpace(q) > 0 && Blank(q[..|q| - TailSpace(q)])
    decreases |q|
  {
    hide LeadSpace, TailSpace;
    BlankEnds(q);
    LeadIsBlank(q);
    var w := LeadSpace(q);
    var rest := q[w..];
    if rest == "" {
      OneSpace(q);
    } else {
      BlankWithoutTail(rest);
      TailOfLonger(q[..w], rest);
      assert q == q[..w] + rest;
      var k := TailSpace(q);
      assert q[..|q| - k] == q[..w] + rest[..|rest| - k];
      BlankConcat(q[..w], rest[..|rest| - k]);
    }
  }

  lemma OneSpace(q: string)
    requires q != "" && LeadSpace(q) == |q|
    ensures TailSpace(q) == |q|
  {
  }

  lemma TailOfLonger(a: string, b: string)
    requires TailSpace(b) > 0
    ensures TailSpace(a + b) == TailSpace(b)
  {
    assert forall i :: 0 <= i < |b| ==> (a + b)[|a| + i] == b[i];
  }

  lemma {:induction false} BlankBehind(s: string, q: string)
    requires Blank(q)
    ensures TrimRight(s + q) == TrimRight(s)
    decreases |q|
  {
    if q == "" {
      assert s + q == s;
    } else {
      BlankWithoutTail(q);
      TailOfLonger(s, q);
      var k := |q| - TailSpace(q);
      assert (s + q)[..|s| + k] == s + q[..k];
      BlankBehind(s, q[..k]);
      hide TailSpace, LeadSpace, Blank;
    }
  }

  /** White space behind text does not complete a code point in front of it. */
  lemma BlankStartsAfresh(m: string, q: string)
    requires LeadSpace(m) == 0 && m != "" && Blank(q)
    ensures LeadSpace(m + q) == 0
  {
    if q != "" { assert LeadSpace(q) > 0; }
  }

  /** However white space is taken off the two ends, if none is left there the middle is
      what TrimSpace returns. */
  lemma TrimSpaceIs(p: string, m: string, q: string)
    requires Blank(p) && Blank(q) && Trimmed(m)
    ensures TrimSpace(p + (m + q)) == m
  {
    BlankInFront(p, m + q);
    if m == "" {
      assert m + q == q;
      BlankTrimsLeft(q);
    } else {
      BlankStartsAfresh(m, q);
      BlankBehind(m, q);
    }
    hide LeadSpace, TailSpace, Blank;
  }

  lemma TrimSpaceAfterRight(s: string)
    ensures TrimSpace(TrimRight(s)) == TrimSpace(s)
  {
    hide TrimSpace, TrimRight, Blank, Trimmed, LeadSpace, TailSpace;
    var k := TrimRightDrops(s);
    var r := s[..k];
    var from, to := TrimSpaceDropsBlanks(r);
    TrimSpaceTrims(r);
    BlankConcat(r[to..], s[k..]);
    assert s == r[..from] + (r[from..to] + (r[to..] + s[k..]));
    TrimSpaceIs(r[..from], r[from..to], r[to..] + s[k..]);
  }

  lemma TrimSpaceAfterLeft(s: string)
    ensures TrimSpace(TrimLeft(s)) == TrimSpace(s)
  {
    TrimLeftTrims(s);
  }

  /** "=" stops trimming from either side. */
  lemma {:induction false} EqualsStopsLeft(a: string, r: string)
    ensures TrimLeft(a + "=" + r) == TrimLeft(a) + "=" + r
    decreases |a|
  {
    var s := a + "=" + r;
    assert s[|a|] == '=' && forall i :: 0 <= i < |a| ==> s[i] == a[i];
    var w := LeadSpace(a);
    assert LeadSpace(s) == w;
    if w > 0 {
      assert s[w..] == a[w..] + "=" + r;
      EqualsStopsLeft(a[w..], r);
    }
  }

  lemma {:induction false} EqualsStopsRight(a: string, r: string)
    ensures TrimRight(a + "=" + r) == a + "=" + TrimRight(r)
    decreases |r|
  {
    var s := a + "=" + r;
    assert s[|a|] == '=' && forall i :: 0 <= i < |r| ==> s[|a| + 1 + i] == r[i];
    var w := TailSpace(r);
    assert TailSpace(s) == w;
    if w > 0 {
      assert s[..|s| - w] == a + "=" + r[..|r| - w];
      EqualsStopsRight(a, r[..|r| - w]);
    }
  }

  /** Trimming only removes: every byte of the result was in s. */
  lemma {:induction false} TrimSpaceKeeps(s: string, c: char)
    requires c in TrimSpace(s)
    ensures c in s
  {
    TrimRightKeeps(TrimLeft(s), c);
    TrimLeftKeeps(s, c);
  }

  lemma {:induction false} TrimLeftKeeps(s: string, c: char)
    requires c in TrimLeft(s)
    ensures c in s
    decreases |s|
  {
    if LeadSpace(s) > 0 { TrimLeftKeeps(s[LeadSpace(s)..], c); }
  }

  lemma {:induction false} TrimRightKeeps(s: string, c: char)
    requires c in TrimRight(s)
    ensures c in s
    decreases |s|
  {
    if TailSpace(s) > 0 { TrimRightKeeps(s[..|s| - TailSpace(s)], c); }
  }

  /** "=" is part of no white-space code point, so it shields what stands before and behind it. */
  lemma JoinedTrimmed(a: string, b: string)
    requires Trimmed(a) && Trimmed(b) && b != ""
    ensures Trimmed(a + "=" + b)
  {
  }

  /** White-space-free text is trimmed. */
  lemma SpaceFreeIsTrimmed(s: string)
    requires SpaceFree(s)
    ensures Trimmed(s)
  {
    if s != "" {
      assert s[0..] == s;
      var t := s[|s| - TailSpace(s)..];
      assert TailSpace(s) == LeadSpace(t);
    }
  }

  /** A space byte shields what stands before it: no code point reaches across it. */
  lemma LeadSpaceShielded(a: string, b: string)
    ensures LeadSpace(a + " " + b) == if a == "" then 1 else LeadSpace(a)
  {
    var s := a + " " + b;
    assert s[|a|] == ' ' && forall i :: 0 <= i < |a| ==> s[i] == a[i];
  }

  lemma WordLengthIs(s: string, k: nat)
    requires k <= |s| && forall i :: 0 <= i < k ==> LeadSpace(s[i..]) == 0
    requires k < |s| ==> LeadSpace(s[k..]) > 0
    ensures WordLength(s) == k
  {
    var n := WordLength(s);
    hide LeadSpace, WordLength;
    assert n < |s| ==> LeadSpace(s[n..]) > 0;
  }

  lemma WordLengthShielded(a: string, b: string)
    ensures WordLength(a + " " + b) == WordLength(a)
  {
    var s := a + " " + b;
    var k := WordLength(a);
    hide LeadSpace, WordLength;
    forall i | 0 <= i <= |a| ensures LeadSpace(s[i..]) == if i == |a| then 1 else LeadSpace(a[i..]) {
      assert s[i..] == a[i..] + " " + b;
      LeadSpaceShielded(a[i..], b);
    }
    WordLengthIs(s, k);
  }

  lemma FieldsStep(s: string)
    requires s != ""
    ensures LeadSpace(s) == 0 ==> WordLength(s) > 0
    ensures Fields(s) == if LeadSpace(s) > 0 then Fields(s[LeadSpace(s)..])
                         else [s[..WordLength(s)]] + Fields(s[WordLength(s)..])
  {
    hide LeadSpace, WordLength;
  }

  /** Fields on the two sides of a space byte are found apart. */
  lemma {:induction false} FieldsConcat(a: string, b: string)
    ensures Fields(a + " " + b) == Fields(a) + Fields(b)
    decreases |a|
  {
    hide LeadSpace, WordLength, Fields;
    var s := a + " " + b;
    LeadSpaceShielded(a, b);
    FieldsStep(s);
    if a == "" {
      assert s[1..] == b;
      assert Fields("") == [] by { FieldsOfNothing(); }
    } else {
      FieldsStep(a);
      WordLengthShielded(a, b);
      var w := if LeadSpace(a) > 0 then LeadSpace(a) else WordLength(a);
      assert s[w..] == a[w..] + " " + b && s[..w] == a[..w];
      FieldsConcat(a[w..], b);
    }
  }

  lemma FieldsOfNothing()
    ensures Fields("") == []
  {
  }

  predicate AreWords(words: seq<string>) {
    forall i :: 0 <= i < |words| ==> words[i] != "" && SpaceFree(words[i])
  }

  /** Splitting on white space undoes joining with single spaces. */
  lemma {:induction false} FieldsOfJoin(words: seq<string>)
    requires AreWords(words)
    ensures Fields(Join(words, " ")) == words
  {
    if words != [] {
      FieldsOfWord(words[0]);
      assert words == [words[0]] + words[1..];
      if |words| > 1 {
        FieldsOfJoin(words[1..]);
        FieldsConcat(words[0], Join(words[1..], " "));
      }
    }
  }

  lemma FieldsOfWord(e: string)
    requires e != "" && SpaceFree(e)
    ensures Fields(e) == [e]
  {
    assert e[0..] == e && e[..|e|] == e && e[|e|..] == "";
  }

  /** Every field is a word. */
  lemma {:induction false} FieldsAreWords(s: string)
    ensures AreWords(Fields(s))
    decreases |s|
  {
    if s != "" && LeadSpace(s) > 0 {
      FieldsAreWords(s[LeadSpace(s)..]);
    } else if s != "" {
      var k := WordLength(s);
      FieldsAreWords(s[k..]);
      PrefixOfWord(s, k);
    }
  }

  lemma PrefixOfWord(s: string, k: nat)
    requires k <= |s| && forall i :: 0 <= i < k ==> LeadSpace(s[i..]) == 0
    ensures SpaceFree(s[..k])
  {
    forall i | 0 <= i < k ensures LeadSpace(s[..k][i..]) == 0 {
      LeadSpaceOfPrefix(s[i..], k - i);
      assert s[..k][i..] == s[i..][..k - i];
    }
  }

  /** Of a list joined with spaces, a name survives splitting exactly when it is a word. */
  lemma {:induction false} WordIsField(list: seq<string>, p: string)
    requires p in list && p != ""
    ensures p in Fields(Join(list, " ")) <==> SpaceFree(p)
  {
    FieldsAreWords(Join(list, " "));
    if SpaceFree(p) {
      hide SpaceFree, Fields;
      if list[0] == p { FieldsOfWord(p); }
      if |list| > 1 {
        FieldsConcat(list[0], Join(list[1..], " "));
        if list[0] != p { WordIsField(list[1..], p); }
      }
    }
  }

  // ---------------------------------------------------------------- byte order

  /** Go's string order: lexicographic on bytes. */
  predicate Less(a: string, b: string) {
    if b == "" then false
    else if a == "" then true
    else a[0] < b[0] || (a[0] == b[0] && Less(a[1..], b[1..]))
  }

  lemma {:induction false} LessIrreflexive(a: string)
    ensures !Less(a, a)
  {
    if a != "" { LessIrreflexive(a[1..]); }
  }

  lemma {:induction false} LessTransitive(a: string, b: string, c: string)
    requires Less(a, b) && Less(b, c)
    ensures Less(a, c)
  {
    if a != "" && a[0] == b[0] == c[0] { LessTransitive(a[1..], b[1..], c[1..]); }
  }

  lemma {:induction false} LessTotal(a: string, b: string)
    ensures a == b || Less(a, b) || Less(b, a)
  {
    if a != "" && b != "" && a[0] == b[0] {
      LessTotal(a[1..], b[1..]);
      assert a == [a[0]] + a[1..] && b == [b[0]] + b[1..];
    }
  }
}
