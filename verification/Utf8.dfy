/** UTF-8 as section 4 of RFC 3629 defines it: which byte strings are valid, and the
    code points a valid one spells. */
module Utf8 {
  import opened Strings

  type CodePoint = int

  predicate IsTail(c: char) { 0x80 <= c as int <= 0xBF }

  /** Bytes of the code point encoded at the front of s; 0 when the front is not a
      well-formed encoding. The cases are the UTF8-1 .. UTF8-4 productions. */
  function Width(s: string): (w: nat)
    ensures w <= |s| && w <= 4
  {
    if s == "" then 0
    else
      var b0 := s[0] as int;
      if b0 <= 0x7F then 1
      else if |s| >= 2 && 0xC2 <= b0 <= 0xDF && IsTail(s[1]) then 2
      else if |s| >= 3 && IsTail(s[2]) && Second3(b0, s[1] as int) then 3
      else if |s| >= 4 && IsTail(s[2]) && IsTail(s[3]) && Second4(b0, s[1] as int) then 4
      else 0
  }

  /** UTF8-3: no overlong forms, no surrogates. */
  predicate Second3(b0: int, b1: int) {
    || (b0 == 0xE0 && 0xA0 <= b1 <= 0xBF)
    || (0xE1 <= b0 <= 0xEC && 0x80 <= b1 <= 0xBF)
    || (b0 == 0xED && 0x80 <= b1 <= 0x9F)
    || (0xEE <= b0 <= 0xEF && 0x80 <= b1 <= 0xBF)
  }

  /** UTF8-4: no overlong forms, nothing above U+10FFFF. */
  predicate Second4(b0: int, b1: int) {
    || (b0 == 0xF0 && 0x90 <= b1 <= 0xBF)
    || (0xF1 <= b0 <= 0xF3 && 0x80 <= b1 <= 0xBF)
    || (b0 == 0xF4 && 0x80 <= b1 <= 0x8F)
  }

  /** The code point encoded at the front of s (section 3 of RFC 3629). */
  function First(s: string): CodePoint
    requires Width(s) > 0
  {
    var b0 := s[0] as int;
    if Width(s) == 1 then b0
    else if Width(s) == 2 then (b0 - 0xC0) * 0x40 + (s[1] as int - 0x80)
    else if Width(s) == 3 then (b0 - 0xE0) * 0x1000 + (s[1] as int - 0x80) * 0x40 + (s[2] as int - 0x80)
    else (b0 - 0xF0) * 0x40000 + (s[1] as int - 0x80) * 0x1000 + (s[2] as int - 0x80) * 0x40 + (s[3] as int - 0x80)
  }

  /** utf8.ValidString. */
  predicate Valid(s: string)
    decreases |s|
  {
    s == "" || (Width(s) > 0 && Valid(s[Width(s)..]))
  }

  /** The code points of a valid string, in order. */
  function Decode(s: string): (cs: seq<CodePoint>)
    requires Valid(s)
    decreases |s|
  {
    if s == "" then [] else [First(s)] + Decode(s[Width(s)..])
  }

  /** The code points UTF-8 encodes: no surrogates, nothing above U+10FFFF. */
  predicate IsScalar(c: CodePoint) {
    0 <= c < 0xD800 || 0xE000 <= c <= 0x10FFFF
  }

  /** The encoding rule of section 3 of RFC 3629. */
  function Encode(c: CodePoint): string
    requires IsScalar(c)
  {
    if c < 0x80 then [c as char]
    else if c < 0x800 then [(0xC0 + c / 0x40) as char, (0x80 + c % 0x40) as char]
    else if c < 0x10000 then
      [(0xE0 + c / 0x40 / 0x40) as char, (0x80 + c / 0x40 % 0x40) as char, (0x80 + c % 0x40) as char]
    else
      [(0xF0 + c / 0x40 / 0x40 / 0x40) as char, (0x80 + c / 0x40 / 0x40 % 0x40) as char,
       (0x80 + c / 0x40 % 0x40) as char, (0x80 + c % 0x40) as char]
  }

  /** Decoding undoes encoding ... */
  lemma EncodeDecodes(c: CodePoint)
    requires IsScalar(c)
    ensures Width(Encode(c)) == |Encode(c)| && First(Encode(c)) == c
  {
    if 0x800 <= c < 0x10000 {
      EncodeThree(c);
    } else if 0x10000 <= c {
      EncodeFour(c);
    }
  }

  lemma EncodeThree(c: CodePoint)
    requires IsScalar(c) && 0x800 <= c < 0x10000
    ensures Width(Encode(c)) == 3 && First(Encode(c)) == c
  {
  }

  lemma EncodeFour(c: CodePoint)
    requires IsScalar(c) && 0x10000 <= c
    ensures Width(Encode(c)) == 4 && First(Encode(c)) == c
  {
    var q1 := c / 0x40;
    var q2 := q1 / 0x40;
    var a, b, d, e := q2 / 0x40, q2 % 0x40, q1 % 0x40, c % 0x40;
    assert Encode(c) == [(0xF0 + a) as char, (0x80 + b) as char, (0x80 + d) as char, (0x80 + e) as char];
    FourBytes(a, b, d, e);
    hide Encode, Width, First;
  }

  lemma FourBytes(a: int, b: int, d: int, e: int)
    requires 0 <= a <= 4 && 0 <= b < 0x40 && 0 <= d < 0x40 && 0 <= e < 0x40
    requires (a == 0 ==> b >= 0x10) && (a == 4 ==> b < 0x10)
    ensures var s := [(0xF0 + a) as char, (0x80 + b) as char, (0x80 + d) as char, (0x80 + e) as char];
      Width(s) == 4 && First(s) == a * 0x40000 + b * 0x1000 + d * 0x40 + e
  {
  }

  /** ... and encoding undoes decoding: the front of valid text is the only spelling of its code point. */
  lemma DecodeEncodes(s: string)
    requires Width(s) > 0
    ensures IsScalar(First(s)) && Encode(First(s)) == s[..Width(s)]
  {
    FirstIsScalar(s);
    EncodeDecodes(First(s));
    FirstInjective(Encode(First(s)), s);
    hide Width, First, Encode;
  }

  lemma FirstIsScalar(s: string)
    requires Width(s) > 0
    ensures IsScalar(First(s))
  {
  }

  /** An encoding is self-delimiting: what follows it changes neither its width nor its value. */
  lemma WidthExtends(s: string, t: string)
    requires Width(s) > 0
    ensures Width(s + t) == Width(s) && First(s + t) == First(s)
  {
  }

  /** Validity and decoding distribute over concatenation at a code-point boundary. */
  lemma {:induction false} DecodeConcat(s: string, t: string)
    requires Valid(s)
    ensures Valid(s + t) <==> Valid(t)
    ensures Valid(t) ==> Decode(s + t) == Decode(s) + Decode(t)
    decreases |s|
  {
    if s == "" {
      assert s + t == t;
    } else {
      var w := Width(s);
      WidthExtends(s, t);
      hide Width, First;
      var rest := s[w..];
      assert (s + t)[w..] == rest + t;
      DecodeConcat(rest, t);
      assert Valid(t) ==> [First(s)] + (Decode(rest) + Decode(t)) == ([First(s)] + Decode(rest)) + Decode(t);
    }
  }

  /** Decoding one ASCII byte. */
  lemma DecodeAscii(c: char)
    requires c as int <= 0x7F
    ensures Valid([c]) && Decode([c]) == [c as int]
  {
  }

  /** Equal code points have equal encodings. */
  lemma FirstInjective(s: string, t: string)
    requires Width(s) > 0 && Width(t) > 0
    requires First(s) == First(t)
    ensures Width(s) == Width(t)
    ensures s[..Width(s)] == t[..Width(t)]
  {
    FirstRange(s);
    FirstRange(t);
    var w := Width(s);
    if w == 2 {
      Digits(s[0] as int - 0xC0, s[1] as int - 0x80, t[0] as int - 0xC0, t[1] as int - 0x80);
    } else if w == 3 {
      Digits((s[0] as int - 0xE0) * 0x40 + (s[1] as int - 0x80), s[2] as int - 0x80,
             (t[0] as int - 0xE0) * 0x40 + (t[1] as int - 0x80), t[2] as int - 0x80);
      Digits(s[0] as int - 0xE0, s[1] as int - 0x80, t[0] as int - 0xE0, t[1] as int - 0x80);
    } else if w == 4 {
      Digits((s[0] as int - 0xF0) * 0x1000 + (s[1] as int - 0x80) * 0x40 + (s[2] as int - 0x80), s[3] as int - 0x80,
             (t[0] as int - 0xF0) * 0x1000 + (t[1] as int - 0x80) * 0x40 + (t[2] as int - 0x80), t[3] as int - 0x80);
      Digits((s[0] as int - 0xF0) * 0x40 + (s[1] as int - 0x80), s[2] as int - 0x80,
             (t[0] as int - 0xF0) * 0x40 + (t[1] as int - 0x80), t[2] as int - 0x80);
      Digits(s[0] as int - 0xF0, s[1] as int - 0x80, t[0] as int - 0xF0, t[1] as int - 0x80);
    }
    assert forall i :: 0 <= i < w ==> s[i] == t[i];
  }

  lemma Digits(x: int, y: int, u: int, v: int)
    requires 0 <= y < 0x40 && 0 <= v < 0x40
    requires x * 0x40 + y == u * 0x40 + v
    ensures x == u && y == v
  {
  }

  /** The width is determined by the code point's range. */
  lemma FirstRange(s: string)
    requires Width(s) > 0
    ensures Width(s) == 1 <==> First(s) < 0x80
    ensures Width(s) == 2 <==> 0x80 <= First(s) < 0x800
    ensures Width(s) == 3 <==> 0x800 <= First(s) < 0x10000
    ensures Width(s) == 4 <==> 0x10000 <= First(s) <= 0x10FFFF
  {
  }

  /** Byte prefixes of valid text are exactly code-point prefixes. */
  lemma PrefixIsCodePointPrefix(a: string, b: string)
    requires Valid(a) && Valid(b)
    ensures a <= b <==> Decode(a) <= Decode(b)
  {
    hide Width, First;
    if a <= b {
      assert b == a + b[|a|..];
      DecodeConcat(a, b[|a|..]);
    }
    if Decode(a) <= Decode(b) { CodePointPrefixIsPrefix(a, b); }
  }

  lemma {:induction false} CodePointPrefixIsPrefix(a: string, b: string)
    requires Valid(a) && Valid(b)
    requires Decode(a) <= Decode(b)
    ensures a <= b
    decreases |a|
  {
    if a != "" {
      var v, w := Width(a), Width(b);
      assert First(a) == Decode(a)[0] == Decode(b)[0] == First(b);
      assert Decode(a[v..]) == Decode(a)[1..] <= Decode(b)[1..] == Decode(b[w..]);
      FirstInjective(a, b);
      CodePointPrefixIsPrefix(a[v..], b[w..]);
      PrefixInTwo(a, b, v);
    }
  }

  lemma PrefixInTwo(a: string, b: string, w: nat)
    requires w <= |a| && w <= |b| && a[..w] == b[..w] && a[w..] <= b[w..]
    ensures a <= b
  {
  }

  /** Distinct valid strings spell distinct texts. */
  lemma DecodeInjective(a: string, b: string)
    requires Valid(a) && Valid(b)
    ensures a == b <==> Decode(a) == Decode(b)
  {
    PrefixIsCodePointPrefix(a, b);
    PrefixIsCodePointPrefix(b, a);
  }

  /** An ASCII byte of valid text is always a whole code point. */
  lemma {:induction false} AsciiAbsent(s: string, c: char)
    requires Valid(s) && c as int <= 0x7F && c !in s
    ensures c as int !in Decode(s)
    decreases |s|
  {
    if s != "" {
      FirstRange(s);
      AsciiAbsent(s[Width(s)..], c);
    }
  }

  lemma WidthBeforeAscii(a: string, c: char, b: string)
    requires a != "" && c as int <= 0x7F && Width(a + [c] + b) > 0
    ensures Width(a) == Width(a + [c] + b)
  {
  }

  /** ... so the text before one is valid. */
  lemma {:induction false} AsciiHead(a: string, c: char, b: string)
    requires Valid(a + [c] + b) && c as int <= 0x7F
    ensures Valid(a)
    decreases |a|
  {
    if a != "" {
      WidthBeforeAscii(a, c, b);
      hide Width;
      var w := Width(a);
      assert (a + [c] + b)[w..] == a[w..] + [c] + b;
      AsciiHead(a[w..], c, b);
    }
  }

  /** Cutting valid text at an ASCII byte cuts its code points at the same place. */
  lemma AsciiCut(a: string, c: char, b: string)
    requires Valid(a) && c as int <= 0x7F && Valid(a + [c] + b)
    ensures Valid(b)
    ensures Decode(a + [c] + b) == Decode(a) + [c as int] + Decode(b)
  {
    assert a + [c] + b == a + ([c] + b);
    DecodeAscii(c);
    hide Width, First;
    DecodeConcat(a, [c] + b);
    DecodeConcat([c], b);
  }

  /** Each string is valid and spells the code points beside it. */
  predicate Spell(parts: seq<string>, texts: seq<seq<CodePoint>>) {
    |parts| == |texts| && forall i :: 0 <= i < |parts| ==> Valid(parts[i]) && Decode(parts[i]) == texts[i]
  }

  lemma SpellCons(a: string, parts: seq<string>, texts: seq<seq<CodePoint>>)
    requires Valid(a) && Spell(parts, texts)
    ensures Spell([a] + parts, [Decode(a)] + texts)
  {
  }

  /** Splitting bytes at an ASCII separator is splitting code points at it. */
  lemma {:induction false} SplitNIsCodePointSplit(s: string, sep: char, n: nat)
    requires Valid(s) && sep as int <= 0x7F && n >= 1
    ensures Spell(SplitN(s, sep, n), SplitN(Decode(s), sep as int, n))
    decreases n
  {
    if sep !in s {
      AsciiAbsent(s, sep);
    } else if n > 1 {
      var i := IndexOf(s, sep);
      var a, b := s[..i], s[i + 1..];
      assert s == a + [sep] + b;
      CutAtFirst(a, sep, b);
      SplitNIsCodePointSplit(b, sep, n - 1);
      SplitNStep(a, sep, b, n);
      SplitNStep(Decode(a), sep as int, Decode(b), n);
      SpellCons(a, SplitN(b, sep, n - 1), SplitN(Decode(b), sep as int, n - 1));
    }
  }

  lemma CutAtFirst(a: string, sep: char, b: string)
    requires sep !in a && sep as int <= 0x7F && Valid(a + [sep] + b)
    ensures Valid(a) && Valid(b) && sep as int !in Decode(a)
    ensures Decode(a + [sep] + b) == Decode(a) + [sep as int] + Decode(b)
  {
    AsciiHead(a, sep, b);
    AsciiAbsent(a, sep);
    AsciiCut(a, sep, b);
  }
}
