/** What the string functions mean, said without them: white space by code point, order by
    first difference, splitting by the parts alone. */
module TextLaws {
  import opened Strings
  import opened Utf8

  // ---------------------------------------------------------------- white space

  /** The code points with Unicode's White_Space property. */
  predicate IsWhiteSpace(c: CodePoint) {
    || 0x9 <= c <= 0xD || c == 0x20 || c == 0x85 || c == 0xA0 || c == 0x1680
    || 0x2000 <= c <= 0x200A || c in {0x2028, 0x2029, 0x202F, 0x205F, 0x3000}
  }

  /** A code point at the front of a string is dropped as white space, whole, exactly when
      it is one of those. */
  lemma LeadingWhiteSpace(c: CodePoint, rest: string)
    requires IsScalar(c)
    ensures LeadSpace(Encode(c) + rest) == if IsWhiteSpace(c) then |Encode(c)| else 0
  {
    var s := Encode(c) + rest;
    assert forall i :: 0 <= i < |Encode(c)| ==> s[i] == Encode(c)[i];
  }

  /** The same at the end. */
  lemma TrailingWhiteSpace(rest: string, c: CodePoint)
    requires IsScalar(c)
    ensures TailSpace(rest + Encode(c)) == if IsWhiteSpace(c) then |Encode(c)| else 0
  {
    EncodeDecodes(c);
    EncodingEndsAlone(rest, Encode(c));
    LoneTrailing(c);
    hide Encode, IsWhiteSpace, TailSpace;
  }

  lemma LoneTrailing(c: CodePoint)
    requires IsScalar(c)
    ensures TailSpace(Encode(c)) == if IsWhiteSpace(c) then |Encode(c)| else 0
  {
  }

  /** No white space reaches back out of an encoding. */
  lemma EncodingEndsAlone(rest: string, e: string)
    requires e != "" && Width(e) == |e|
    ensures TailSpace(rest + e) == TailSpace(e)
  {
    var s, k := rest + e, |rest|;
    assert forall i :: 0 <= i < |e| ==> s[k + i] == e[i];
  }

  // ---------------------------------------------------------------- order

  /** a and b agree on their first k bytes, and there a ends or is less. */
  predicate FirstDifference(a: string, b: string, k: nat) {
    k <= |a| && k < |b| && a[..k] == b[..k] && (k == |a| || a[k] < b[k])
  }

  lemma DifferenceBehindFront(a: string, b: string, k: nat)
    requires FirstDifference(a, b, k)
    ensures k > 0 ==> a != "" && a[0] == b[0]
  {
    if k > 0 { assert a[..k][0] == b[..k][0]; }
  }

  /** The order of sorted lists is the byte-wise lexicographic one. */
  lemma {:induction false} LessIsLexicographic(a: string, b: string)
    ensures Less(a, b) <==> exists k: nat :: FirstDifference(a, b, k)
  {
    if b == "" {
    } else if a == "" || a[0] != b[0] {
      if Less(a, b) { assert FirstDifference(a, b, 0); }
      forall k: nat | FirstDifference(a, b, k) ensures k > 0 ==> a != "" && a[0] == b[0] {
        DifferenceBehindFront(a, b, k);
      }
    } else {
      LessIsLexicographic(a[1..], b[1..]);
      if k: nat :| FirstDifference(a[1..], b[1..], k) {
        assert a[..k + 1] == [a[0]] + a[1..][..k] && b[..k + 1] == [b[0]] + b[1..][..k];
        assert FirstDifference(a, b, k + 1);
      }
      if k: nat :| FirstDifference(a, b, k) {
        assert k > 0;
        assert a[1..][..k - 1] == a[..k][1..] && b[1..][..k - 1] == b[..k][1..];
        assert FirstDifference(a[1..], b[1..], k - 1);
      }
    }
  }

  // ---------------------------------------------------------------- splitting

  /** The parts of a split are the one list without the separator in any part that joins to
      the string. */
  lemma {:induction false} SplitMeaning(s: string, sep: char, parts: seq<string>)
    ensures Split(s, sep) == parts <==>
      parts != [] && Join(parts, [sep]) == s && forall i :: 0 <= i < |parts| ==> sep !in parts[i]
    decreases |s|
  {
    if parts != [] && Join(parts, [sep]) == s && forall i :: 0 <= i < |parts| ==> sep !in parts[i] {
      PartsAreTheSplit(parts, sep);
    }
    if Split(s, sep) == parts { SplitHasParts(s, sep); }
  }

  lemma {:induction false} PartsAreTheSplit(parts: seq<string>, sep: char)
    requires parts != [] && forall i :: 0 <= i < |parts| ==> sep !in parts[i]
    ensures Split(Join(parts, [sep]), sep) == parts
  {
    assert parts == [parts[0]] + parts[1..];
    if |parts| > 1 {
      PartsAreTheSplit(parts[1..], sep);
      SplitStep(parts[0], sep, Join(parts[1..], [sep]));
    }
  }

  lemma {:induction false} SplitHasParts(s: string, sep: char)
    ensures Join(Split(s, sep), [sep]) == s
    ensures forall i :: 0 <= i < |Split(s, sep)| ==> sep !in Split(s, sep)[i]
    decreases |s|
  {
    if sep in s {
      var i := IndexOf(s, sep);
      var head, tail := s[..i], s[i + 1..];
      assert s == head + [sep] + tail;
      SplitHasParts(tail, sep);
      SplitStep(head, sep, tail);
      JoinCons(head, Split(tail, sep), [sep]);
    }
  }
}
