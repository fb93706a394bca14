/**
 * String.prototype.trim as ECMA-262 (the ECMAScript language specification)
 * defines it through its TrimString operation with "both" as the where
 * argument: the leading and the trailing code points that are WhiteSpace or
 * LineTerminator are removed, the interior of the string is left untouched.
 */
module EcmaTrim {

  /** The WhiteSpace code points of ECMA-262 (TAB, VT, FF, SP, NBSP, ZWNBSP and
      the Unicode "Zs" category) and its LineTerminator code points (LF, CR,
      LS, PS). */
  predicate IsWhiteSpace(c: char) {
    || c == '\t' || c == '\U{000B}' || c == '\U{000C}' || c == ' '
    || c == '\U{00A0}' || c == '\U{FEFF}' || c == '\U{1680}'
    || ('\U{2000}' <= c <= '\U{200A}')
    || c == '\U{202F}' || c == '\U{205F}' || c == '\U{3000}'
    || c == '\n' || c == '\r' || c == '\U{2028}' || c == '\U{2029}'
  }

  predicate AllWhiteSpace(s: string) {
    forall i | 0 <= i < |s| :: IsWhiteSpace(s[i])
  }

  /** Neither end of `s` is white space. */
  predicate IsTrimmed(s: string) {
    s == [] || (!IsWhiteSpace(s[0]) && !IsWhiteSpace(s[|s| - 1]))
  }

  /** TrimString(s, both): white space is dropped from the front, then from
      the back, one code point at a time, until neither end is white space. */
  function Trim(s: string): (r: string)
    ensures IsTrimmed(r)
    ensures |r| <= |s|
  {
    if s != [] && IsWhiteSpace(s[0]) then Trim(s[1..])
    else if s != [] && IsWhiteSpace(s[|s| - 1]) then Trim(s[..|s| - 1])
    else s
  }

  /** What Trim cuts off: the result is the slice of `s` that starts at
      `lead`, and every code point before and after that slice is white
      space. */
  lemma {:induction false} TrimSlice(s: string) returns (lead: nat)
    ensures lead + |Trim(s)| <= |s|
    ensures forall i | 0 <= i < |Trim(s)| :: Trim(s)[i] == s[lead + i]
    ensures forall i | 0 <= i < lead :: IsWhiteSpace(s[i])
    ensures forall i | lead + |Trim(s)| <= i < |s| :: IsWhiteSpace(s[i])
  {
    var r := Trim(s);
    if s != [] && IsWhiteSpace(s[0]) {
      var t := s[1..];
      assert r == Trim(t);
      var l := TrimSlice(t);
      lead := l + 1;
    } else if s != [] && IsWhiteSpace(s[|s| - 1]) {
      var t := s[..|s| - 1];
      assert r == Trim(t);
      lead := TrimSlice(t);
    } else {
      lead := 0;
    }
  }

  /** Trim is determined by that description: whenever `s` splits into white
      space, a trimmed middle and white space, Trim returns that middle. */
  lemma {:induction false} TrimUnique(p: string, m: string, q: string)
    requires AllWhiteSpace(p) && AllWhiteSpace(q) && IsTrimmed(m)
    ensures Trim(p + m + q) == m
    decreases |p| + |q|
  {
    var s := p + m + q;
    if p != [] {
      assert s[0] == p[0];
      assert s[1..] == p[1..] + m + q;
      TrimUnique(p[1..], m, q);
    } else if m == [] && q != [] {
      assert s == q && s[0] == q[0];
      assert s[1..] == [] + [] + q[1..];
      TrimUnique([], [], q[1..]);
    } else if q != [] {
      assert s[0] == m[0];
      assert s[|s| - 1] == q[|q| - 1];
      assert s[..|s| - 1] == [] + m + q[..|q| - 1];
      TrimUnique([], m, q[..|q| - 1]);
    } else {
      assert s == m;
    }
  }

  /** A string is a fixed point of Trim exactly when it is already trimmed; in
      particular trimming twice is trimming once. */
  lemma TrimFixedPoint(s: string)
    ensures Trim(s) == s <==> IsTrimmed(s)
    ensures Trim(Trim(s)) == Trim(s)
  {
    var e: string := [];
    if IsTrimmed(s) {
      assert e + s + e == s;
      TrimUnique(e, s, e);
    }
    var t := Trim(s);
    assert e + t + e == t;
    TrimUnique(e, t, e);
  }
}
