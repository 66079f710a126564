/** The JavaScript string primitives the registry relies on: trim, ASCII lower-casing,
    includes, the digit test of the NIK pattern, decimal rendering, padStart and parseInt. */
module Text {
  import opened Wrappers

  /** What String.prototype.trim strips: ECMAScript WhiteSpace (TAB, VT, FF, SP, NBSP,
      ZWNBSP and the Zs category) and LineTerminator (LF, CR, LS, PS). */
  predicate IsWhitespace(c: char) {
    c == '\t' || c == '\n' || c == '\U{B}' || c == '\U{C}' || c == '\r' || c == ' '
    || c == '\U{A0}' || c == '\U{1680}' || ('\U{2000}' <= c <= '\U{200A}')
    || c == '\U{2028}' || c == '\U{2029}' || c == '\U{202F}' || c == '\U{205F}'
    || c == '\U{3000}' || c == '\U{FEFF}'
  }

  /** A string that trims to nothing: JavaScript treats its trimmed form as falsy. */
  predicate IsBlank(s: string) {
    forall i :: 0 <= i < |s| ==> IsWhitespace(s[i])
  }

  /** Drops the leading whitespace; what is left is a suffix of s. */
  function TrimStart(s: string): (r: string)
    ensures |r| <= |s| && r == s[|s| - |r|..]
    ensures forall i :: 0 <= i < |s| - |r| ==> IsWhitespace(s[i])
    ensures r == [] || !IsWhitespace(r[0])
  {
    if s != [] && IsWhitespace(s[0]) then TrimStart(s[1..]) else s
  }

  /** Drops the trailing whitespace; what is left is a prefix of s. */
  function TrimEnd(s: string): (r: string)
    ensures |r| <= |s| && r == s[..|r|]
    ensures forall i :: |r| <= i < |s| ==> IsWhitespace(s[i])
    ensures r == [] || !IsWhitespace(r[|r| - 1])
  {
    if s != [] && IsWhitespace(s[|s| - 1]) then TrimEnd(s[..|s| - 1]) else s
  }

  /** String.prototype.trim: the middle part of s with blank text on either side removed;
      empty exactly when s is blank, and otherwise starting and ending with a
      non-whitespace character. */
  function Trim(s: string): (r: string)
    ensures |r| <= |s|
    ensures exists a, b :: 0 <= a <= b <= |s| && r == s[a..b] && IsBlank(s[..a]) && IsBlank(s[b..])
    ensures r == [] <==> IsBlank(s)
    ensures r == [] || (!IsWhitespace(r[0]) && !IsWhitespace(r[|r| - 1]))
  {
    var r := TrimEnd(TrimStart(s));
    TrimSlice(s);
    TrimEmptyIffBlank(s);
    r
  }

  /** Trimming both ends leaves a slice of s with blank text on either side of it. */
  lemma TrimSlice(s: string)
    ensures var r := TrimEnd(TrimStart(s));
      exists a, b :: 0 <= a <= b <= |s| && r == s[a..b] && IsBlank(s[..a]) && IsBlank(s[b..])
  {
    var t := TrimStart(s);
    var r := TrimEnd(t);
    var a := |s| - |t|;
    TrimStartHead(s);
    TrimEndTail(t);
    SliceOfSuffix(s, a, |r|);
    assert 0 <= a <= a + |r| <= |s| && r == s[a..a + |r|]
           && IsBlank(s[..a]) && IsBlank(s[a + |r|..]);
  }

  /** Slicing a suffix of s is slicing s itself, shifted by where the suffix starts. */
  lemma SliceOfSuffix(s: string, a: int, k: int)
    requires 0 <= a <= |s| && 0 <= k <= |s| - a
    ensures s[a..][k..] == s[a + k..] && s[a..][..k] == s[a..a + k]
  {
  }

  /** What TrimStart drops is blank. */
  lemma TrimStartHead(s: string)
    ensures IsBlank(s[..|s| - |TrimStart(s)|])
  {
    var head := s[..|s| - |TrimStart(s)|];
    forall i | 0 <= i < |head| ensures IsWhitespace(head[i]) {
      assert head[i] == s[i];
    }
  }

  /** What TrimEnd drops is blank. */
  lemma TrimEndTail(t: string)
    ensures IsBlank(t[|TrimEnd(t)|..])
  {
    var r := TrimEnd(t);
    var tail := t[|r|..];
    forall i | 0 <= i < |tail| ensures IsWhitespace(tail[i]) {
      assert tail[i] == t[|r| + i];
    }
  }

  /** Trimming both ends leaves nothing exactly when s is blank. */
  lemma TrimEmptyIffBlank(s: string)
    ensures TrimEnd(TrimStart(s)) == [] <==> IsBlank(s)
  {
  }

  /** A string with no whitespace at either end is its own trimmed form. */
  lemma TrimUnchanged(s: string)
    requires s == [] || (!IsWhitespace(s[0]) && !IsWhitespace(s[|s| - 1]))
    ensures Trim(s) == s
  {
  }

  /** Trimming twice is trimming once. */
  lemma TrimIdempotent(s: string)
    ensures Trim(Trim(s)) == Trim(s)
  {
    TrimUnchanged(Trim(s));
  }

  function LowerChar(c: char): char {
    if 'A' <= c <= 'Z' then (c as int + 32) as char else c
  }

  /** String.prototype.toLowerCase restricted to the ASCII letters. */
  function Lower(s: string): (r: string)
    ensures |r| == |s|
    ensures forall i :: 0 <= i < |r| ==> !('A' <= r[i] <= 'Z')
    ensures forall i :: 0 <= i < |s| && !('A' <= s[i] <= 'Z') ==> r[i] == s[i]
    ensures forall i :: 0 <= i < |s| && 'A' <= s[i] <= 'Z' ==> r[i] as int == s[i] as int + 32
  {
    seq(|s|, i requires 0 <= i < |s| => LowerChar(s[i]))
  }

  /** Lower-casing twice is lower-casing once. */
  lemma LowerIdempotent(s: string)
    ensures Lower(Lower(s)) == Lower(s)
  {
  }

  predicate IsPrefix(p: string, s: string) {
    |p| <= |s| && s[..|p|] == p
  }

  /** String.prototype.includes: needle occurs in hay at some offset. */
  predicate Contains(hay: string, needle: string)
    decreases |hay|
  {
    IsPrefix(needle, hay) || (hay != [] && Contains(hay[1..], needle))
  }

  /** needle occurs in hay starting at offset i. */
  predicate OccursAt(hay: string, needle: string, i: int) {
    0 <= i <= |hay| - |needle| && hay[i..i + |needle|] == needle
  }

  /** Contains agrees with the definition of an occurrence at an explicit offset. */
  lemma {:induction false} ContainsIffOccurs(hay: string, needle: string)
    ensures Contains(hay, needle) <==> exists i :: OccursAt(hay, needle, i)
  {
    if IsPrefix(needle, hay) {
      assert OccursAt(hay, needle, 0);
    } else if hay == [] {
    } else {
      ContainsIffOccurs(hay[1..], needle);
      if Contains(hay[1..], needle) {
        var j :| OccursAt(hay[1..], needle, j);
        assert hay[j + 1..j + 1 + |needle|] == hay[1..][j..j + |needle|];
        assert OccursAt(hay, needle, j + 1);
      }
      if exists i :: OccursAt(hay, needle, i) {
        var i :| OccursAt(hay, needle, i);
        assert i != 0;
        assert hay[1..][i - 1..i - 1 + |needle|] == hay[i..i + |needle|];
        assert OccursAt(hay[1..], needle, i - 1);
      }
    }
  }

  /** Every string includes itself. */
  lemma ContainsItself(s: string)
    ensures Contains(s, s)
  {
    assert IsPrefix(s, s);
  }

  predicate IsDigit(c: char) {
    '0' <= c <= '9'
  }

  predicate AllDigits(s: string) {
    forall i :: 0 <= i < |s| ==> IsDigit(s[i])
  }

  function DigitValue(c: char): nat
    requires IsDigit(c)
  {
    c as int - '0' as int
  }

  function DigitChar(d: nat): char
    requires d < 10
  {
    ('0' as int + d) as char
  }

  /** The number a string of decimal digits denotes (leading zeros allowed). */
  function DigitsValue(s: string): nat
    requires AllDigits(s)
    decreases |s|
  {
    if s == [] then 0 else DigitsValue(s[..|s| - 1]) * 10 + DigitValue(s[|s| - 1])
  }

  /** String(n) for a non-negative integer: decimal digits without leading zeros. */
  function NatToString(n: nat): (r: string)
    ensures |r| >= 1 && AllDigits(r)
    ensures r[0] == '0' ==> n == 0
  {
    if n < 10 then [DigitChar(n)] else NatToString(n / 10) + [DigitChar(n % 10)]
  }

  /** Reading the digits back gives the number that was rendered. */
  lemma {:induction false} NatToStringValue(n: nat)
    ensures DigitsValue(NatToString(n)) == n
  {
    if n >= 10 {
      var r := NatToString(n);
      assert r[..|r| - 1] == NatToString(n / 10);
      NatToStringValue(n / 10);
    }
  }

  /** The widths of String(n) that the file timestamp depends on. */
  lemma NatToStringLength(n: nat)
    ensures n < 10 ==> |NatToString(n)| == 1
    ensures 10 <= n < 100 ==> |NatToString(n)| == 2
    ensures 1000 <= n < 10000 ==> |NatToString(n)| == 4
  {
    if 1000 <= n < 10000 {
      assert |NatToString(n / 100)| == 2;
    }
  }

  /** A leading zero does not change the value of a digit string. */
  lemma {:induction false} LeadingZeroValue(s: string)
    requires AllDigits(s)
    ensures AllDigits(['0'] + s) && DigitsValue(['0'] + s) == DigitsValue(s)
  {
    var t := ['0'] + s;
    if s != [] {
      assert t[..|t| - 1] == ['0'] + s[..|s| - 1];
      LeadingZeroValue(s[..|s| - 1]);
    }
  }

  /** `s.padStart(2, "0")`. */
  function Pad2(s: string): (r: string)
    ensures |r| == if |s| < 2 then 2 else |s|
    ensures r[|r| - |s|..] == s
    ensures forall i :: 0 <= i < |r| - |s| ==> r[i] == '0'
  {
    if |s| >= 2 then s else if |s| == 1 then ['0'] + s else "00"
  }

  /** `String(n).padStart(2, "0")` for n below 100 is two digits that read back as n. */
  lemma Pad2Value(n: nat)
    requires n < 100
    ensures |Pad2(NatToString(n))| == 2 && AllDigits(Pad2(NatToString(n)))
    ensures DigitsValue(Pad2(NatToString(n))) == n
  {
    NatToStringLength(n);
    NatToStringValue(n);
    if n < 10 {
      LeadingZeroValue(NatToString(n));
    }
  }

  /** The longest prefix of s made of decimal digits. */
  function LeadingDigits(s: string): (r: string)
    ensures IsPrefix(r, s) && AllDigits(r)
    ensures |r| == |s| || !IsDigit(s[|r|])
  {
    if s != [] && IsDigit(s[0]) then [s[0]] + LeadingDigits(s[1..]) else []
  }

  /** The decimal number at the head of u, or NaN (None) when u does not start with a digit. */
  function ParseDigits(u: string): Option<int> {
    var d := LeadingDigits(u);
    if d == [] then None else Some(DigitsValue(d))
  }

  /** parseInt(s) without a radix: leading whitespace is skipped, an optional sign is
      read, then the longest run of decimal digits; no digit right after the optional
      sign gives NaN (None). */
  function ParseInt(s: string): (r: Option<int>)
    ensures IsBlank(s) ==> r == None
    ensures s != [] && IsDigit(s[0]) ==> r.Some? && r.value >= 0
  {
    var t := TrimStart(s);
    if t != [] && t[0] == '-' then
      var magnitude := ParseDigits(t[1..]);
      if magnitude.Some? then Some(-magnitude.value) else None
    else if t != [] && t[0] == '+' then ParseDigits(t[1..])
    else ParseDigits(t)
  }

  lemma {:induction false} LeadingDigitsOfNumber(d: string, rest: string)
    requires AllDigits(d)
    requires rest == [] || !IsDigit(rest[0])
    ensures LeadingDigits(d + rest) == d
  {
    if d != [] {
      assert (d + rest)[1..] == d[1..] + rest;
      LeadingDigitsOfNumber(d[1..], rest);
    }
  }

  /** parseInt reads back a rendered number and ignores whatever follows its digits
      (a decimal part, a unit): the amount is truncated, not rounded. */
  lemma ParseIntReadsNumber(n: nat, rest: string)
    requires rest == [] || !IsDigit(rest[0])
    ensures ParseInt(NatToString(n) + rest) == Some(n)
  {
    var d := NatToString(n);
    ParseDigitsOfNumber(d, rest);
    NatToStringValue(n);
    UnsignedParse(d + rest);
  }

  /** The digits at the head of d + rest are exactly d. */
  lemma ParseDigitsOfNumber(d: string, rest: string)
    requires d != [] && AllDigits(d)
    requires rest == [] || !IsDigit(rest[0])
    ensures ParseDigits(d + rest) == Some(DigitsValue(d))
  {
    LeadingDigitsOfNumber(d, rest);
  }

  /** Text that starts with a digit is parsed without skipping or reading a sign. */
  lemma UnsignedParse(s: string)
    requires s != [] && IsDigit(s[0])
    ensures ParseInt(s) == ParseDigits(s)
  {
    assert TrimStart(s) == s;
  }

  /** A minus sign in front of the digits negates the amount. */
  lemma ParseIntReadsNegative(n: nat)
    ensures ParseInt(['-'] + NatToString(n)) == Some(-(n as int))
  {
    var d := NatToString(n);
    var s := ['-'] + d;
    assert s[0] == '-' && !IsWhitespace(s[0]);
    assert s[1..] == d + [];
    ParseDigitsOfNumber(d, []);
    NatToStringValue(n);
  }

  /** Blank text in front does not change where TrimStart stops. */
  lemma {:induction false} TrimStartBlankPrefix(w: string, s: string)
    requires IsBlank(w)
    ensures TrimStart(w + s) == TrimStart(s)
  {
    if w != [] {
      var ws := w + s;
      var w' := w[1..];
      assert IsWhitespace(w[0]) && ws[0] == w[0] && ws[1..] == w' + s;
      assert IsBlank(w') by {
        forall i | 0 <= i < |w'| ensures IsWhitespace(w'[i]) {
          assert w'[i] == w[i + 1];
        }
      }
      TrimStartBlankPrefix(w', s);
      assert TrimStart(ws) == TrimStart(ws[1..]);
    } else {
      assert w + s == s;
    }
  }

  /** parseInt skips leading whitespace: `parseInt(" 42")` reads as `parseInt("42")`. */
  lemma ParseIntSkipsBlank(w: string, s: string)
    requires IsBlank(w)
    ensures ParseInt(w + s) == ParseInt(s)
  {
    TrimStartBlankPrefix(w, s);
    ParseIntOfTrimmed(w + s);
    ParseIntOfTrimmed(s);
  }

  /** parseInt reads the same number once the leading whitespace is gone. */
  lemma ParseIntOfTrimmed(s: string)
    ensures ParseInt(s) == ParseInt(TrimStart(s))
  {
    var t := TrimStart(s);
    assert TrimStart(t) == t;
    if t != [] && t[0] == '-' {
      assert ParseInt(s) == ParseInt(t);
    } else if t != [] && t[0] == '+' {
      assert ParseInt(s) == ParseInt(t);
    } else {
      assert ParseInt(s) == ParseDigits(t) == ParseInt(t);
    }
  }

  /** '-' before digits negates their value and the text after the digits is ignored,
      so "-12.5" reads as -12. */
  lemma ParseIntMinus(d: string, rest: string)
    requires d != [] && AllDigits(d)
    requires rest == [] || !IsDigit(rest[0])
    ensures ParseInt(['-'] + (d + rest)) == Some(-(DigitsValue(d) as int))
  {
    ParseDigitsOfNumber(d, rest);
    SignedParse('-', d + rest);
  }

  /** '+' before digits keeps their value, so "+7" reads as 7. */
  lemma ParseIntPlus(d: string, rest: string)
    requires d != [] && AllDigits(d)
    requires rest == [] || !IsDigit(rest[0])
    ensures ParseInt(['+'] + (d + rest)) == Some(DigitsValue(d))
  {
    ParseDigitsOfNumber(d, rest);
    SignedParse('+', d + rest);
  }

  /** A sign with no digit right after it is NaN: "-abc" and "+" give NaN. */
  lemma ParseIntSignWithoutDigits(rest: string)
    requires rest == [] || !IsDigit(rest[0])
    ensures ParseInt(['-'] + rest) == None && ParseInt(['+'] + rest) == None
  {
    SignedParse('-', rest);
    SignedParse('+', rest);
    assert LeadingDigits(rest) == [];
  }

  /** Text that starts with a sign is read without skipping anything: '-' negates the
      digits after it and '+' keeps them. */
  lemma SignedParse(c: char, u: string)
    requires c == '-' || c == '+'
    ensures ([c] + u)[1..] == u
    ensures c == '-' ==> ParseInt([c] + u) == (if ParseDigits(u).Some? then Some(-ParseDigits(u).value) else None)
    ensures c == '+' ==> ParseInt([c] + u) == ParseDigits(u)
  {
    var m := [c] + u;
    assert m[0] == c && !IsWhitespace(m[0]) && m[1..] == u;
  }

  /** Input with no digit after the optional sign is NaN. */
  lemma ParseIntNaN(s: string)
    requires IsBlank(s) || (s != [] && !IsWhitespace(s[0]) && !IsDigit(s[0]) && s[0] != '-' && s[0] != '+')
    ensures ParseInt(s) == None
  {
    if !IsBlank(s) {
      assert TrimStart(s) == s;
    }
  }
}
