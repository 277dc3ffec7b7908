/** The JavaScript built-ins the extension relies on, stated over Dafny values:
    integer-to-text conversion (`String(n)`, template literals), `parseInt`,
    `String.prototype.split` with a one-character separator, `startsWith`,
    `includes` and `Math.ceil(x / 1000)` on integer milliseconds. */
module Js {

  datatype Option<+T> = None | Some(value: T)

  /** A JavaScript Number as the extension uses it: an integer or NaN. The integer is
      unbounded; a double holds every integer exactly only below 2^53 in magnitude. */
  datatype JsNumber = NaN | Num(value: int)

  // ---------------------------------------------------------------------------
  // Integer to text
  // ---------------------------------------------------------------------------

  predicate IsDigit(c: char) {
    '0' <= c <= '9'
  }

  predicate AllDigits(s: string) {
    forall i :: 0 <= i < |s| ==> IsDigit(s[i])
  }

  function DigitChar(d: nat): (c: char)
    requires d < 10
    ensures IsDigit(c)
  {
    (('0' as int) + d) as char
  }

  /** Decimal digits of `n`, most significant first, without leading zeros. */
  function NatToString(n: nat): (s: string)
    ensures |s| > 0 && AllDigits(s)
    ensures s[0] == '0' ==> n == 0 && |s| == 1
    ensures n < 10 <==> |s| == 1
  {
    if n < 10 then [DigitChar(n)] else NatToString(n / 10) + [DigitChar(n % 10)]
  }

  /** `String(n)` for an integer Number: a minus sign before the digits of a negative value.
      This is JavaScript's text for magnitudes below 2^53 (from 10^21 up it switches to
      exponent form). */
  function IntToString(n: int): (s: string)
    ensures |s| > 0
    ensures n >= 0 ==> s == NatToString(n)
    ensures n < 0 ==> s == "-" + NatToString(-n)
  {
    if n < 0 then "-" + NatToString(-n) else NatToString(n)
  }

  // ---------------------------------------------------------------------------
  // parseInt
  // ---------------------------------------------------------------------------

  /** The white space and line terminators that `parseInt` skips before the number. */
  predicate IsJsWhitespace(c: char) {
    c == '\t' || c == '\n' || c == '\U{B}' || c == '\U{C}' || c == '\r' || c == ' '
    || c == '\U{A0}' || c == '\U{1680}' || ('\U{2000}' <= c <= '\U{200A}')
    || c == '\U{2028}' || c == '\U{2029}' || c == '\U{202F}' || c == '\U{205F}'
    || c == '\U{3000}' || c == '\U{FEFF}'
  }

  function TrimStart(s: string): (r: string)
    ensures |r| <= |s| && r == s[|s| - |r|..]
    ensures r == [] || !IsJsWhitespace(r[0])
  {
    if s != [] && IsJsWhitespace(s[0]) then TrimStart(s[1..]) else s
  }

  /** The value of `c` as a digit in radices up to 36; 36 when it is no digit at all. */
  function DigitValue(c: char): (d: nat)
    ensures d <= 36
    ensures IsDigit(c) <==> d < 10
  {
    if '0' <= c <= '9' then (c as int) - ('0' as int)
    else if 'a' <= c <= 'z' then (c as int) - ('a' as int) + 10
    else if 'A' <= c <= 'Z' then (c as int) - ('A' as int) + 10
    else 36
  }

  /** The longest prefix of `s` made of digits of radix `r`. */
  function LeadingDigits(s: string, r: nat): (z: string)
    ensures |z| <= |s| && z == s[..|z|]
    ensures forall i :: 0 <= i < |z| ==> DigitValue(z[i]) < r
  {
    if s == [] || DigitValue(s[0]) >= r then [] else [s[0]] + LeadingDigits(s[1..], r)
  }

  /** The value of the digit string `z` in radix `r`. */
  function DigitsValue(z: string, r: nat): nat {
    if z == [] then 0 else DigitsValue(z[..|z| - 1], r) * r + DigitValue(z[|z| - 1])
  }

  /** The Number read from the digits at the head of `s` in radix `r`; NaN when there are none. */
  function DigitsNumber(s: string, r: nat): JsNumber {
    var z := LeadingDigits(s, r);
    if z == [] then NaN else Num(DigitsValue(z, r))
  }

  predicate HasHexPrefix(s: string) {
    |s| >= 2 && s[0] == '0' && (s[1] == 'x' || s[1] == 'X')
  }

  /** The unsigned part of `parseInt`: a `0x`/`0X` prefix selects radix 16 when the radix is
      absent (0) or 16; otherwise an absent radix means 10. */
  function ParseMagnitude(s: string, radix: int): JsNumber
    requires radix == 0 || 2 <= radix <= 36
  {
    if (radix == 0 || radix == 16) && HasHexPrefix(s) then DigitsNumber(s[2..], 16)
    else DigitsNumber(s, if radix == 0 then 10 else radix)
  }

  function Negate(n: JsNumber): JsNumber {
    match n
    case NaN => NaN
    case Num(v) => Num(-v)
  }

  /** `parseInt(s, radix)`, with `radix == 0` standing for an absent radix: leading white
      space is skipped, one sign is read, then the longest run of digits; no digits gives
      NaN, and so does a radix outside 2..36. A negative zero is the Number 0 here. */
  function ParseInt(s: string, radix: int): JsNumber {
    var t := TrimStart(s);
    if radix != 0 && (radix < 2 || radix > 36) then NaN
    else if t != [] && t[0] == '-' then Negate(ParseMagnitude(t[1..], radix))
    else if t != [] && t[0] == '+' then ParseMagnitude(t[1..], radix)
    else ParseMagnitude(t, radix)
  }

  lemma {:induction false} LeadingDigitsOfDigits(s: string)
    requires AllDigits(s)
    ensures LeadingDigits(s, 10) == s
  {
    if s != [] {
      LeadingDigitsOfDigits(s[1..]);
    }
  }

  lemma {:induction false} NatToStringValue(n: nat)
    ensures DigitsValue(NatToString(n), 10) == n
  {
    var s := NatToString(n);
    if n >= 10 {
      NatToStringValue(n / 10);
      assert s[..|s| - 1] == NatToString(n / 10);
    }
  }

  /** A non-empty run of decimal digits is read whole, with or without an explicit radix 10. */
  lemma ParseDigitRun(s: string, radix: int)
    requires s != [] && AllDigits(s)
    requires radix == 0 || radix == 10
    ensures ParseMagnitude(s, radix) == Num(DigitsValue(s, 10))
  {
    assert !HasHexPrefix(s) by {
      if |s| >= 2 { assert IsDigit(s[1]); }
    }
    LeadingDigitsOfDigits(s);
  }

  /** `parseInt(String(n))` gives back `n` for every integer `n` of the model; in JavaScript,
      where Numbers are doubles, this holds for magnitudes below 2^53. */
  lemma ParseIntToString(n: int, radix: int)
    requires radix == 0 || radix == 10
    ensures ParseInt(IntToString(n), radix) == Num(n)
  {
    if n >= 0 {
      ParseNatToString(n, radix);
    } else {
      ParseNegativeToString(-n, radix);
    }
  }

  /** Text that starts with a digit or a sign has no white space to skip, so `parseInt`
      reads it from its first character. */
  lemma ParseFromFirstChar(s: string, radix: int)
    requires s != [] && (IsDigit(s[0]) || s[0] == '-')
    requires radix == 0 || radix == 10
    ensures s[0] == '-' ==> ParseInt(s, radix) == Negate(ParseMagnitude(s[1..], radix))
    ensures s[0] != '-' ==> ParseInt(s, radix) == ParseMagnitude(s, radix)
  {
    assert !IsJsWhitespace(s[0]);
    assert TrimStart(s) == s;
  }

  lemma ParseNatToString(n: nat, radix: int)
    requires radix == 0 || radix == 10
    ensures ParseInt(NatToString(n), radix) == Num(n)
  {
    var s := NatToString(n);
    assert IsDigit(s[0]);
    ParseFromFirstChar(s, radix);
    ParseDigitRun(s, radix);
    NatToStringValue(n);
  }

  lemma ParseNegativeToString(n: nat, radix: int)
    requires n > 0
    requires radix == 0 || radix == 10
    ensures ParseInt("-" + NatToString(n), radix) == Num(-(n as int))
  {
    var digits := NatToString(n);
    calc {
      ParseInt("-" + digits, radix);
      { ParseAfterMinus(digits, radix); }
      Negate(ParseMagnitude(digits, radix));
      { ParseDigitRun(digits, radix); NatToStringValue(n); }
      Negate(Num(n));
    }
  }

  /** A minus sign in front negates what the rest reads as. */
  lemma ParseAfterMinus(rest: string, radix: int)
    requires radix == 0 || radix == 10
    ensures ParseInt("-" + rest, radix) == Negate(ParseMagnitude(rest, radix))
  {
    var s := "-" + rest;
    assert s[1..] == rest;
    ParseFromFirstChar(s, radix);
  }

  /** Text read back as a plain decimal number: a non-empty run of digits, or nothing. */
  function ReadDecimal(s: string): Option<nat> {
    if s != [] && AllDigits(s) then Some(DigitsValue(s, 10)) else None
  }

  /** Decimal digits leave out every character that is no digit. */
  lemma DigitsLack(s: string, c: char)
    requires AllDigits(s) && !IsDigit(c)
    ensures c !in s
  {
    forall i | 0 <= i < |s|
      ensures s[i] != c
    {
      assert IsDigit(s[i]);
    }
  }

  /** The digits of a number read back as that number. */
  lemma ReadDecimalOfNat(n: nat)
    ensures ReadDecimal(NatToString(n)) == Some(n)
  {
    NatToStringValue(n);
  }

  // ---------------------------------------------------------------------------
  // split, startsWith, includes
  // ---------------------------------------------------------------------------

  /** `s.split(sep)` for a one-character separator: the pieces between separators, in order. */
  function Split(s: string, sep: char): (parts: seq<string>)
    ensures |parts| > 0
    decreases |s|
  {
    if s == [] then [""]
    else
      var rest := Split(s[1..], sep);
      if s[0] == sep then [""] + rest else [[s[0]] + rest[0]] + rest[1..]
  }

  /** Splitting text without the separator gives the text itself. */
  lemma {:induction false} SplitWithoutSeparator(s: string, sep: char)
    requires sep !in s
    ensures Split(s, sep) == [s]
    decreases |s|
  {
    if s != [] {
      SplitWithoutSeparator(s[1..], sep);
      assert [s[0]] + s[1..] == s;
    }
  }

  /** A separator between two texts joins their pieces. */
  lemma {:induction false} SplitJoin(a: string, sep: char, b: string)
    ensures Split(a + [sep] + b, sep) == Split(a, sep) + Split(b, sep)
    decreases |a|
  {
    if a == [] {
      assert a + [sep] + b == [sep] + b;
      SplitCons(sep, b, sep);
    } else {
      var c, t := a[0], a[1..];
      var front, back := Split(t, sep), Split(b, sep);
      assert Split(a, sep) == Split([c] + t, sep) by { assert a == [c] + t; }
      assert Split(a + [sep] + b, sep) == Split([c] + (t + [sep] + b), sep) by {
        assert a + [sep] + b == [c] + (t + [sep] + b);
      }
      assert Split(t + [sep] + b, sep) == front + back by { SplitJoin(t, sep, b); }
      SplitCons(c, t + [sep] + b, sep);
      SplitCons(c, t, sep);
      JoinHeads(c, sep, front, back);
    }
  }

  /** The sequence algebra behind `SplitJoin`: joining the pieces before and after unfolding. */
  lemma JoinHeads(c: char, sep: char, front: seq<string>, back: seq<string>)
    requires |front| > 0
    ensures var joined := front + back;
      (if c == sep then [""] + joined else [[c] + joined[0]] + joined[1..])
      == (if c == sep then [""] + front else [[c] + front[0]] + front[1..]) + back
  {
    var joined := front + back;
    assert joined[0] == front[0] && joined[1..] == front[1..] + back;
  }

  /** A first piece without the separator is split off whole. */
  lemma SplitAfterPiece(a: string, sep: char, b: string)
    requires sep !in a
    ensures Split(a + [sep] + b, sep) == [a] + Split(b, sep)
  {
    SplitJoin(a, sep, b);
    SplitWithoutSeparator(a, sep);
  }

  /** The last piece comes from the text after the last separator. */
  lemma LastPieceAfter(a: string, sep: char, b: string)
    ensures Last(Split(a + [sep] + b, sep)) == Last(Split(b, sep))
  {
    SplitJoin(a, sep, b);
  }

  /** `Split` unfolded at the first character. */
  lemma SplitCons(c: char, t: string, sep: char)
    ensures var rest := Split(t, sep);
      Split([c] + t, sep) == if c == sep then [""] + rest else [[c] + rest[0]] + rest[1..]
  {
    assert ([c] + t)[1..] == t;
  }

  /** `pieces.join(sep)`: the pieces with the separator between each two. */
  function Join(pieces: seq<string>, sep: char): string
    requires |pieces| > 0
  {
    if |pieces| == 1 then pieces[0] else pieces[0] + [sep] + Join(pieces[1..], sep)
  }

  lemma JoinCons(piece: string, rest: seq<string>, sep: char)
    requires |rest| > 0
    ensures Join([piece] + rest, sep) == piece + [sep] + Join(rest, sep)
  {
    assert ([piece] + rest)[1..] == rest;
  }

  lemma JoinOfFive(a: string, b: string, c: string, d: string, e: string, sep: char)
    ensures Join([a, b, c, d, e], sep) == a + [sep] + b + [sep] + c + [sep] + d + [sep] + e
  {
    JoinCons(d, [e], sep);
    assert [c, d, e] == [c] + [d, e];
    JoinCons(c, [d, e], sep);
    assert [b, c, d, e] == [b] + [c, d, e];
    JoinCons(b, [c, d, e], sep);
    assert [a, b, c, d, e] == [a] + [b, c, d, e];
    JoinCons(a, [b, c, d, e], sep);
  }

  /** Splitting joined pieces that lack the separator gives the pieces back. */
  lemma {:induction false} SplitJoined(pieces: seq<string>, sep: char)
    requires |pieces| > 0
    requires forall i :: 0 <= i < |pieces| ==> sep !in pieces[i]
    ensures Split(Join(pieces, sep), sep) == pieces
    decreases |pieces|
  {
    if |pieces| == 1 {
      SplitWithoutSeparator(pieces[0], sep);
    } else {
      SplitJoined(pieces[1..], sep);
      SplitAfterPiece(pieces[0], sep, Join(pieces[1..], sep));
      assert [pieces[0]] + pieces[1..] == pieces;
    }
  }

  /** The last element of a non-empty sequence (`Array.prototype.pop`'s result). */
  function Last<T>(s: seq<T>): T
    requires |s| > 0
  {
    s[|s| - 1]
  }

  predicate StartsWith(s: string, prefix: string) {
    |prefix| <= |s| && s[..|prefix|] == prefix
  }

  /** `s.includes(sub)`: `sub` occurs somewhere in `s`. */
  predicate Contains(s: string, sub: string)
    decreases |s|
  {
    StartsWith(s, sub) || (s != [] && Contains(s[1..], sub))
  }

  /** `sub` occurring at position `k` makes `s` contain it. */
  lemma {:induction false} ContainsAt(s: string, sub: string, k: nat)
    requires k <= |s| && StartsWith(s[k..], sub)
    ensures Contains(s, sub)
    decreases k
  {
    if k > 0 {
      assert s[1..][k - 1..] == s[k..];
      ContainsAt(s[1..], sub, k - 1);
    }
  }

  predicate EndsWith(s: string, suffix: string) {
    |suffix| <= |s| && s[|s| - |suffix|..] == suffix
  }

  /** Text whose character at one place of a would-be suffix differs does not end with it. */
  lemma EndsWithDiffers(s: string, suffix: string, k: nat)
    requires k < |suffix|
    requires |suffix| <= |s| ==> s[|s| - |suffix| + k] != suffix[k]
    ensures !EndsWith(s, suffix)
  {
    if |suffix| <= |s| {
      assert s[|s| - |suffix|..][k] == s[|s| - |suffix| + k];
    }
  }

  /** Text that lacks the first character of `sub` does not contain `sub`. */
  lemma {:induction false} NotContainsWithoutFirstChar(s: string, sub: string)
    requires sub != [] && sub[0] !in s
    ensures !Contains(s, sub)
    decreases |s|
  {
    if s != [] {
      assert s[0] != sub[0];
      NotContainsWithoutFirstChar(s[1..], sub);
    }
  }

  // ---------------------------------------------------------------------------
  // Math.ceil over integer milliseconds
  // ---------------------------------------------------------------------------

  /** `Math.ceil(x / 1000)` for an integer `x`: the least integer whose thousandfold reaches `x`. */
  function CeilDiv1000(x: int): (r: int)
    ensures r * 1000 >= x && (r - 1) * 1000 < x
  {
    -((-x) / 1000)
  }
}
