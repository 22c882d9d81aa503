/** Strings as the services use them: ECMAScript `trim`, ASCII letter case, decimal
    numerals, fixed-width zero-padded numerals and the `<` operator on strings. */
module Text {

  /** WhiteSpace and LineTerminator of ECMA-262 sections 12.2 and 12.3, which `trim` and `\s` share. */
  predicate IsSpace(c: char) {
    || '\t' <= c <= '\r'
    || c == ' '
    || c in {'\U{00A0}', '\U{1680}', '\U{2028}', '\U{2029}', '\U{202F}', '\U{205F}', '\U{3000}', '\U{FEFF}'}
    || '\U{2000}' <= c <= '\U{200A}'
  }

  /** The code points of white space: tab to carriage return, and the Unicode spaces and line separators. */
  lemma SpaceCodePoints(c: char)
    ensures IsSpace(c) <==>
            var n := c as int;
            || 9 <= n <= 13 || 8192 <= n <= 8202
            || n in {32, 160, 5760, 8232, 8233, 8239, 8287, 12288, 65279}
  {
  }

  function TrimStart(s: string): string {
    if s != "" && IsSpace(s[0]) then TrimStart(s[1..]) else s
  }

  function TrimEnd(s: string): string {
    if s != "" && IsSpace(s[|s| - 1]) then TrimEnd(s[..|s| - 1]) else s
  }

  function Trim(s: string): string {
    TrimEnd(TrimStart(s))
  }

  predicate Unpadded(s: string) {
    s == "" || (!IsSpace(s[0]) && !IsSpace(s[|s| - 1]))
  }

  predicate AllSpaces(w: string) {
    forall i :: 0 <= i < |w| ==> IsSpace(w[i])
  }

  lemma {:induction false} TrimStartCuts(s: string)
    ensures
      var t := TrimStart(s);
      |t| <= |s| && s[|s| - |t|..] == t && AllSpaces(s[..|s| - |t|]) && (t == "" || !IsSpace(t[0]))
  {
    if s != "" && IsSpace(s[0]) {
      TrimStartCuts(s[1..]);
      var t := TrimStart(s);
      assert s[..|s| - |t|] == [s[0]] + s[1..][..|s| - 1 - |t|];
      assert s[|s| - |t|..] == s[1..][|s| - 1 - |t|..];
    }
  }

  lemma {:induction false} TrimEndCuts(s: string)
    ensures
      var t := TrimEnd(s);
      |t| <= |s| && s[..|t|] == t && AllSpaces(s[|t|..]) && (t == "" || !IsSpace(t[|t| - 1]))
  {
    if s != "" && IsSpace(s[|s| - 1]) {
      var init := s[..|s| - 1];
      TrimEndCuts(init);
      var t := TrimEnd(s);
      assert s[|t|..] == init[|t|..] + [s[|s| - 1]];
    }
  }

  /** Trimming takes white space, and only white space, off both ends, and leaves none there. */
  lemma TrimExactly(s: string)
    ensures Unpadded(Trim(s))
    ensures exists a, b :: s == a + Trim(s) + b && AllSpaces(a) && AllSpaces(b)
  {
    hide TrimStart, TrimEnd, IsSpace, AllSpaces;
    TrimStartCuts(s);
    var t := TrimStart(s);
    TrimEndCuts(t);
    var u := TrimEnd(t);
    assert t == u + t[|u|..];
    assert s == s[..|s| - |t|] + u + t[|u|..];
    assert u != "" ==> t[0] == u[0];
  }

  lemma UnpaddedTrim(s: string)
    requires Unpadded(s)
    ensures Trim(s) == s
  {
  }

  /** `toLowerCase` on ASCII letters. */
  function LowerLetter(c: char): char {
    if 'A' <= c <= 'Z' then (c as int + 32) as char else c
  }

  function LowerWord(s: string): (r: string)
    ensures |r| == |s|
  {
    seq(|s|, i requires 0 <= i < |s| => LowerLetter(s[i]))
  }

  predicate IsDigit(c: char) {
    '0' <= c <= '9'
  }

  predicate AllDigits(s: string) {
    forall i :: 0 <= i < |s| ==> IsDigit(s[i])
  }

  function DigitChar(d: nat): (c: char)
    requires d < 10
    ensures IsDigit(c) && DigitValue(c) == d
  {
    ('0' as int + d) as char
  }

  function DigitValue(c: char): (d: nat)
    requires IsDigit(c)
    ensures d < 10
  {
    c as int - '0' as int
  }

  lemma DigitCharOfValue(c: char)
    requires IsDigit(c)
    ensures DigitChar(DigitValue(c)) == c
  {
  }

  /** The number a string of decimal digits denotes. */
  function ParseNat(s: string): nat
    requires AllDigits(s)
  {
    if s == "" then 0 else 10 * ParseNat(s[..|s| - 1]) + DigitValue(s[|s| - 1])
  }

  function Pow10(w: nat): (p: nat)
    ensures p >= 1
  {
    if w == 0 then 1 else 10 * Pow10(w - 1)
  }

  /** `n` as `w` decimal digits, padded with zeros on the left. */
  function Pad(n: nat, w: nat): (s: string)
    requires n < Pow10(w)
    ensures |s| == w && AllDigits(s)
  {
    if w == 0 then "" else Pad(n / 10, w - 1) + [DigitChar(n % 10)]
  }

  lemma {:induction false} ParsePad(n: nat, w: nat)
    requires n < Pow10(w)
    ensures ParseNat(Pad(n, w)) == n
  {
    if w > 0 {
      ParsePad(n / 10, w - 1);
      assert Pad(n, w)[..w - 1] == Pad(n / 10, w - 1);
    }
  }

  lemma {:induction false} PadParse(s: string)
    requires AllDigits(s)
    ensures ParseNat(s) < Pow10(|s|)
    ensures Pad(ParseNat(s), |s|) == s
  {
    if s != "" {
      var init, d := s[..|s| - 1], DigitValue(s[|s| - 1]);
      PadParse(init);
      DigitCharOfValue(s[|s| - 1]);
      assert s == init + [s[|s| - 1]];
      var n := ParseNat(s);
      assert n == 10 * ParseNat(init) + d;
      assert n / 10 == ParseNat(init) && n % 10 == d;
    }
  }

  /** ECMAScript `String(n)` for a natural number. */
  function NatToString(n: nat): (s: string)
    ensures s != "" && AllDigits(s)
  {
    if n < 10 then [DigitChar(n)] else NatToString(n / 10) + [DigitChar(n % 10)]
  }

  lemma {:induction false} ParseNatToString(n: nat)
    ensures ParseNat(NatToString(n)) == n
  {
    var s := NatToString(n);
    if n < 10 {
      assert s[..|s| - 1] == "";
    } else {
      ParseNatToString(n / 10);
      assert s[..|s| - 1] == NatToString(n / 10);
    }
  }

  /** ECMAScript `String(n)` for an integer. */
  function IntToString(n: int): (s: string)
    ensures s != "" && Unpadded(s)
  {
    if n < 0 then "-" + NatToString(-n) else NatToString(n)
  }

  /** The `<` operator on two strings (section 13.10 of ECMA-262). */
  predicate StrLess(a: string, b: string) {
    if b == "" then false
    else if a == "" then true
    else if a[0] != b[0] then a[0] < b[0]
    else StrLess(a[1..], b[1..])
  }

  /** Zero-padded numerals of one width compare as the numbers do, and ties are decided by what follows. */
  lemma {:induction false} StrLessPad(a: nat, b: nat, w: nat, s: string, t: string)
    requires a < Pow10(w) && b < Pow10(w)
    ensures StrLess(Pad(a, w) + s, Pad(b, w) + t) <==> a < b || (a == b && StrLess(s, t))
  {
    hide StrLess;
    if w == 0 {
      assert Pad(a, w) + s == s && Pad(b, w) + t == t;
    } else {
      var s', t' := [DigitChar(a % 10)] + s, [DigitChar(b % 10)] + t;
      StrLessPad(a / 10, b / 10, w - 1, s', t');
      DigitOrder(a % 10, b % 10, s, t);
      assert Pad(a, w) + s == Pad(a / 10, w - 1) + s';
      assert Pad(b, w) + t == Pad(b / 10, w - 1) + t';
    }
  }

  lemma DigitOrder(x: nat, y: nat, s: string, t: string)
    requires x < 10 && y < 10
    ensures StrLess([DigitChar(x)] + s, [DigitChar(y)] + t) <==> x < y || (x == y && StrLess(s, t))
  {
    assert ([DigitChar(x)] + s)[1..] == s && ([DigitChar(y)] + t)[1..] == t;
  }

  lemma StrLessSameHead(c: char, s: string, t: string)
    ensures StrLess([c] + s, [c] + t) <==> StrLess(s, t)
  {
    assert ([c] + s)[1..] == s && ([c] + t)[1..] == t;
  }
}
