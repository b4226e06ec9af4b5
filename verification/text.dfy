/** The little string handling the scorer relies on: decimal rendering of
    numbers (JavaScript's `toString` on integers), the inverse parser used to
    state round trips, JavaScript's `String.prototype.trim`, and lower-casing
    for player ids. */
module Text {

  predicate IsDigit(c: char) {
    '0' <= c <= '9'
  }

  function DigitChar(d: nat): (c: char)
    requires d < 10
    ensures IsDigit(c)
    ensures c as int - '0' as int == d
  {
    ('0' as int + d) as char
  }

  function DigitValue(c: char): (d: nat)
    requires IsDigit(c)
    ensures d < 10
  {
    c as int - '0' as int
  }

  /** Decimal digits of `n`, most significant first, no leading zeros. */
  function NatToString(n: nat): (s: string)
    ensures |s| >= 1
    ensures forall i | 0 <= i < |s| :: IsDigit(s[i])
    ensures |s| > 1 ==> s[0] != '0'
    decreases n
  {
    if n < 10 then [DigitChar(n)] else NatToString(n / 10) + [DigitChar(n % 10)]
  }

  /** Decimal text as `toString` writes a natural number: digits only, and
      no leading zero unless the number is zero itself. */
  predicate IsNatNumeral(s: string) {
    |s| >= 1 && (forall i | 0 <= i < |s| :: IsDigit(s[i])) && (|s| > 1 ==> s[0] != '0')
  }

  /** Decimal text as `toString` writes an integer: a natural numeral, or a
      minus sign before a non-zero one (there is no "-0"). */
  predicate IsIntNumeral(s: string) {
    IsNatNumeral(s) || (|s| >= 2 && s[0] == '-' && IsNatNumeral(s[1..]) && s[1..] != "0")
  }

  /** `n.toString()` for an integer-valued JavaScript number. */
  function IntToString(n: int): (r: string)
    ensures IsIntNumeral(r)
    ensures r[0] == '-' <==> n < 0
  {
    if n < 0 then
      NatRoundTrip(-n);
      assert NatToString(-n) != "0" by { assert ParseNat("0") == 0; }
      var r := "-" + NatToString(-n);
      assert r[1..] == NatToString(-n);
      r
    else NatToString(n)
  }

  /** Reads a run of decimal digits back as a number. */
  function ParseNat(s: string): nat
    requires forall i | 0 <= i < |s| :: IsDigit(s[i])
  {
    if |s| == 0 then 0 else ParseNat(s[..|s| - 1]) * 10 + DigitValue(s[|s| - 1])
  }

  /** Reads an optionally negated run of decimal digits. */
  function ParseInt(s: string): int
    requires |s| > 0 && s[0] == '-' ==> forall i | 1 <= i < |s| :: IsDigit(s[i])
    requires |s| == 0 || s[0] != '-' ==> forall i | 0 <= i < |s| :: IsDigit(s[i])
  {
    if |s| > 0 && s[0] == '-' then -(ParseNat(s[1..]) as int) else ParseNat(s)
  }

  lemma {:induction false} NatRoundTrip(n: nat)
    ensures ParseNat(NatToString(n)) == n
    decreases n
  {
    if n >= 10 {
      var s := NatToString(n);
      assert s == NatToString(n / 10) + [DigitChar(n % 10)];
      assert s[..|s| - 1] == NatToString(n / 10);
      NatRoundTrip(n / 10);
    }
  }

  /** Rendering then parsing an integer gives it back. */
  lemma IntRoundTrip(n: int)
    ensures IntToString(n) != ""
    ensures ParseInt(IntToString(n)) == n
  {
    if n < 0 {
      var s := IntToString(n);
      assert s[1..] == NatToString(-n);
      NatRoundTrip(-n);
    } else {
      NatRoundTrip(n);
    }
  }

  /** A natural numeral is exactly the rendering of the number it denotes. */
  lemma {:induction false} NatNumeralRoundTrip(s: string)
    requires IsNatNumeral(s)
    ensures NatToString(ParseNat(s)) == s
    decreases |s|
  {
    if |s| == 1 {
      assert DigitChar(DigitValue(s[0])) == s[0];
    } else {
      var t := s[..|s| - 1];
      assert t[0] == s[0];
      NatNumeralRoundTrip(t);
      var p := ParseNat(t);
      assert NatToString(0) == "0" != t;
      var d := DigitValue(s[|s| - 1]);
      var n := p * 10 + d;
      assert n / 10 == p && n % 10 == d;
      assert DigitChar(d) == s[|s| - 1];
      assert s == t + [s[|s| - 1]];
    }
  }

  /** An integer numeral is exactly the rendering of the number it denotes,
      so two numerals that denote the same number are the same text. */
  lemma IntNumeralRoundTrip(s: string)
    requires IsIntNumeral(s)
    ensures IntToString(ParseInt(s)) == s
  {
    if IsNatNumeral(s) {
      NatNumeralRoundTrip(s);
    } else {
      var u := s[1..];
      NatNumeralRoundTrip(u);
      var p := ParseNat(u);
      assert NatToString(0) == "0" != u;
      assert p > 0;
      assert ParseInt(s) == -(p as int);
      assert IntToString(-(p as int)) == "-" + NatToString(p) == "-" + u == s;
    }
  }

  /** Different numbers render differently. */
  lemma NatToStringInjective(a: nat, b: nat)
    requires a != b
    ensures NatToString(a) != NatToString(b)
  {
    NatRoundTrip(a);
    NatRoundTrip(b);
  }

  /** JavaScript's white space and line terminators, the characters `trim`
      removes (ECMA-262 WhiteSpace and LineTerminator). */
  predicate IsSpace(c: char) {
    var k := c as int;
    k == 0x09 || k == 0x0A || k == 0x0B || k == 0x0C || k == 0x0D || k == 0x20
    || k == 0xA0 || k == 0x1680 || (0x2000 <= k <= 0x200A) || k == 0x2028
    || k == 0x2029 || k == 0x202F || k == 0x205F || k == 0x3000 || k == 0xFEFF
  }

  /** `s.trimStart()`. */
  function TrimStart(s: string): (r: string)
    ensures |r| <= |s|
  {
    if |s| > 0 && IsSpace(s[0]) then TrimStart(s[1..]) else s
  }

  /** `s.trimEnd()`. */
  function TrimEnd(s: string): (r: string)
    ensures |r| <= |s|
  {
    if |s| > 0 && IsSpace(s[|s| - 1]) then TrimEnd(s[..|s| - 1]) else s
  }

  /** Trimming the start drops exactly the leading run of white space. */
  lemma {:induction false} TrimStartSpec(s: string)
    ensures TrimStart(s) == s[|s| - |TrimStart(s)|..]
    ensures |TrimStart(s)| > 0 ==> !IsSpace(TrimStart(s)[0])
    ensures forall i | 0 <= i < |s| - |TrimStart(s)| :: IsSpace(s[i])
  {
    if |s| > 0 && IsSpace(s[0]) {
      TrimStartSpec(s[1..]);
      assert s[1..][|s| - 1 - |TrimStart(s)|..] == s[|s| - |TrimStart(s)|..];
      forall i | 0 <= i < |s| - |TrimStart(s)| ensures IsSpace(s[i]) {
        if i > 0 {
          assert s[i] == s[1..][i - 1];
        }
      }
    }
  }

  /** Trimming the end drops exactly the trailing run of white space. */
  lemma {:induction false} TrimEndSpec(s: string)
    ensures TrimEnd(s) == s[..|TrimEnd(s)|]
    ensures |TrimEnd(s)| > 0 ==> !IsSpace(TrimEnd(s)[|TrimEnd(s)| - 1])
    ensures forall i | |TrimEnd(s)| <= i < |s| :: IsSpace(s[i])
  {
    if |s| > 0 && IsSpace(s[|s| - 1]) {
      var t := s[..|s| - 1];
      TrimEndSpec(t);
      assert t[..|TrimEnd(s)|] == s[..|TrimEnd(s)|];
      forall i | |TrimEnd(s)| <= i < |s| ensures IsSpace(s[i]) {
        if i < |s| - 1 {
          assert s[i] == t[i];
        }
      }
    }
  }

  /** `s.trim()`: drops leading and trailing white space. The result is the
      slice of the input that starts after the leading white space, and
      everything outside that slice is white space. */
  function Trim(s: string): (r: string)
    ensures |r| <= |s|
    ensures |r| > 0 ==> !IsSpace(r[0]) && !IsSpace(r[|r| - 1])
    ensures var k := |s| - |TrimStart(s)|;
      && k + |r| <= |s|
      && r == s[k..k + |r|]
      && (forall j | 0 <= j < |s| && !(k <= j < k + |r|) :: IsSpace(s[j]))
  {
    TrimEdges(s);
    TrimEnd(TrimStart(s))
  }

  /** Neither end of a trimmed string is white space, and it is the middle
      slice of the input between the leading and trailing white space. */
  lemma TrimEdges(s: string)
    ensures var r := TrimEnd(TrimStart(s));
      |r| > 0 ==> !IsSpace(r[0]) && !IsSpace(r[|r| - 1])
    ensures var r := TrimEnd(TrimStart(s)); var k := |s| - |TrimStart(s)|;
      && k + |r| <= |s|
      && r == s[k..k + |r|]
      && (forall j | 0 <= j < |s| && !(k <= j < k + |r|) :: IsSpace(s[j]))
  {
    var t := TrimStart(s);
    var r := TrimEnd(t);
    TrimStartSpec(s);
    TrimEndSpec(t);
    if |r| > 0 {
      assert r[0] == t[..|r|][0] == t[0];
    }
    var k := |s| - |t|;
    assert r == t[..|r|] == s[k..][..|r|] == s[k..k + |r|];
    forall j | 0 <= j < |s| && !(k <= j < k + |r|) ensures IsSpace(s[j]) {
      if j >= k {
        assert s[j] == t[j - k];
      }
    }
  }

  /** A trimmed string neither starts nor ends with white space, it is
      empty exactly when the input was all white space, and it is the
      input's middle slice with only white space around it. */
  lemma TrimSpec(s: string)
    ensures |Trim(s)| > 0 ==> !IsSpace(Trim(s)[0]) && !IsSpace(Trim(s)[|Trim(s)| - 1])
    ensures Trim(s) == "" <==> forall i | 0 <= i < |s| :: IsSpace(s[i])
    ensures var k := |s| - |TrimStart(s)|;
      && k + |Trim(s)| <= |s|
      && Trim(s) == s[k..k + |Trim(s)|]
      && (forall j | 0 <= j < |s| && !(k <= j < k + |Trim(s)|) :: IsSpace(s[j]))
  {
    var t := TrimStart(s);
    TrimStartSpec(s);
    TrimEndSpec(t);
    if Trim(s) != "" {
      assert Trim(s) == t[..|Trim(s)|];
      assert Trim(s)[0] == t[0];
    }
  }

  /** A name the form treats as not filled in: `name.trim() === ''`. */
  predicate IsBlank(s: string) {
    Trim(s) == ""
  }

  function LowerChar(c: char): char {
    if 'A' <= c <= 'Z' then (c as int + 32) as char else c
  }

  /** `s.toLowerCase()` restricted to ASCII letters. */
  function Lower(s: string): (r: string)
    ensures |r| == |s|
  {
    if |s| == 0 then "" else [LowerChar(s[0])] + Lower(s[1..])
  }
}
