/** Python's `int(text)` in base 10: surrounding whitespace is ignored, an
    optional sign may lead, and digits may be grouped by single
    underscores ("1_000"). Anything else raises ValueError, modelled as
    `None`. */
module PyInt {
  import opened Common

  predicate IsDigit(c: char) {
    '0' <= c <= '9'
  }

  /** The ASCII characters `str.strip()` and `int()` treat as whitespace. */
  predicate IsSpace(c: char) {
    c == ' ' || c == '\t' || c == '\n' || c == '\r' || c == '\U{B}' || c == '\U{C}'
    || ('\U{1C}' <= c <= '\U{1F}')
  }

  /** `lstrip()`: the longest suffix not starting with whitespace. */
  function StripLeft(s: string): (t: string)
    ensures |t| <= |s| && t == s[|s| - |t|..]
    ensures forall i :: 0 <= i < |s| - |t| ==> IsSpace(s[i])
    ensures t == [] || !IsSpace(t[0])
  {
    if s != [] && IsSpace(s[0]) then
      var t := StripLeft(s[1..]);
      assert forall i :: 0 < i < |s| ==> s[i] == s[1..][i - 1];
      t
    else s
  }

  /** `rstrip()`: the longest prefix not ending with whitespace. */
  function StripRight(s: string): (t: string)
    ensures |t| <= |s| && t == s[..|t|]
    ensures forall i :: |t| <= i < |s| ==> IsSpace(s[i])
    ensures t == [] || !IsSpace(t[|t| - 1])
  {
    if s != [] && IsSpace(s[|s| - 1]) then StripRight(s[..|s| - 1]) else s
  }

  /** `t` is `s[k..]` cut short, and only whitespace was cut on either side. */
  ghost predicate TrimmedAt(s: string, t: string, k: int) {
    && 0 <= k <= |s| - |t|
    && t == s[k..k + |t|]
    && (forall i :: 0 <= i < k ==> IsSpace(s[i]))
    && (forall i :: k + |t| <= i < |s| ==> IsSpace(s[i]))
  }

  /** `strip()`: what is left once whitespace is removed at both ends. */
  function Strip(s: string): (t: string)
    ensures exists k :: TrimmedAt(s, t, k)
    ensures t == [] || (!IsSpace(t[0]) && !IsSpace(t[|t| - 1]))
  {
    var l := StripLeft(s);
    var t := StripRight(l);
    var k := |s| - |l|;
    assert TrimmedAt(s, t, k) by {
      assert l == s[k..] && t == l[..|t|];
      assert t == s[k..k + |t|];
      forall i | k + |t| <= i < |s|
        ensures IsSpace(s[i])
      {
        assert s[i] == l[i - k];
      }
    }
    assert t != [] ==> t[0] == l[0];
    t
  }

  /** A digit string with optional single underscores between digits. */
  predicate DigitGroups(t: string) {
    && t != []
    && IsDigit(t[0])
    && IsDigit(t[|t| - 1])
    && (forall i :: 0 <= i < |t| ==> IsDigit(t[i]) || t[i] == '_')
    && (forall j :: 0 < j < |t| && t[j - 1] == '_' ==> IsDigit(t[j]))
  }

  predicate AllDigits(d: string) {
    forall i :: 0 <= i < |d| ==> IsDigit(d[i])
  }

  /** The text with every underscore taken out, the rest kept in order. */
  function DropUnderscores(t: string): (d: string)
    ensures |d| <= |t|
    ensures forall i :: 0 <= i < |d| ==> d[i] != '_'
    ensures (forall i :: 0 <= i < |t| ==> IsDigit(t[i]) || t[i] == '_') ==> AllDigits(d)
  {
    if t == [] then []
    else if t[|t| - 1] == '_' then DropUnderscores(t[..|t| - 1])
    else DropUnderscores(t[..|t| - 1]) + [t[|t| - 1]]
  }

  /** The value of a string of decimal digits, most significant first. */
  function DigitsValue(d: string): nat
    requires AllDigits(d)
  {
    if d == [] then 0
    else 10 * DigitsValue(d[..|d| - 1]) + (d[|d| - 1] as int - '0' as int)
  }

  function ParseUnsigned(t: string): Option<int> {
    if DigitGroups(t) then Some(DigitsValue(DropUnderscores(t))) else None
  }

  /** `int(s)`; `None` where Python raises ValueError: a parse succeeds
      exactly on text whose stripped form is digit groups, with an optional
      sign in front. */
  function ParseInt(s: string): (r: Option<int>)
    ensures r.Some? <==>
      (var t := Strip(s);
       DigitGroups(t) || (t != [] && (t[0] == '+' || t[0] == '-') && DigitGroups(t[1..])))
  {
    var t := Strip(s);
    if t != [] && (t[0] == '+' || t[0] == '-') then
      match ParseUnsigned(t[1..])
      case None => None
      case Some(v) => Some(if t[0] == '-' then -v else v)
    else
      ParseUnsigned(t)
  }

  function Digit(d: nat): char
    requires d < 10
  {
    ('0' as int + d) as char
  }

  /** `str(n)` for a non-negative integer: its decimal digits. */
  function Digits(n: nat): (d: string)
    ensures d != [] && AllDigits(d)
  {
    if n < 10 then [Digit(n)]
    else Digits(n / 10) + [Digit(n % 10)]
  }

  /** `str(n)`: a minus sign exactly for negative numbers, then digits. */
  function Decimal(n: int): (r: string)
    ensures r != [] && (r[0] == '-' <==> n < 0)
    ensures n < 0 ==> AllDigits(r[1..]) && r[1..] != []
    ensures n >= 0 ==> AllDigits(r)
  {
    if n < 0 then "-" + Digits(-n) else Digits(n)
  }

  lemma {:induction false} DigitsValueOfDigits(n: nat)
    ensures DigitsValue(Digits(n)) == n
  {
    if n >= 10 {
      var d := Digits(n);
      assert d[..|d| - 1] == Digits(n / 10);
      DigitsValueOfDigits(n / 10);
    }
  }

  lemma {:induction false} DropUnderscoresOfDigits(d: string)
    requires AllDigits(d)
    ensures DropUnderscores(d) == d
  {
    if d != [] {
      DropUnderscoresOfDigits(d[..|d| - 1]);
    }
  }

  lemma StripOfUnpadded(s: string)
    requires s != [] && !IsSpace(s[0]) && !IsSpace(s[|s| - 1])
    ensures Strip(s) == s
  {
  }

  lemma ParseDigits(n: nat)
    ensures ParseUnsigned(Digits(n)) == Some(n)
  {
    var d := Digits(n);
    DigitsValueOfDigits(n);
    DropUnderscoresOfDigits(d);
    assert DigitGroups(d);
  }

  lemma ParseOfUnpadded(s: string)
    requires s != [] && !IsSpace(s[0]) && !IsSpace(s[|s| - 1])
    ensures ParseInt(s) ==
      if s[0] == '+' || s[0] == '-' then
        match ParseUnsigned(s[1..])
        case None => None
        case Some(v) => Some(if s[0] == '-' then -v else v)
      else ParseUnsigned(s)
  {
    StripOfUnpadded(s);
  }

  lemma ParseNonNegative(n: int)
    requires n >= 0
    ensures ParseInt(Decimal(n)) == Some(n)
  {
    var d := Digits(n);
    assert Decimal(n) == d;
    ParseDigits(n);
    assert IsDigit(d[0]) && IsDigit(d[|d| - 1]);
    ParseOfUnpadded(d);
  }

  /** A minus sign in front of an unsigned number negates it. */
  lemma ParseMinus(d: string, v: nat)
    requires d != [] && IsDigit(d[|d| - 1]) && ParseUnsigned(d) == Some(v)
    ensures ParseInt("-" + d) == Some(-(v as int))
  {
    var s := "-" + d;
    assert s[1..] == d && s[|s| - 1] == d[|d| - 1];
    ParseOfUnpadded(s);
  }

  lemma ParseMinusDigits(m: nat)
    ensures ParseInt("-" + Digits(m)) == Some(-(m as int))
  {
    ParseDigits(m);
    ParseMinus(Digits(m), m);
  }

  lemma ParseNegative(n: int)
    requires n < 0
    ensures ParseInt(Decimal(n)) == Some(n)
  {
    var m: nat := -n;
    assert Decimal(n) == "-" + Digits(m);
    assert ParseInt("-" + Digits(m)) == Some(n) by {
      ParseMinusDigits(m);
    }
  }

  /** `int(str(n)) == n` for every integer. */
  lemma ParseDecimal(n: int)
    ensures ParseInt(Decimal(n)) == Some(n)
  {
    if n < 0 {
      ParseNegative(n);
    } else {
      ParseNonNegative(n);
    }
  }

  /** Removing underscores works piece by piece. */
  lemma {:induction false} DropUnderscoresConcat(a: string, b: string)
    ensures DropUnderscores(a + b) == DropUnderscores(a) + DropUnderscores(b)
    decreases |b|
  {
    if b == [] {
      assert a + b == a;
    } else {
      var ab, front, c := a + b, b[..|b| - 1], b[|b| - 1];
      var kept: string := if c == '_' then [] else [c];
      assert ab[..|ab| - 1] == a + front && ab[|ab| - 1] == c;
      assert DropUnderscores(ab) == DropUnderscores(a + front) + kept;
      assert DropUnderscores(b) == DropUnderscores(front) + kept;
      DropUnderscoresConcat(a, front);
      assert DropUnderscores(a) + DropUnderscores(front) + kept == DropUnderscores(a) + (DropUnderscores(front) + kept);
    }
  }

  lemma DropUnderscoresChar(c: char)
    ensures DropUnderscores([c]) == if c == '_' then [] else [c]
  {
    assert [c][..0] == [];
  }

  /** Two digit runs joined by one underscore form digit groups. */
  lemma GroupedIsDigitGroups(a: string, b: string)
    requires a != [] && b != [] && AllDigits(a) && AllDigits(b)
    ensures DigitGroups(a + "_" + b)
  {
    var t := a + "_" + b;
    assert t[|a|] == '_';
    assert forall i :: 0 <= i < |a| ==> t[i] == a[i];
    assert forall i :: |a| < i < |t| ==> t[i] == b[i - |a| - 1];
  }

  /** Two digit runs joined directly are digits. */
  lemma JoinedDigits(a: string, b: string)
    requires AllDigits(a) && AllDigits(b)
    ensures AllDigits(a + b)
  {
    var u := a + b;
    assert forall i :: 0 <= i < |a| ==> u[i] == a[i];
    assert forall i :: |a| <= i < |u| ==> u[i] == b[i - |a|];
  }

  /** Dropping the underscore between two digit runs joins them. */
  lemma DropGroupUnderscore(a: string, b: string)
    requires AllDigits(a) && AllDigits(b)
    ensures DropUnderscores(a + "_" + b) == a + b
  {
    DropUnderscoresConcat(a + "_", b);
    DropUnderscoresConcat(a, "_");
    DropUnderscoresChar('_');
    DropUnderscoresOfDigits(a);
    DropUnderscoresOfDigits(b);
  }

  /** An underscore between two digit runs changes nothing: "1_000" and
      "1000" parse to the same value. */
  lemma ParseGrouped(a: string, b: string)
    requires a != [] && b != [] && AllDigits(a) && AllDigits(b)
    ensures ParseUnsigned(a + "_" + b) == ParseUnsigned(a + b)
    ensures ParseUnsigned(a + "_" + b).Some?
  {
    GroupedIsDigitGroups(a, b);
    DropGroupUnderscore(a, b);
    JoinedDigits(a, b);
    DropUnderscoresOfDigits(a + b);
    var u := a + b;
    assert u[0] == a[0] && u[|u| - 1] == b[|b| - 1];
    assert DigitGroups(u);
  }

  /** Leading whitespace is dropped one character at a time. */
  lemma StripLeftSpace(c: char, rest: string)
    requires IsSpace(c)
    ensures StripLeft([c] + rest) == StripLeft(rest)
  {
    assert ([c] + rest)[1..] == rest;
  }

  /** One whitespace character before unpadded text is all `lstrip` removes. */
  lemma StripLeftOneSpace(c: char, rest: string)
    requires IsSpace(c) && rest != [] && !IsSpace(rest[0])
    ensures StripLeft([c] + rest) == rest
  {
    assert ([c] + rest)[1..] == rest;
  }

  lemma StripLeftThousand()
    ensures StripLeft(" 1_000\n") == "1_000\n"
  {
    var rest := "1_000\n";
    StripLeftOneSpace(' ', rest);
    assert [' '] + rest == " 1_000\n";
  }

  lemma StripRightThousand()
    ensures StripRight("1_000\n") == "1_000"
  {
    assert "1_000\n"[..5] == "1_000";
  }

  lemma DigitsThousand()
    ensures Digits(1000) == "1000"
  {
    assert Digits(1) == "1";
    assert Digits(10) == "10";
    assert Digits(100) == "100";
  }

  lemma ParseUnsignedThousand()
    ensures ParseUnsigned("1_000") == Some(1000)
  {
    assert ParseUnsigned("1" + "_" + "000") == ParseUnsigned("1" + "000") by {
      ParseGrouped("1", "000");
    }
    assert "1" + "_" + "000" == "1_000";
    assert "1" + "000" == "1000";
    assert ParseUnsigned("1000") == Some(1000) by {
      DigitsThousand();
      ParseDigits(1000);
    }
  }

  /** `int(" 1_000\n")` is 1000. */
  lemma ParseGroupedThousand()
    ensures ParseInt(" 1_000\n") == Some(1000)
  {
    assert Strip(" 1_000\n") == "1_000" by {
      StripLeftThousand();
      StripRightThousand();
    }
    ParseUnsignedThousand();
  }

  /** A four-digit number written out reads back as itself. */
  lemma ParseYear(s: string, n: nat)
    requires 1000 <= n < 10000
    requires s == [Digit(n / 1000), Digit(n / 100 % 10), Digit(n / 10 % 10), Digit(n % 10)]
    ensures ParseInt(s) == Some(n)
  {
    assert Digits(n / 1000) == [Digit(n / 1000)];
    assert Digits(n / 100) == [Digit(n / 1000), Digit(n / 100 % 10)];
    assert Digits(n / 10) == [Digit(n / 1000), Digit(n / 100 % 10), Digit(n / 10 % 10)];
    assert Digits(n) == s;
    ParseDecimal(n);
  }
}
