/** Decimal text of integers: the rendering Python's f-strings give a row
    index, and the `int()` conversion the reconciler applies to an ordinal
    placeholder, restricted to an optional sign followed by ASCII digits. */
module Decimal {
  import opened Basics

  predicate IsDigit(c: char)
  {
    '0' <= c <= '9'
  }

  predicate AllDigits(s: string)
  {
    forall i | 0 <= i < |s| :: IsDigit(s[i])
  }

  function DigitChar(d: nat): (c: char)
    requires d < 10
    ensures IsDigit(c)
  {
    ('0' as int + d) as char
  }

  function DigitValue(c: char): (d: nat)
    requires IsDigit(c)
    ensures d < 10
    ensures DigitChar(d) == c
  {
    c as int - '0' as int
  }

  function Pow10(k: nat): (r: nat)
    ensures r >= 1
  {
    if k == 0 then 1 else 10 * Pow10(k - 1)
  }

  /** Value of a digit string read most-significant first; the empty string
      is worth 0. This is the reference reading of a decimal numeral. */
  function DigitsValue(s: string): nat
    requires AllDigits(s)
    decreases |s|
  {
    if |s| == 0 then 0 else DigitsValue(s[..|s| - 1]) * 10 + DigitValue(s[|s| - 1])
  }

  /** `str(n)` for a non-negative integer: no sign, no leading zeros. */
  function NatToString(n: nat): (s: string)
    ensures |s| >= 1 && AllDigits(s)
    ensures |s| > 1 ==> s[0] != '0'
    decreases n
  {
    if n < 10 then [DigitChar(n)] else NatToString(n / 10) + [DigitChar(n % 10)]
  }

  /** Reading the rendering back gives the number. */
  lemma {:induction false} NatToStringValue(n: nat)
    ensures DigitsValue(NatToString(n)) == n
    decreases n
  {
    var s := NatToString(n);
    if n >= 10 {
      NatToStringValue(n / 10);
      assert s[..|s| - 1] == NatToString(n / 10);
    }
  }

  /** Distinct numbers render to distinct strings. */
  lemma NatToStringInjective(a: nat, b: nat)
    requires NatToString(a) == NatToString(b)
    ensures a == b
  {
    NatToStringValue(a);
    NatToStringValue(b);
  }

  /** Left-to-right (Horner) scan of a digit string, starting from `acc`;
      fails on the first non-digit. */
  function ScanDigits(s: string, acc: nat): (r: Option<nat>)
    ensures r.Some? <==> AllDigits(s)
    ensures r.Some? ==> r.value == acc * Pow10(|s|) + DigitsValue(s)
    decreases |s|
  {
    if |s| == 0 then Some(acc)
    else if !IsDigit(s[0]) then None
    else
      var r := ScanDigits(s[1..], acc * 10 + DigitValue(s[0]));
      ScanStep(s, acc, r);
      r
  }

  lemma AllDigitsCons(s: string)
    requires |s| > 0
    ensures AllDigits(s) <==> IsDigit(s[0]) && AllDigits(s[1..])
  {
    if IsDigit(s[0]) && AllDigits(s[1..]) {
      forall i | 0 <= i < |s| ensures IsDigit(s[i]) {
        if i > 0 { assert s[i] == s[1..][i - 1]; }
      }
    }
    if AllDigits(s) {
      forall i | 0 <= i < |s[1..]| ensures IsDigit(s[1..][i]) { assert s[1..][i] == s[i + 1]; }
    }
  }

  /** One Horner step preserves the scan's contract. */
  lemma ScanStep(s: string, acc: nat, r: Option<nat>)
    requires |s| > 0 && IsDigit(s[0])
    requires r.Some? <==> AllDigits(s[1..])
    requires r.Some? ==> r.value == (acc * 10 + DigitValue(s[0])) * Pow10(|s| - 1) + DigitsValue(s[1..])
    ensures r.Some? <==> AllDigits(s)
    ensures r.Some? ==> r.value == acc * Pow10(|s|) + DigitsValue(s)
  {
    AllDigitsCons(s);
    if r.Some? {
      DigitsValueFront(s);
      Horner(acc, DigitValue(s[0]), Pow10(|s| - 1), DigitsValue(s[1..]));
    }
  }

  lemma Horner(acc: int, d: int, p: int, rest: int)
    ensures (acc * 10 + d) * p + rest == acc * (10 * p) + (d * p + rest)
  {
  }

  /** Splitting off the most significant digit. */
  lemma {:induction false} DigitsValueFront(s: string)
    requires |s| >= 1 && AllDigits(s)
    ensures AllDigits(s[1..])
    ensures DigitsValue(s) == DigitValue(s[0]) * Pow10(|s| - 1) + DigitsValue(s[1..])
    decreases |s|
  {
    assert AllDigits(s[1..]) by {
      forall i | 0 <= i < |s[1..]| ensures IsDigit(s[1..][i]) { assert s[1..][i] == s[i + 1]; }
    }
    if |s| > 1 {
      var init := s[..|s| - 1];
      assert AllDigits(init) by {
        forall i | 0 <= i < |init| ensures IsDigit(init[i]) { assert init[i] == s[i]; }
      }
      DigitsValueFront(init);
      assert init[1..] == s[1..][..|s[1..]| - 1];
      assert init[0] == s[0];
      assert s[1..][|s[1..]| - 1] == s[|s| - 1];
      var a, p, b, c := DigitValue(s[0]), Pow10(|s| - 2), DigitsValue(init[1..]), DigitValue(s[|s| - 1]);
      assert DigitsValue(s) == DigitsValue(init) * 10 + c;
      assert DigitsValue(s[1..]) == b * 10 + c;
      assert Pow10(|s| - 1) == 10 * p;
      ShiftDigit(a, p, b, c);
    }
  }

  lemma ShiftDigit(a: int, p: int, b: int, c: int)
    ensures (a * p + b) * 10 + c == a * (10 * p) + (b * 10 + c)
  {
  }

  /** The syntax `ParseInt` accepts: an optional `+` or `-` followed by one
      or more ASCII digits, nothing else. */
  predicate IsIntLiteral(s: string)
  {
    || (|s| >= 1 && AllDigits(s))
    || (|s| >= 2 && (s[0] == '+' || s[0] == '-') && AllDigits(s[1..]))
  }

  /** The integer a literal denotes. */
  function LiteralValue(s: string): int
    requires IsIntLiteral(s)
  {
    if AllDigits(s) then DigitsValue(s)
    else if s[0] == '-' then -(DigitsValue(s[1..]) as int)
    else DigitsValue(s[1..])
  }

  /** Python's `int(text)` on an ordinal placeholder: `None` stands for the
      `ValueError` it raises. */
  function ParseInt(s: string): (r: Option<int>)
    ensures r.Some? <==> IsIntLiteral(s)
    ensures r.Some? ==> r.value == LiteralValue(s)
  {
    if |s| == 0 then None
    else if s[0] == '+' || s[0] == '-' then
      if |s| == 1 then None
      else
        match ScanDigits(s[1..], 0)
        case None => None
        case Some(v) => Some(if s[0] == '-' then -(v as int) else v as int)
    else
      match ScanDigits(s, 0)
      case None => None
      case Some(v) => Some(v)
  }

  /** Parsing the rendering of a number gives it back, signed or not. */
  lemma ParseRendered(n: nat)
    ensures ParseInt(NatToString(n)) == Some(n)
    ensures ParseInt("-" + NatToString(n)) == Some(-(n as int))
    ensures ParseInt("+" + NatToString(n)) == Some(n)
  {
    NatToStringValue(n);
    var s := NatToString(n);
    assert ("-" + s)[1..] == s;
    assert ("+" + s)[1..] == s;
    assert !IsDigit(("-" + s)[0]);
    assert !IsDigit(("+" + s)[0]);
  }
}
