/**
 * Character classes of Python's `re` module and the string conversions the
 * service relies on (`str(int)`, `int(str)`, identifiers, `in` on strings).
 * Only ASCII is modelled: `\w`, `\d` and `\s` are their ASCII members.
 */
module Text {
  import opened Wrappers

  predicate IsDigit(c: char) { '0' <= c <= '9' }

  predicate IsLetter(c: char) { 'a' <= c <= 'z' || 'A' <= c <= 'Z' }

  /** `\w` */
  predicate IsWord(c: char) { IsLetter(c) || IsDigit(c) || c == '_' }

  /** `\s`, and what `str.strip()` removes: the ASCII characters for which `str.isspace()` holds. */
  predicate IsSpace(c: char)
  {
    c == ' ' || c == '\t' || c == '\n' || c == '\r' || c == '\U{0B}' || c == '\U{0C}'
    || c == '\U{1C}' || c == '\U{1D}' || c == '\U{1E}' || c == '\U{1F}'
  }

  predicate AllDigits(s: string) { forall i | 0 <= i < |s| :: IsDigit(s[i]) }

  function DigitChar(d: nat): (c: char)
    requires d < 10
    ensures IsDigit(c)
  {
    if d == 0 then '0' else if d == 1 then '1' else if d == 2 then '2' else if d == 3 then '3'
    else if d == 4 then '4' else if d == 5 then '5' else if d == 6 then '6' else if d == 7 then '7'
    else if d == 8 then '8' else '9'
  }

  function DigitValue(c: char): (d: nat)
    requires IsDigit(c)
    ensures d < 10 && DigitChar(d) == c
    ensures forall e: nat | e < 10 && DigitChar(e) == c :: e == d
  {
    (c as int - '0' as int) as nat
  }

  /** The decimal digits of a natural number, without leading zeros. */
  function NatText(n: nat): (t: string)
    ensures |t| >= 1 && AllDigits(t)
    ensures t[0] == '0' ==> n == 0
  {
    (if n < 10 then "" else NatText(n / 10)) + [DigitChar(n % 10)]
  }

  /** `str(n)` for an `int` */
  function DecimalText(n: int): (t: string)
    ensures |t| >= 1
    ensures n >= 0 ==> AllDigits(t)
    ensures n < 0 ==> t[0] == '-' && AllDigits(t[1..])
  {
    if n < 0 then "-" + NatText(-n) else NatText(n)
  }

  /** Where the greedy `\d+` that starts at `k` stops. */
  function RunEnd(t: string, k: nat): (e: nat)
    requires k <= |t|
    ensures k <= e <= |t| && (e == |t| || !IsDigit(t[e]))
    ensures forall j | k <= j < e :: IsDigit(t[j])
    decreases |t| - k
  {
    if k < |t| && IsDigit(t[k]) then RunEnd(t, k + 1) else k
  }

  /** The value of a run of digits in which single underscores may separate digits. */
  function DigitsValue(s: string): nat
  {
    if s == [] then 0
    else if IsDigit(s[|s| - 1]) then DigitsValue(s[..|s| - 1]) * 10 + DigitValue(s[|s| - 1])
    else DigitsValue(s[..|s| - 1])
  }

  /** The digit part accepted by `int(str)`: digits, with single `_` only between two digits. */
  predicate DigitGroups(s: string)
  {
    && |s| >= 1 && IsDigit(s[0]) && IsDigit(s[|s| - 1])
    && (forall i | 0 <= i < |s| :: IsDigit(s[i]) || s[i] == '_')
    && (forall i | 0 <= i < |s| - 1 :: s[i] == '_' ==> IsDigit(s[i + 1]))
  }

  /** `str.strip()` */
  function Strip(s: string): (t: string)
    ensures |t| <= |s|
    ensures t != "" ==> !IsSpace(t[0]) && !IsSpace(t[|t| - 1])
    decreases |s|
  {
    if s != [] && IsSpace(s[0]) then Strip(s[1..])
    else if s != [] && IsSpace(s[|s| - 1]) then Strip(s[..|s| - 1])
    else s
  }

  /** `int(s)` for a string `s`; `None` where Python raises `ValueError`. */
  function IntOfText(s: string): Option<int>
  {
    SignedValue(Strip(s))
  }

  /** An optional sign followed by digit groups. */
  function SignedValue(t: string): Option<int>
  {
    if t == "" then None
    else
      var body := if t[0] == '-' || t[0] == '+' then t[1..] else t;
      if !DigitGroups(body) then None
      else if t[0] == '-' then Some(-(DigitsValue(body) as int))
      else Some(DigitsValue(body))
  }

  lemma {:induction false} NatTextValue(n: nat)
    ensures DigitsValue(NatText(n)) == n
  {
    var t := NatText(n);
    var p := if n < 10 then "" else NatText(n / 10);
    assert t == p + [DigitChar(n % 10)];
    assert t[..|t| - 1] == p;
    assert DigitValue(t[|t| - 1]) == n % 10;
    if n >= 10 {
      NatTextValue(n / 10);
    }
  }

  lemma StripNoSpace(s: string)
    requires forall i | 0 <= i < |s| :: !IsSpace(s[i])
    ensures Strip(s) == s
  {
  }

  lemma PlainDigitsValue(body: string)
    requires |body| >= 1 && AllDigits(body)
    ensures SignedValue(body) == Some(DigitsValue(body) as int)
    ensures SignedValue("-" + body) == Some(-(DigitsValue(body) as int))
  {
    DigitsAreGroups(body);
    NegatedDigitsValue(body);
  }

  lemma DigitsAreGroups(body: string)
    requires |body| >= 1 && AllDigits(body)
    ensures DigitGroups(body)
  {
  }

  lemma NegatedDigitsValue(body: string)
    requires DigitGroups(body)
    ensures SignedValue("-" + body) == Some(-(DigitsValue(body) as int))
  {
    var signed := "-" + body;
    assert signed[0] == '-' && signed[1..] == body;
  }

  lemma DecimalTextStrip(n: int)
    ensures Strip(DecimalText(n)) == DecimalText(n)
  {
    var t := DecimalText(n);
    forall i | 0 <= i < |t| ensures !IsSpace(t[i]) {
      if n < 0 && i > 0 {
        assert t[i] == t[1..][i - 1];
      }
    }
    StripNoSpace(t);
  }

  /** `int(str(n)) == n`: the decimal text reads back as the same integer. */
  lemma DecimalTextRoundTrip(n: int)
    ensures IntOfText(DecimalText(n)) == Some(n)
  {
    var m: nat := if n < 0 then -n else n;
    NatTextValue(m);
    PlainDigitsValue(NatText(m));
    DecimalTextStrip(n);
  }

  /** Python's reserved words. */
  predicate IsKeyword(k: string)
  {
    k == "False"
    || k == "None"
    || k == "True"
    || k == "and"
    || k == "as"
    || k == "assert"
    || k == "async"
    || k == "await"
    || k == "break"
    || k == "class"
    || k == "continue"
    || k == "def"
    || k == "del"
    || k == "elif"
    || k == "else"
    || k == "except"
    || k == "finally"
    || k == "for"
    || k == "from"
    || k == "global"
    || k == "if"
    || k == "import"
    || k == "in"
    || k == "is"
    || k == "lambda"
    || k == "nonlocal"
    || k == "not"
    || k == "or"
    || k == "pass"
    || k == "raise"
    || k == "return"
    || k == "try"
    || k == "while"
    || k == "with"
    || k == "yield"
  }

  /** A name that may follow `.` in a Python assignment target. */
  predicate IsIdentifier(k: string)
  {
    && |k| >= 1 && (IsLetter(k[0]) || k[0] == '_')
    && (forall i | 0 <= i < |k| :: IsWord(k[i]))
    && !IsKeyword(k)
  }

  /** `t in s` for strings */
  predicate Contains(s: string, t: string)
  {
    exists i | 0 <= i <= |s| - |t| :: OccursAt(s, t, i)
  }

  predicate OccursAt(s: string, t: string, i: int)
  {
    0 <= i <= |s| - |t| && s[i..i + |t|] == t
  }

  function Pow10(k: nat): (p: nat)
    ensures p >= 1
  {
    if k == 0 then 1 else 10 * Pow10(k - 1)
  }

  /** A number whose leading digit is `d` followed by `k` more digits prints as `k + 1` characters starting with `d`. */
  lemma {:induction false} NatTextLeading(n: nat, k: nat, d: nat)
    requires 1 <= d <= 9 && d * Pow10(k) <= n < (d + 1) * Pow10(k)
    ensures |NatText(n)| == k + 1 && NatText(n)[0] == DigitChar(d)
  {
    if k == 0 {
      assert n == d;
    } else {
      var p := Pow10(k - 1);
      ScaleTen(d, k);
      ScaleTen(d + 1, k);
      DivTenBetween(n, d * p, (d + 1) * p);
      NatTextLeading(n / 10, k - 1, d);
      assert NatText(n) == NatText(n / 10) + [DigitChar(n % 10)];
    }
  }

  lemma ScaleTen(d: nat, k: nat)
    requires k >= 1
    ensures d * Pow10(k) == 10 * (d * Pow10(k - 1))
  {
  }

  lemma DivTenBetween(n: nat, x: nat, y: nat)
    requires 10 * x <= n < 10 * y
    ensures x <= n / 10 < y
  {
  }

  /** A number below `10^k` prints in at most `k` characters. */
  lemma {:induction false} NatTextShort(n: nat, k: nat)
    requires 1 <= k && n < Pow10(k)
    ensures |NatText(n)| <= k
  {
    if n >= 10 {
      assert k >= 2;
      NatTextShort(n / 10, k - 1);
    }
  }
}
