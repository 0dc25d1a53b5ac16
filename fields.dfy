/**
 * The field descriptors of the scoring API (`TypedProperty` and its
 * subclasses): what each one's `__set__` accepts, and what it stores.
 */
module Fields {
  import opened Wrappers
  import opened Json
  import opened Text
  import opened Dates

  datatype Kind = CharKind | IntegerKind | ArgumentsKind | EmailKind | PhoneKind
                | DateKind | BirthDayKind | GenderKind | ClientIdsKind

  /** A descriptor instance: its class and the `required` / `nullable` flags it was built with. */
  datatype Field = Field(kind: Kind, required: bool, nullable: bool)

  /**
   * The outcome of `__set__`: it raised, it stored the value (a date field
   * stores the parsed `datetime`), or it returned without storing anything
   * (the `client_ids` wrapper never calls the setter it wraps).
   */
  datatype Assigned = Rejected | Stored(value: JValue) | StoredDate(date: Date) | NotStored

  /** `isinstance(value, self.type)` for the fields that use the generic setter. */
  predicate HasDeclaredType(kind: Kind, v: JValue)
  {
    match kind
    case IntegerKind => IsPyInt(v)
    case ArgumentsKind => v.JObj?
    case _ => v.JStr?
  }

  /** `TypedProperty.__set__` decorated with `validate`: used by `CharField`, `IntegerField`, `ArgumentsField`. */
  function GenericSet(f: Field, v: JValue): (r: Assigned)
    ensures r != Rejected ==> r == Stored(v)
    ensures f.required && v == JNull ==> r == Rejected
    ensures !f.nullable && !Truthy(v) && v != JNull ==> r == Rejected
    ensures !HasDeclaredType(f.kind, v) ==> r == Rejected
    ensures r == Rejected <==> (f.required && v == JNull) || (!f.nullable && !Truthy(v) && v != JNull)
                               || !HasDeclaredType(f.kind, v)
  {
    NullableListIsFalsyNotNone(v);
    if f.required && v == JNull then Rejected
    else if !f.nullable && InNullableList(v) then Rejected
    else if !HasDeclaredType(f.kind, v) then Rejected
    else Stored(v)
  }

  // ---------------------------------------------------------------- email

  /** The characters `s[i..j]` are all `\w`. */
  predicate WordRun(s: string, i: int, j: int)
  {
    forall k | i <= k < j && 0 <= k < |s| :: IsWord(s[k])
  }

  /**
   * With `@` at `p`, the part of `\w+@\w+.\w+` after it: word characters up to
   * `q`, any character but a newline at `q`, and a word character after it.
   */
  predicate DotTail(s: string, p: int, q: int)
  {
    0 <= p && p + 1 < q && q + 1 < |s| && WordRun(s, p + 1, q) && s[q] != '\n' && IsWord(s[q + 1])
  }

  /** `\w+@\w+.\w+` matches with its `@` at `p` and its `.` at `q`. */
  predicate FormatMatchAt(s: string, p: int, q: int)
  {
    1 <= p < |s| && s[p] == '@' && IsWord(s[p - 1]) && DotTail(s, p, q)
  }

  /** `@\w+@` matches from `p` to `q`. */
  predicate DoubleAtAt(s: string, p: int, q: int)
  {
    0 <= p && p + 1 < q < |s| && s[p] == '@' && s[q] == '@' && WordRun(s, p + 1, q)
  }

  /** The engine's search for the part after `@`, trying each position `q` for the `.`. */
  function DotScan(s: string, p: nat, q: nat): (r: bool)
    requires p + 1 <= q && WordRun(s, p + 1, q)
    ensures r <==> exists q' | q <= q' :: DotTail(s, p, q')
    decreases |s| - q
  {
    if q + 1 >= |s| then false
    else if q > p + 1 && s[q] != '\n' && IsWord(s[q + 1]) then
      assert DotTail(s, p, q);
      true
    else if IsWord(s[q]) then
      var r := DotScan(s, p, q + 1);
      assert r ==> exists q' | q <= q' :: DotTail(s, p, q');
      assert (exists q' | q <= q' :: DotTail(s, p, q')) ==> r by {
        if exists q' | q <= q' :: DotTail(s, p, q') {
          var q' :| q <= q' && DotTail(s, p, q');
          assert q' != q;
        }
      }
      r
    else
      assert forall q' | q < q' :: !DotTail(s, p, q') by {
        forall q' | q < q' ensures !DotTail(s, p, q') {
          if p + 1 < q' && q' < |s| { assert !IsWord(s[q]); }
        }
      }
      false
  }

  /** `re.findall(r'\w+@\w+.\w+', s)` is non-empty: some start position from `p` on matches. */
  function FormatScan(s: string, p: nat): (r: bool)
    ensures r <==> exists p', q | p <= p' :: FormatMatchAt(s, p', q)
    decreases |s| - p
  {
    if p >= |s| then false
    else if 1 <= p && s[p] == '@' && IsWord(s[p - 1]) && DotScan(s, p, p + 1) then
      var q :| p + 1 <= q && DotTail(s, p, q);
      assert FormatMatchAt(s, p, q);
      true
    else
      var r := FormatScan(s, p + 1);
      assert forall q :: !FormatMatchAt(s, p, q) by {
        if 1 <= p && s[p] == '@' && IsWord(s[p - 1]) {
          assert !DotScan(s, p, p + 1);
        }
      }
      r
  }

  /** The search for the closing `@` of `@\w+@` opened at `p`. */
  function AtScan(s: string, p: nat, q: nat): (r: bool)
    requires p + 1 <= q && WordRun(s, p + 1, q)
    ensures r <==> exists q' | q <= q' :: p + 1 < q' < |s| && s[q'] == '@' && WordRun(s, p + 1, q')
    decreases |s| - q
  {
    if q >= |s| then false
    else if q > p + 1 && s[q] == '@' then true
    else if IsWord(s[q]) then
      AtScan(s, p, q + 1)
    else
      var a := p + 1;
      assert forall q' | q < q' :: !WordRun(s, a, q');
      false
  }

  /** `re.findall(r'@\w+@', s)` is non-empty. */
  function DoubleAtScan(s: string, p: nat): (r: bool)
    ensures r <==> exists p', q | p <= p' :: DoubleAtAt(s, p', q)
    decreases |s| - p
  {
    if p >= |s| then false
    else if s[p] == '@' && AtScan(s, p, p + 1) then
      var q :| p + 1 <= q && p + 1 < q < |s| && s[q] == '@' && WordRun(s, p + 1, q);
      assert DoubleAtAt(s, p, q);
      true
    else
      var r := DoubleAtScan(s, p + 1);
      assert forall q :: !DoubleAtAt(s, p, q) by {
        if s[p] == '@' {
          assert !AtScan(s, p, p + 1);
        }
      }
      r
  }

  /** `EmailField.__set__`: a string with a `\w+@\w+.\w+` match and no `@\w+@` match. */
  function EmailSet(v: JValue): (r: Assigned)
    ensures r != Rejected <==> (v.JStr?
      && (exists p, q :: FormatMatchAt(v.s, p, q))
      && !(exists p, q :: DoubleAtAt(v.s, p, q)))
    ensures r != Rejected ==> r == Stored(v)
  {
    if !v.JStr? then Rejected
    else if FormatScan(v.s, 0) && !DoubleAtScan(v.s, 0) then Stored(v)
    else Rejected
  }

  // ---------------------------------------------------------------- phone

  /** `int(f)` for a float: truncation toward zero. */
  function Truncate(r: real): (n: int)
    ensures r >= 0.0 ==> n as real <= r < n as real + 1.0
    ensures r < 0.0 ==> n as real - 1.0 < r <= n as real
  {
    if r >= 0.0 then r.Floor else -((-r).Floor)
  }

  /** `int(value)`; `None` where Python raises. */
  function IntOf(v: JValue): (r: Option<int>)
    ensures v.JInt? ==> r == Some(v.i)
    ensures v.JBool? ==> r == Some(if v.b then 1 else 0)
    ensures v.JFloat? && v.r >= 0.0 ==> r.Some? && 0 <= r.value && r.value as real <= v.r < r.value as real + 1.0
    ensures v.JFloat? && v.r < 0.0 ==> r.Some? && r.value <= 0 && r.value as real - 1.0 < v.r <= r.value as real
    ensures v.JNull? || v.JList? || v.JObj? ==> r.None?
  {
    match v
    case JInt(i) => Some(i)
    case JBool(b) => Some(if b then 1 else 0)
    case JFloat(r) => Some(Truncate(r))
    case JStr(s) => IntOfText(s)
    case _ => None
  }

  /** A `7\d+` match can start at `i`. */
  predicate SevenStart(t: string, i: int)
  {
    0 <= i && i + 1 < |t| && t[i] == '7' && IsDigit(t[i + 1])
  }

  /** The first start of a `7\d+` match at or after `i`. */
  function FirstSeven(t: string, i: nat): (r: Option<nat>)
    ensures r.Some? ==> i <= r.value && SevenStart(t, r.value)
    ensures r.Some? ==> forall j | i <= j < r.value :: !SevenStart(t, j)
    ensures r.None? ==> forall j | i <= j :: !SevenStart(t, j)
    decreases |t| - i
  {
    if i + 1 >= |t| then None
    else if SevenStart(t, i) then Some(i)
    else FirstSeven(t, i + 1)
  }

  /** `re.findall(r'7\d+', t)` is non-empty and its first element has length 11. */
  predicate SevenRunOfEleven(t: string)
  {
    match FirstSeven(t, 0)
    case None => false
    case Some(i) => RunEnd(t, i + 1) - i == 11
  }

  /** `PhoneField.__set__`: `int(value)` must succeed and its decimal text must pass `SevenRunOfEleven`. */
  function PhoneSet(v: JValue): (r: Assigned)
    ensures r == Rejected || r == Stored(v)
    ensures r != Rejected ==> IntOf(v).Some? && |DecimalText(IntOf(v).value)| >= 11
  {
    match IntOf(v)
    case None => Rejected
    case Some(n) => if SevenRunOfEleven(DecimalText(n)) then Stored(v) else Rejected
  }

  // ---------------------------------------------------------------- the rest

  /** `DateField.__set__`: the parsed `datetime` is stored. */
  function DateSet(v: JValue): (r: Assigned)
    ensures r == Rejected || r.StoredDate?
    ensures r.StoredDate? ==> v.JStr? && ValidDate(r.date) && ParseDayMonthYear(v.s) == Some(r.date)
  {
    if !v.JStr? then Rejected
    else match ParseDayMonthYear(v.s)
      case None => Rejected
      case Some(d) => StoredDate(d)
  }

  /** `BirthDayField.__set__`: a date whose year is between 1920 and the current year minus 18. */
  function BirthDaySet(v: JValue, nowYear: int): (r: Assigned)
    ensures r != Rejected ==> r == DateSet(v) && 1920 <= r.date.year <= nowYear - 18
  {
    if !v.JStr? then Rejected
    else match ParseDayMonthYear(v.s)
      case None => Rejected
      case Some(d) => if d.year < 1920 || d.year > nowYear - 18 then Rejected else StoredDate(d)
  }

  /** The integer a Python `int` (or `bool`) stands for. */
  function PyIntValue(v: JValue): int
    requires IsPyInt(v)
  {
    if v.JInt? then v.i else if v.b then 1 else 0
  }

  /** `GenderField.__set__` */
  function GenderSet(v: JValue): (r: Assigned)
    ensures r != Rejected ==> r == Stored(v) && IsPyInt(v)
  {
    if !IsPyInt(v) || PyIntValue(v) < 0 || PyIntValue(v) > 2 then Rejected else Stored(v)
  }

  /** `ClientIDsField.__set__`: checks a non-empty list of integers and stores nothing. */
  function ClientIdsSet(v: JValue): (r: Assigned)
    ensures r != Rejected ==> r == NotStored && v.JList? && |v.items| >= 1
  {
    if !v.JList? || v.items == [] then Rejected
    else if exists i | 0 <= i < |v.items| :: !IsPyInt(v.items[i]) then Rejected
    else NotStored
  }

  /** The classes that replace `__set__` without the `validate` wrapper. */
  predicate Overrides(kind: Kind)
  {
    kind in {EmailKind, PhoneKind, DateKind, BirthDayKind, GenderKind, ClientIdsKind}
  }

  /**
   * `setattr` through the descriptor: the setter of the field's class. Only
   * the date fields store something other than the value given, and only
   * the `client_ids` field accepts a value without storing it.
   */
  function Assign(f: Field, v: JValue, nowYear: int): (r: Assigned)
    ensures r.Stored? ==> r.value == v
    ensures r.StoredDate? ==> f.kind == DateKind || f.kind == BirthDayKind
    ensures r == NotStored <==> f.kind == ClientIdsKind && r != Rejected
  {
    match f.kind
    case EmailKind => EmailSet(v)
    case PhoneKind => PhoneSet(v)
    case DateKind => DateSet(v)
    case BirthDayKind => BirthDaySet(v, nowYear)
    case GenderKind => GenderSet(v)
    case ClientIdsKind => ClientIdsSet(v)
    case _ => GenericSet(f, v)
  }

  // ---------------------------------------------------------------- properties

  /** The `required` and `nullable` flags only matter to the setters that keep the `validate` wrapper. */
  lemma OverridingSettersIgnoreFlags(f: Field, g: Field, v: JValue, nowYear: int)
    requires f.kind == g.kind && Overrides(f.kind)
    ensures Assign(f, v, nowYear) == Assign(g, v, nowYear)
  {
  }

  /** So `None` reaches the overriding setters, and every one of them refuses it. */
  lemma OverridingSettersRejectNone(f: Field, nowYear: int)
    requires Overrides(f.kind)
    ensures Assign(f, JNull, nowYear) == Rejected
  {
  }

  /** `"a@b.c@d"` passes: the `@\w+@` search needs word characters only between the two `@`. */
  lemma EmailAcceptsSecondAtAfterDot()
    ensures EmailSet(JStr("a@b.c@d")) == Stored(JStr("a@b.c@d"))
  {
    var s := "a@b.c@d";
    assert FormatMatchAt(s, 1, 3);
    forall p, q ensures !DoubleAtAt(s, p, q) {
      if 0 <= p && p + 1 < q < |s| && s[p] == '@' && s[q] == '@' {
        assert p == 1 && q == 5;
        assert !IsWord(s[3]);
      }
    }
  }

  /** `"a@b@c.d"` is refused: `@b@` matches. */
  lemma EmailRejectsDoubleAt()
    ensures EmailSet(JStr("a@b@c.d")) == Rejected
  {
    assert DoubleAtAt("a@b@c.d", 1, 3);
  }

  /** Greedy `\d+` over a string of digits runs to its end. */
  lemma {:induction false} RunEndAllDigits(t: string, k: nat)
    requires k <= |t| && AllDigits(t)
    ensures RunEnd(t, k) == |t|
    decreases |t| - k
  {
    if k < |t| {
      RunEndAllDigits(t, k + 1);
    }
  }

  /** On eleven digits the first `7\d+` match has length 11 exactly when the text starts with 7. */
  lemma ElevenDigitsSevenRun(t: string)
    requires |t| == 11 && AllDigits(t)
    ensures SevenRunOfEleven(t) <==> t[0] == '7'
  {
    RunEndAllDigits(t, 1);
    if t[0] == '7' {
      assert SevenStart(t, 0);
    } else if FirstSeven(t, 0).Some? {
      RunEndAllDigits(t, FirstSeven(t, 0).value + 1);
    }
  }

  lemma MulLe(a: nat, b: nat, p: nat)
    requires a <= b
    ensures a * p <= b * p
  {
  }

  /** The leading digit of a number between `10^k` and `10^(k+1)`. */
  lemma LeadingDigit(n: nat, k: nat) returns (d: nat)
    requires Pow10(k) <= n < 10 * Pow10(k)
    ensures 1 <= d <= 9 && d * Pow10(k) <= n < (d + 1) * Pow10(k)
    ensures d == 7 <==> 7 * Pow10(k) <= n < 8 * Pow10(k)
  {
    var p := Pow10(k);
    d := n / p;
    assert n == d * p + n % p && 0 <= n % p < p;
    assert (d + 1) * p == d * p + p;
    if d > 9 { MulLe(10, d, p); }
    if d < 7 { MulLe(d + 1, 7, p); }
    if d > 7 { MulLe(8, d, p); }
  }

  /** For an eleven-digit number the check is exactly "the first digit is 7". */
  lemma PhoneElevenDigits(n: nat)
    requires Pow10(10) <= n < 10 * Pow10(10)
    ensures PhoneSet(JInt(n)) != Rejected <==> 7 * Pow10(10) <= n < 8 * Pow10(10)
  {
    var d := LeadingDigit(n, 10);
    NatTextLeading(n, 10, d);
    PhoneSevenText(n);
    DigitCharSeven(d);
  }

  lemma PhoneSevenText(n: nat)
    requires |NatText(n)| == 11
    ensures PhoneSet(JInt(n)) != Rejected <==> NatText(n)[0] == '7'
  {
    assert DecimalText(n) == NatText(n);
    ElevenDigitsSevenRun(NatText(n));
  }

  lemma DigitCharSeven(d: nat)
    requires d < 10
    ensures DigitChar(d) == '7' <==> d == 7
  {
  }

  /** A number of fewer than eleven digits has no eleven-character `7\d+` run. */
  lemma PhoneShortRejected(n: nat)
    requires n < Pow10(10)
    ensures PhoneSet(JInt(n)) == Rejected
  {
    NatTextShort(n, 10);
    assert DecimalText(n) == NatText(n);
  }

  /** `int()` of the decimal text gives the number back, so a phone sent as a string is judged like the number. */
  lemma PhoneStringAsNumber(n: int)
    ensures PhoneSet(JStr(DecimalText(n))) == (if PhoneSet(JInt(n)) == Rejected then Rejected else Stored(JStr(DecimalText(n))))
  {
    DecimalTextRoundTrip(n);
  }

  /** The sample numbers: `79175002040` is a phone, `89175002040` and `7917500204` are not. */
  lemma PhoneExamples()
    ensures PhoneSet(JInt(79175002040)) == Stored(JInt(79175002040))
    ensures PhoneSet(JInt(89175002040)) == Rejected
    ensures PhoneSet(JInt(7917500204)) == Rejected
  {
    assert Pow10(10) == 10000000000;
    PhoneElevenDigits(79175002040);
    PhoneElevenDigits(89175002040);
    PhoneShortRejected(7917500204);
  }

  /** Gender takes the integers 0, 1 and 2, and `True` and `False` with them; nothing else. */
  lemma GenderRule(v: JValue)
    ensures GenderSet(v) != Rejected <==> v in {JInt(0), JInt(1), JInt(2), JBool(false), JBool(true)}
    ensures GenderSet(v) != Rejected ==> GenderSet(v) == Stored(v)
  {
  }

  /** `client_ids` takes a non-empty list of integers (booleans included) and stores nothing. */
  lemma ClientIdsRule(v: JValue)
    ensures ClientIdsSet(v) != Rejected <==> v.JList? && v.items != [] && forall i | 0 <= i < |v.items| :: IsPyInt(v.items[i])
    ensures ClientIdsSet(v) != Rejected ==> ClientIdsSet(v) == NotStored
  {
  }

  /** A date written as `DD.MM.YYYY` is parsed back to itself and stored. */
  lemma DateFieldStoresFormatted(d: Date)
    requires ValidDate(d)
    ensures DateSet(JStr(FormatDayMonthYear(d))) == StoredDate(d)
  {
    DayMonthYearRoundTrip(d);
  }

  /** A birthday written as `DD.MM.YYYY` passes exactly when its year lies in `[1920, nowYear - 18]`. */
  lemma BirthDayWindow(d: Date, nowYear: int)
    requires ValidDate(d)
    ensures BirthDaySet(JStr(FormatDayMonthYear(d)), nowYear)
      == (if 1920 <= d.year <= nowYear - 18 then StoredDate(d) else Rejected)
  {
    DayMonthYearRoundTrip(d);
  }
}
