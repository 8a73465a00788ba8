/**
  Numbers in canonical JSON: the ECMAScript layout of RFC 8785, what its text denotes, and
  that equal numbers and only they share a text.
 */
module JsonNumbers {
  import opened Common
  import opened Decimals

  const MAX_SAFE_INTEGER: nat := 9_007_199_254_740_991

  /** A double, by its sign and the shortest digits that identify it: d.ddd x 10^exponent. */
  datatype Double = ZeroDouble(negative: bool) | Finite(negative: bool, digits: seq<Digit>, exponent: int)

  datatype Number = PosInt(unsigned: nat) | NegInt(signed: int) | Float(double: Double)

  /** The values the three variants hold. */
  predicate WellFormed(x: Number) {
    match x
    case PosInt(u) => true
    case NegInt(i) => i < 0
    case Float(d) => d.Finite? ==> Shortest(d.digits)
  }

  predicate Shortest(digits: seq<Digit>) {
    digits != [] && digits[0] != 0 && digits[|digits| - 1] != 0
  }

  // ---- the number itself

  function Signed(negative: bool, x: real): (r: real) {
    if negative then -x else x
  }

  function ValueOf(x: Number): (r: real) {
    match x
    case PosInt(u) => u as real
    case NegInt(i) => i as real
    case Float(ZeroDouble(_)) => 0.0
    case Float(Finite(negative, digits, exponent)) =>
      Signed(negative, Scaled(IntOf(digits), exponent - (|digits| - 1)))
  }

  predicate Safe(x: Number) {
    -(MAX_SAFE_INTEGER as real) <= ValueOf(x) <= MAX_SAFE_INTEGER as real
  }

  // ---- normal form: 0.ddd x 10^n

  datatype Decimal = Zero | Decimal(negative: bool, digits: seq<Digit>, n: int)

  predicate Normal(d: Decimal) {
    d.Decimal? ==> Shortest(d.digits)
  }

  function DecimalValue(d: Decimal): (r: real) {
    match d
    case Zero => 0.0
    case Decimal(negative, digits, n) => Signed(negative, Scaled(IntOf(digits), n - |digits|))
  }

  function OfInteger(negative: bool, u: nat): (r: Decimal) {
    if u == 0 then Zero else Decimal(negative, StripZeros(DigitsOf(u)), |DigitsOf(u)|)
  }

  function Abs(i: int): (r: nat) {
    if i < 0 then -i else i
  }

  function NormalForm(x: Number): (r: Decimal) {
    match x
    case PosInt(u) => OfInteger(false, u)
    case NegInt(i) => OfInteger(true, Abs(i))
    case Float(ZeroDouble(_)) => Zero
    case Float(Finite(negative, digits, exponent)) => Decimal(negative, digits, exponent + 1)
  }

  lemma OfIntegerValue(negative: bool, u: nat)
    ensures Normal(OfInteger(negative, u)) && DecimalValue(OfInteger(negative, u)) == Signed(negative, u as real)
  {
    if u > 0 {
      var all := DigitsOf(u);
      var kept := StripZeros(all);
      var z := |all| - |kept|;
      TrailingZeros(kept, z);
      ScaledTens(IntOf(kept), z, 0);
      assert kept == [] ==> IntOf(kept) == 0;
      assert kept != [] && all[0] == kept[0];
    }
  }

  /** Normalising keeps the number. */
  lemma NormalFormValue(x: Number)
    requires WellFormed(x)
    ensures Normal(NormalForm(x)) && DecimalValue(NormalForm(x)) == ValueOf(x)
  {
    match x
    case PosInt(u) => OfIntegerValue(false, u);
    case NegInt(i) => OfIntegerValue(true, Abs(i));
    case Float(d) => FloatValue(d);
  }

  lemma FloatValue(d: Double)
    requires WellFormed(Float(d))
    ensures Normal(NormalForm(Float(d))) && DecimalValue(NormalForm(Float(d))) == ValueOf(Float(d))
  {
    if d.Finite? {
      assert d.exponent - (|d.digits| - 1) == d.exponent + 1 - |d.digits|;
    }
  }

  /** A number has one normal form. */
  lemma NormalFormUnique(a: Decimal, b: Decimal)
    requires Normal(a) && Normal(b) && DecimalValue(a) == DecimalValue(b)
    ensures a == b
  {
    if a.Decimal? { NonZero(a); }
    if b.Decimal? { NonZero(b); }
    if a.Decimal? && b.Decimal? {
      var e, f := a.n - |a.digits|, b.n - |b.digits|;
      if e <= f { SameDigits(a.digits, e, b.digits, f); } else { SameDigits(b.digits, f, a.digits, e); }
    }
  }

  lemma NonZero(d: Decimal)
    requires d.Decimal? && Normal(d)
    ensures d.negative <==> DecimalValue(d) < 0.0
    ensures DecimalValue(d) != 0.0
  {
    IntOfAtLeast(d.digits);
  }

  lemma {:induction false} SameDigits(a: seq<Digit>, e: int, b: seq<Digit>, f: int)
    requires Shortest(a) && Shortest(b) && e <= f
    requires Scaled(IntOf(a), e) == Scaled(IntOf(b), f)
    ensures a == b && e == f
  {
    var k := f - e;
    ScaledTens(IntOf(b), k, e);
    ScaledMonotone(IntOf(a), IntOf(b) * TenTo(k), e);
    ScaledMonotone(IntOf(b) * TenTo(k), IntOf(a), e);
    LastDigit(a);
    if k > 0 { MultipleOfTen(IntOf(b), k); } else { assert TenTo(k) == 1; }
    DigitsUnique(a, b);
  }

  lemma LastDigit(a: seq<Digit>)
    requires a != []
    ensures IntOf(a) % 10 == a[|a| - 1]
  {
  }

  lemma MultipleOfTen(x: nat, k: nat)
    requires k > 0
    ensures x * TenTo(k) % 10 == 0
  {
    assert x * TenTo(k) == 10 * (x * TenTo(k - 1));
  }

  // ---- the text

  function DigitChar(d: Digit): (r: char) {
    ('0' as int + d) as char
  }

  function Digits(digits: seq<Digit>): (r: string)
    ensures |r| == |digits|
  {
    seq(|digits|, i requires 0 <= i < |digits| => DigitChar(digits[i]))
  }

  /** `u64::to_string` */
  function Shown(n: nat): (r: string) {
    if n == 0 then "0" else Digits(DigitsOf(n))
  }

  /** Number::toString of ECMAScript (section 3.2.2.3 of RFC 8785) for 0.digits x 10^n. */
  function EcmaLayout(digits: seq<Digit>, n: int): (r: string)
    requires digits != []
  {
    var k := |digits|;
    if k <= n <= 21 then Digits(digits) + Digits(Zeros(n - k))
    else if 0 < n <= 21 then Digits(digits[..n]) + "." + Digits(digits[n..])
    else if -6 < n <= 0 then "0." + Digits(Zeros(-n)) + Digits(digits)
    else
      Mantissa(digits) + Exponent(n - 1)
  }

  function Mantissa(digits: seq<Digit>): (r: string)
    requires digits != []
  {
    if |digits| == 1 then Digits(digits) else Digits(digits[..1]) + "." + Digits(digits[1..])
  }

  function Exponent(e: int): (r: string) {
    if e < 0 then "e-" + Shown(-e) else "e+" + Shown(e)
  }

  lemma OnlyDigits(digits: seq<Digit>, c: char)
    requires !('0' <= c <= '9')
    ensures c !in Digits(digits)
  {
    assert forall i :: 0 <= i < |digits| ==> '0' <= Digits(digits)[i] <= '9';
  }

  lemma ShownDigits(n: nat, c: char)
    requires !('0' <= c <= '9')
    ensures c !in Shown(n)
  {
    if n > 0 {
      OnlyDigits(DigitsOf(n), c);
    }
  }

  lemma ExponentForm(digits: seq<Digit>, e: int)
    requires digits != []
    ensures 'e' in Mantissa(digits) + Exponent(e)
    ensures '.' in Mantissa(digits) + Exponent(e) <==> |digits| > 1
  {
    assert Exponent(e)[0] == 'e';
    assert 'e' in Exponent(e);
    OnlyDigits(digits, '.');
    ShownDigits(if e < 0 then -e else e, '.');
    assert |digits| > 1 ==> Mantissa(digits)[1] == '.';
    assert |digits| > 1 ==> '.' in Mantissa(digits);
    assert '.' !in Exponent(e);
  }

  /**
    The exponent is written exactly from 10^21 on and below 10^-6, and a point exactly when a digit stands
    behind it.
   */
  lemma LayoutForm(digits: seq<Digit>, n: int)
    requires digits != []
    ensures 'e' in EcmaLayout(digits, n) <==> n > 21 || n < -5
    ensures '.' in EcmaLayout(digits, n) <==> if -5 <= n <= 21 then n < |digits| else |digits| > 1
  {
    var k := |digits|;
    if k <= n <= 21 {
      NoPoint(digits, Zeros(n - k));
    } else if 0 < n <= 21 {
      PointBetween(digits[..n], digits[n..]);
    } else if -6 < n <= 0 {
      PointBetween([0], Zeros(-n) + digits);
      assert Digits([0]) == "0" && Digits(Zeros(-n) + digits) == Digits(Zeros(-n)) + Digits(digits);
      assert "0." + Digits(Zeros(-n)) + Digits(digits) == "0" + "." + (Digits(Zeros(-n)) + Digits(digits));
    } else {
      ExponentForm(digits, n - 1);
    }
  }

  lemma NoPoint(a: seq<Digit>, b: seq<Digit>)
    ensures 'e' !in Digits(a) + Digits(b) && '.' !in Digits(a) + Digits(b)
  {
    OnlyDigits(a, 'e');
    OnlyDigits(b, 'e');
    OnlyDigits(a, '.');
    OnlyDigits(b, '.');
  }

  lemma PointBetween(a: seq<Digit>, b: seq<Digit>)
    ensures 'e' !in Digits(a) + "." + Digits(b) && '.' in Digits(a) + "." + Digits(b)
  {
    OnlyDigits(a, 'e');
    OnlyDigits(b, 'e');
    assert (Digits(a) + "." + Digits(b))[|a|] == '.';
  }

  function EcmaText(d: Decimal): (r: string)
    requires Normal(d)
  {
    match d
    case Zero => "0"
    case Decimal(negative, digits, n) => (if negative then "-" else "") + EcmaLayout(digits, n)
  }

  /** The canonical text of a number. */
  function NumberText(x: Number): (r: string)
    requires WellFormed(x)
  {
    NormalFormValue(x);
    EcmaText(NormalForm(x))
  }

  /** The safe bound keeps the decimal point within sixteen places. */
  lemma SafeExponent(d: Decimal)
    requires d.Decimal? && Normal(d)
    requires -(MAX_SAFE_INTEGER as real) <= DecimalValue(d) <= MAX_SAFE_INTEGER as real
    ensures d.n <= 16
  {
    var k := |d.digits|;
    IntOfAtLeast(d.digits);
    ScaledMonotone(TenTo(k - 1), IntOf(d.digits), d.n - k);
    assert TenTo(k - 1) == 1 * TenTo(k - 1);
    ScaledTens(1, k - 1, d.n - k);
    if d.n > 16 {
      ScaledTens(1, d.n - 1, 0);
      TenToMonotone(16, d.n - 1);
      TenToSixteen();
    }
  }

  lemma TenToSixteen()
    ensures TenTo(16) == 10_000_000_000_000_000
  {
    TenToSum(8, 8);
    TenToSum(4, 4);
    assert TenTo(4) == 10_000;
  }

  /** The layout branches, pushed onto `start`. */
  method PushLayout(start: string, digits: seq<Digit>, n: int) returns (out: string)
    requires digits != [] && n <= 16
    ensures out == start + EcmaLayout(digits, n)
  {
    var k := |digits|;
    out := start;
    if k <= n {
      out := out + Digits(digits);
      out := out + Digits(Zeros(n - k));
    } else if 0 < n {
      out := out + Digits(digits[..n]);
      out := out + ".";
      out := out + Digits(digits[n..]);
    } else if -6 < n && n <= 0 {
      out := out + "0.";
      out := out + Digits(Zeros(-n));
      out := out + Digits(digits);
    } else {
      out := PushExponential(out, digits, n);
    }
  }

  method PushExponential(start: string, digits: seq<Digit>, n: int) returns (out: string)
    requires digits != [] && n <= -6
    ensures out == start + EcmaLayout(digits, n)
  {
    out := PushMantissa(start, digits);
    out := out + "e-";
    out := out + Shown(1 - n);
    assert Exponent(n - 1) == "e-" + Shown(1 - n);
    Associate(start + Mantissa(digits), "e-", Shown(1 - n));
    Associate(start, Mantissa(digits), Exponent(n - 1));
  }

  method PushMantissa(start: string, digits: seq<Digit>) returns (out: string)
    requires digits != []
    ensures out == start + Mantissa(digits)
  {
    out := start + Digits(digits[..1]);
    if digits[1..] != [] {
      out := out + ".";
      out := out + Digits(digits[1..]);
    } else {
      assert digits[..1] == digits;
    }
  }

  lemma Associate(a: string, b: string, c: string)
    ensures (a + b) + c == a + (b + c)
  {
  }

  /**
    `format_f64`.  Its four branches are the ECMAScript layout on the whole safe range;
    the `+` exponent form of that layout is never needed.
   */
  method FormatF64(d: Double) returns (out: string)
    requires WellFormed(Float(d)) && Safe(Float(d))
    ensures out == NumberText(Float(d))
  {
    if d.ZeroDouble? {
      return "0";
    }
    FloatValue(d);
    SafeExponent(NormalForm(Float(d)));
    out := "";
    if d.negative {
      out := out + "-";
    }
    out := PushLayout(out, d.digits, d.exponent + 1);
  }

  // ---- reading a number back

  predicate IsDigit(c: char) {
    '0' <= c <= '9'
  }

  function DigitValue(c: char): (r: Digit)
    requires IsDigit(c)
  {
    c as int - '0' as int
  }

  function ReadDigits(text: string): (r: (seq<Digit>, string))
    ensures |r.0| + |r.1| == |text|
  {
    if text == "" || !IsDigit(text[0]) then ([], text)
    else
      var (more, rest) := ReadDigits(text[1..]);
      ([DigitValue(text[0])] + more, rest)
  }

  function ReadFraction(text: string): (r: (seq<Digit>, string))
    ensures |r.1| <= |text|
  {
    if text != "" && text[0] == '.' then ReadDigits(text[1..]) else ([], text)
  }

  function ReadExponent(text: string): (r: (int, string))
    ensures |r.1| <= |text|
  {
    if |text| > 1 && text[0] == 'e' && (text[1] == '-' || text[1] == '+') then
      var (digits, rest) := ReadDigits(text[2..]);
      var e: int := IntOf(digits);
      (if text[1] == '-' then -e else e, rest)
    else (0, text)
  }

  datatype Unsigned = NotANumber | Unsigned(m: nat, e: int, rest: string)

  /** Integer digits, an optional fraction and an optional exponent, as m x 10^e. */
  function ReadUnsigned(text: string): (r: Unsigned)
    ensures r.Unsigned? ==> |r.rest| < |text|
  {
    var (whole, t1) := ReadDigits(text);
    var (fraction, t2) := ReadFraction(t1);
    var (exponent, t3) := ReadExponent(t2);
    if whole == [] then NotANumber else Unsigned(IntOf(whole + fraction), exponent - |fraction|, t3)
  }

  function ReadNumber(text: string): (r: Option<(real, string)>)
    ensures r.Some? ==> |r.value.1| < |text|
  {
    var negative := text != "" && text[0] == '-';
    match ReadUnsigned(if negative then text[1..] else text)
    case NotANumber => None
    case Unsigned(m, e, rest) => Some((Signed(negative, Scaled(m, e)), rest))
  }

  /** What may follow a number. */
  predicate Delimited(rest: string) {
    rest == "" || (!IsDigit(rest[0]) && rest[0] != '.' && rest[0] != 'e')
  }

  lemma {:induction false} DigitsRead(digits: seq<Digit>, rest: string)
    requires rest == "" || !IsDigit(rest[0])
    ensures ReadDigits(Digits(digits) + rest) == (digits, rest)
  {
    if digits == [] {
      assert Digits(digits) + rest == rest;
    } else {
      var text := Digits(digits) + rest;
      assert text[0] == DigitChar(digits[0]) && DigitValue(text[0]) == digits[0];
      assert text[1..] == Digits(digits[1..]) + rest;
      DigitsRead(digits[1..], rest);
      assert digits == [digits[0]] + digits[1..];
    }
  }

  lemma DigitsConcat(a: seq<Digit>, b: seq<Digit>)
    ensures Digits(a + b) == Digits(a) + Digits(b)
  {
  }

  function PrintedFraction(fraction: seq<Digit>): (r: string) {
    if fraction == [] then "" else "." + Digits(fraction)
  }

  function PrintedExponent(e: int): (r: string) {
    if e == 0 then "" else Exponent(e)
  }

  lemma Drop(a: string, b: string, rest: string)
    ensures ((a + b) + rest)[|a|..] == b + rest
    ensures forall i :: 0 <= i < |a| ==> ((a + b) + rest)[i] == a[i]
  {
  }

  lemma FractionRead(fraction: seq<Digit>, rest: string)
    requires rest == "" || (!IsDigit(rest[0]) && rest[0] != '.')
    ensures ReadFraction(PrintedFraction(fraction) + rest) == (fraction, rest)
  {
    if fraction == [] {
      assert PrintedFraction(fraction) + rest == rest;
    } else {
      Drop(".", Digits(fraction), rest);
      DigitsRead(fraction, rest);
    }
  }

  lemma ExponentRead(e: int, rest: string)
    requires Delimited(rest)
    ensures ReadExponent(PrintedExponent(e) + rest) == (e, rest)
  {
    if e == 0 {
      assert PrintedExponent(e) + rest == rest;
    } else {
      var digits := DigitsOf(Abs(e));
      Drop(if e < 0 then "e-" else "e+", Digits(digits), rest);
      DigitsRead(digits, rest);
      ExponentTail(e, PrintedExponent(e) + rest, digits, rest);
    }
  }

  lemma ExponentTail(e: int, text: string, digits: seq<Digit>, rest: string)
    requires e != 0 && IntOf(digits) == Abs(e) && |text| >= 2
    requires text[0] == 'e' && text[1] == (if e < 0 then '-' else '+') && ReadDigits(text[2..]) == (digits, rest)
    ensures ReadExponent(text) == (e, rest)
  {
  }

  /** The three parts of a printed number, one after the other. */
  function Printed(whole: seq<Digit>, fraction: seq<Digit>, e: int, rest: string): (r: string) {
    Digits(whole) + (PrintedFraction(fraction) + (PrintedExponent(e) + rest))
  }

  lemma FirstChar(fraction: seq<Digit>, e: int, rest: string)
    requires Delimited(rest)
    ensures var t2 := PrintedExponent(e) + rest; t2 == "" || (!IsDigit(t2[0]) && t2[0] != '.')
    ensures var t1 := PrintedFraction(fraction) + (PrintedExponent(e) + rest); t1 == "" || !IsDigit(t1[0])
  {
    var t2 := PrintedExponent(e) + rest;
    if e == 0 { assert t2 == rest; } else { assert t2[0] == 'e'; }
    if fraction == [] { assert PrintedFraction(fraction) + t2 == t2; }
  }

  lemma PrintedRead(text: string, whole: seq<Digit>, fraction: seq<Digit>, e: int, rest: string)
    requires whole != [] && Delimited(rest) && text == Printed(whole, fraction, e, rest)
    ensures ReadUnsigned(text) == Unsigned(IntOf(whole + fraction), e - |fraction|, rest)
  {
    FirstChar(fraction, e, rest);
    var t2 := PrintedExponent(e) + rest;
    var t1 := PrintedFraction(fraction) + t2;
    DigitsRead(whole, t1);
    FractionRead(fraction, t2);
    ExponentRead(e, rest);
    PartsRead(text, whole, t1, fraction, t2, e, rest);
  }

  lemma PartsRead(text: string, whole: seq<Digit>, t1: string, fraction: seq<Digit>, t2: string, e: int, rest: string)
    requires whole != [] && ReadDigits(text) == (whole, t1)
    requires ReadFraction(t1) == (fraction, t2) && ReadExponent(t2) == (e, rest)
    ensures ReadUnsigned(text) == Unsigned(IntOf(whole + fraction), e - |fraction|, rest)
  {
  }

  /** The layout prints these integer digits, fraction and exponent. */
  ghost predicate PrintsAs(digits: seq<Digit>, n: int, whole: seq<Digit>, fraction: seq<Digit>, e: int) {
    && digits != [] && whole != []
    && EcmaLayout(digits, n) == Digits(whole) + PrintedFraction(fraction) + PrintedExponent(e)
  }

  /** They denote 0.digits x 10^n. */
  ghost predicate DenotesAs(digits: seq<Digit>, n: int, whole: seq<Digit>, fraction: seq<Digit>, e: int) {
    Scaled(IntOf(whole + fraction), e - |fraction|) == Scaled(IntOf(digits), n - |digits|)
  }

  /** Some parts print and denote the number. */
  ghost predicate HasParts(digits: seq<Digit>, n: int) {
    exists whole, fraction, e :: PrintsAs(digits, n, whole, fraction, e) && DenotesAs(digits, n, whole, fraction, e)
  }

  /** All layout branches print integer digits, a fraction and an exponent for the same number. */
  lemma LayoutHasParts(digits: seq<Digit>, n: int)
    requires digits != []
    ensures HasParts(digits, n)
  {
    if |digits| <= n <= 21 {
      WholeParts(digits, n);
    } else if 0 < n <= 21 {
      PointParts(digits, n);
    } else if -6 < n <= 0 {
      SmallParts(digits, n);
    } else {
      ExponentParts(digits, n);
    }
  }

  lemma WholeParts(digits: seq<Digit>, n: int)
    requires digits != [] && |digits| <= n <= 21
    ensures HasParts(digits, n)
  {
    WholePrints(digits, n);
    WholeDenotes(digits, n);
  }

  lemma PointParts(digits: seq<Digit>, n: int)
    requires 0 < n <= 21 && n < |digits|
    ensures HasParts(digits, n)
  {
    PointPrints(digits, n);
    PointDenotes(digits, n);
  }

  lemma SmallParts(digits: seq<Digit>, n: int)
    requires digits != [] && -6 < n <= 0
    ensures HasParts(digits, n)
  {
    SmallPrints(digits, n);
    SmallDenotes(digits, n);
  }

  lemma ExponentParts(digits: seq<Digit>, n: int)
    requires digits != [] && (n > 21 || n <= -6)
    ensures HasParts(digits, n)
  {
    ExponentPrints(digits, n);
    ExponentDenotes(digits, n);
    Parts(digits, n, digits[..1], digits[1..], n - 1);
  }

  lemma Parts(digits: seq<Digit>, n: int, whole: seq<Digit>, fraction: seq<Digit>, e: int)
    requires PrintsAs(digits, n, whole, fraction, e) && DenotesAs(digits, n, whole, fraction, e)
    ensures HasParts(digits, n)
  {
  }

  lemma WholePrints(digits: seq<Digit>, n: int)
    requires digits != [] && |digits| <= n <= 21
    ensures PrintsAs(digits, n, digits + Zeros(n - |digits|), [], 0)
  {
    DigitsConcat(digits, Zeros(n - |digits|));
  }

  lemma WholeDenotes(digits: seq<Digit>, n: int)
    requires |digits| <= n
    ensures DenotesAs(digits, n, digits + Zeros(n - |digits|), [], 0)
  {
    var whole := digits + Zeros(n - |digits|);
    TrailingZeros(digits, n - |digits|);
    assert whole + [] == whole;
    ScaledTens(IntOf(digits), n - |digits|, 0);
  }

  lemma PointPrints(digits: seq<Digit>, n: int)
    requires 0 < n <= 21 && n < |digits|
    ensures PrintsAs(digits, n, digits[..n], digits[n..], 0)
  {
    Associate(Digits(digits[..n]), ".", Digits(digits[n..]));
  }

  lemma PointDenotes(digits: seq<Digit>, n: int)
    requires 0 <= n <= |digits|
    ensures DenotesAs(digits, n, digits[..n], digits[n..], 0)
  {
    assert digits[..n] + digits[n..] == digits;
  }

  lemma SmallPrints(digits: seq<Digit>, n: int)
    requires digits != [] && -6 < n <= 0
    ensures PrintsAs(digits, n, [0], Zeros(-n) + digits, 0)
  {
    DigitsConcat(Zeros(-n), digits);
    assert Digits([0]) == "0" && "0" + "." == "0.";
    Associate("0.", Digits(Zeros(-n)), Digits(digits));
    Associate("0", ".", Digits(Zeros(-n) + digits));
  }

  lemma SmallDenotes(digits: seq<Digit>, n: int)
    requires n <= 0
    ensures DenotesAs(digits, n, [0], Zeros(-n) + digits, 0)
  {
    assert [0] + (Zeros(-n) + digits) == Zeros(1 - n) + digits;
    LeadingZeros(1 - n, digits);
  }

  lemma ExponentPrints(digits: seq<Digit>, n: int)
    requires digits != [] && (n > 21 || n <= -6)
    ensures PrintsAs(digits, n, digits[..1], digits[1..], n - 1)
  {
    MantissaPrints(digits);
  }

  lemma MantissaPrints(digits: seq<Digit>)
    requires digits != []
    ensures Mantissa(digits) == Digits(digits[..1]) + PrintedFraction(digits[1..])
  {
    if |digits| == 1 {
      assert digits[..1] == digits && digits[1..] == [];
    } else {
      Associate(Digits(digits[..1]), ".", Digits(digits[1..]));
    }
  }

  lemma ExponentDenotes(digits: seq<Digit>, n: int)
    requires digits != []
    ensures DenotesAs(digits, n, digits[..1], digits[1..], n - 1)
  {
    assert digits[..1] + digits[1..] == digits;
    assert n - 1 - |digits[1..]| == n - |digits|;
  }

  /** The text of a number denotes exactly that number. */
  lemma TextDenotes(d: Decimal, rest: string)
    requires Normal(d) && Delimited(rest)
    ensures ReadNumber(EcmaText(d) + rest) == Some((DecimalValue(d), rest))
  {
    match d
    case Zero => ZeroDenotes(rest);
    case Decimal(negative, digits, n) => LayoutDenotes(negative, digits, n, rest);
  }

  lemma LayoutDenotes(negative: bool, digits: seq<Digit>, n: int, rest: string)
    requires digits != [] && Delimited(rest)
    ensures ReadNumber((if negative then "-" else "") + EcmaLayout(digits, n) + rest)
            == Some((Signed(negative, Scaled(IntOf(digits), n - |digits|)), rest))
  {
    LayoutHasParts(digits, n);
    var whole, fraction, e :| PrintsAs(digits, n, whole, fraction, e) && DenotesAs(digits, n, whole, fraction, e);
    var layout := EcmaLayout(digits, n);
    PrintedText(layout, whole, fraction, e, rest);
    SignedRead(negative, layout, rest, IntOf(whole + fraction), e - |fraction|);
  }

  lemma PrintedText(layout: string, whole: seq<Digit>, fraction: seq<Digit>, e: int, rest: string)
    requires whole != [] && layout == Digits(whole) + PrintedFraction(fraction) + PrintedExponent(e) && Delimited(rest)
    ensures ReadUnsigned(layout + rest) == Unsigned(IntOf(whole + fraction), e - |fraction|, rest)
    ensures layout != "" && layout[0] != '-'
  {
    PrintedAfter(whole, fraction, e, rest);
    assert layout[0] == Digits(whole)[0];
    PrintedRead(layout + rest, whole, fraction, e, rest);
  }

  lemma SignedRead(negative: bool, layout: string, rest: string, m: nat, e: int)
    requires layout != "" && layout[0] != '-' && ReadUnsigned(layout + rest) == Unsigned(m, e, rest)
    ensures ReadNumber((if negative then "-" else "") + layout + rest) == Some((Signed(negative, Scaled(m, e)), rest))
  {
    SignedText(negative, layout, rest);
  }

  lemma PrintedAfter(whole: seq<Digit>, fraction: seq<Digit>, e: int, rest: string)
    requires whole != []
    ensures (Digits(whole) + PrintedFraction(fraction) + PrintedExponent(e)) + rest == Printed(whole, fraction, e, rest)
  {
    Associate(Digits(whole) + PrintedFraction(fraction), PrintedExponent(e), rest);
    Associate(Digits(whole), PrintedFraction(fraction), PrintedExponent(e) + rest);
  }

  lemma SignedText(negative: bool, layout: string, rest: string)
    requires layout != "" && layout[0] != '-'
    ensures var text := (if negative then "-" else "") + layout + rest;
      && text != "" && (text[0] == '-' <==> negative)
      && (if negative then text[1..] else text) == layout + rest
  {
  }

  lemma ZeroDenotes(rest: string)
    requires Delimited(rest)
    ensures ReadNumber("0" + rest) == Some((0.0, rest))
  {
    assert Digits([0]) == "0";
    assert "0" + PrintedFraction([]) + PrintedExponent(0) == "0";
    PrintedText("0", [0], [], 0, rest);
    assert IntOf([0] + []) == 0;
  }

  /** Two numbers print alike exactly when they are the same number. */
  lemma TextsAgreeExactly(x: Number, y: Number)
    requires WellFormed(x) && WellFormed(y)
    ensures NumberText(x) == NumberText(y) <==> ValueOf(x) == ValueOf(y)
  {
    NormalFormValue(x);
    NormalFormValue(y);
    TextDenotes(NormalForm(x), "");
    TextDenotes(NormalForm(y), "");
    assert NumberText(x) + "" == NumberText(x) && NumberText(y) + "" == NumberText(y);
    if ValueOf(x) == ValueOf(y) { NormalFormUnique(NormalForm(x), NormalForm(y)); }
  }

  // ---- writing any number

  /** An integer prints its plain digits: the layout of its normal form. */
  lemma IntegerText(negative: bool, u: nat)
    requires u <= MAX_SAFE_INTEGER
    ensures Normal(OfInteger(negative, u))
    ensures EcmaText(OfInteger(negative, u)) == (if negative && u > 0 then "-" else "") + Shown(u)
  {
    OfIntegerValue(negative, u);
    if u > 0 {
      var all := DigitsOf(u);
      var kept := StripZeros(all);
      SafeExponent(OfInteger(negative, u));
      assert all == kept + Zeros(|all| - |kept|);
      DigitsConcat(kept, Zeros(|all| - |kept|));
    }
  }

  /** `write_number`: the canonical text is appended exactly when the number is safe. */
  method WriteNumber(out: string, x: Number) returns (r: Option<string>)
    requires WellFormed(x)
    ensures r == if Safe(x) then Some(out + NumberText(x)) else None
  {
    match x
    case PosInt(u) =>
      if u > MAX_SAFE_INTEGER {
        return None;
      }
      IntegerText(false, u);
      assert "" + Shown(u) == Shown(u);
      return Some(out + Shown(u));
    case NegInt(i) =>
      if Abs(i) > MAX_SAFE_INTEGER {
        return None;
      }
      IntegerText(true, Abs(i));
      Associate(out, "-", Shown(Abs(i)));
      return Some(out + "-" + Shown(Abs(i)));
    case Float(d) =>
      if !Safe(x) {
        return None;
      }
      var text := FormatF64(d);
      return Some(out + text);
  }
}
