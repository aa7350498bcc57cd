/** JSON numbers. A number is an IEEE double. The integers a double holds exactly
    may also be written as integers, which a reader can tell from the double of
    the same value; a canonical text cannot. */
module JsonNumber {
  import opened Prelude
  import Doubles

  const MAX_SAFE: int := 9007199254740991

  /** A double is counted in units of 2^-1074, and is below 2^1024. */
  const BIAS: nat := 1074
  const TOP: nat := 2098

  datatype Number = Safe(n: int) | NegZero | Double(units: int)

  predicate IsDigit(c: char) {
    '0' <= c <= '9'
  }

  predicate IsNumberChar(c: char) {
    IsDigit(c) || c == '+' || c == '-' || c == '.' || c == 'e' || c == 'E'
  }

  /** The length of the longest run of digits at the front of `s`. */
  function DigitRun(s: string): (k: nat)
    ensures k <= |s|
    ensures forall i | 0 <= i < k :: IsDigit(s[i])
    ensures k < |s| ==> !IsDigit(s[k])
  {
    if s == "" || !IsDigit(s[0]) then 0 else 1 + DigitRun(s[1..])
  }

  predicate IsExponent(s: string) {
    s == "" ||
    ((s[0] == 'e' || s[0] == 'E') &&
     var t := if "+" <= s[1..] || "-" <= s[1..] then s[2..] else s[1..];
     t != "" && DigitRun(t) == |t|)
  }

  predicate IsFraction(s: string) {
    if "." <= s then
      DigitRun(s[1..]) > 0 && IsExponent(s[1 + DigitRun(s[1..])..])
    else
      IsExponent(s)
  }

  function Unsigned(t: string): string {
    if "-" <= t then t[1..] else t
  }

  /** The number grammar of section 6 of RFC 8259. */
  predicate IsNumberText(t: string) {
    var u := Unsigned(t);
    var k := DigitRun(u);
    && (forall i | 0 <= i < |t| :: IsNumberChar(t[i]))
    && k > 0
    && (u[0] == '0' ==> k == 1)
    && IsFraction(u[k..])
  }

  function Decimal(n: nat): (s: string)
    ensures s != ""
  {
    var digit := [('0' as int + n % 10) as char];
    if n < 10 then digit else Decimal(n / 10) + digit
  }

  function DigitOf(c: char): nat {
    if IsDigit(c) then c as int - '0' as int else 0
  }

  function DecimalValue(s: string): nat {
    if s == "" then 0 else DecimalValue(s[..|s| - 1]) * 10 + DigitOf(s[|s| - 1])
  }

  lemma {:induction false} AllDigits(s: string)
    requires forall i | 0 <= i < |s| :: IsDigit(s[i])
    ensures DigitRun(s) == |s|
  {
    if s != "" {
      AllDigits(s[1..]);
    }
  }

  // ---------- The value of a text ----------

  function WholePart(u: string): string {
    u[..DigitRun(u)]
  }

  function FractionPart(u: string): string {
    var rest := u[DigitRun(u)..];
    if "." <= rest then rest[1..1 + DigitRun(rest[1..])] else ""
  }

  function ExponentPart(u: string): string {
    var rest := u[DigitRun(u)..];
    if "." <= rest then rest[1 + DigitRun(rest[1..])..] else rest
  }

  function ExponentValue(x: string): int {
    if x == "" then 0
    else if "-" <= x[1..] then 0 - DecimalValue(x[2..])
    else if "+" <= x[1..] then DecimalValue(x[2..])
    else DecimalValue(x[1..])
  }

  function Magnitude(u: string): nat {
    DecimalValue(WholePart(u) + FractionPart(u))
  }

  function Scale(u: string): int {
    ExponentValue(ExponentPart(u)) - |FractionPart(u)|
  }

  /** The units of the double nearest to what a text without sign says. */
  function Nearest(u: string): nat {
    Doubles.RoundDecimal(Magnitude(u), Scale(u), BIAS)
  }

  predicate IsWhole(u: string) {
    DigitRun(u) == |u|
  }

  function Signed(negative: bool, n: nat): int {
    if negative then 0 - n else n
  }

  /** Which number a text denotes, if it is one: an integer within the safe ones,
      or else the nearest double; a text beyond the largest double is an error. */
  function Classify(t: string): Option<Number> {
    var u := Unsigned(t);
    var negative := u != t;
    if !IsNumberText(t) then
      None
    else if IsWhole(u) && DecimalValue(u) <= MAX_SAFE then
      if DecimalValue(u) == 0 && negative then Some(NegZero) else Some(Safe(Signed(negative, DecimalValue(u))))
    else if Nearest(u) >= Doubles.Pow(2, TOP) then
      None
    else if Nearest(u) == 0 && negative then
      Some(NegZero)
    else
      Some(Double(Signed(negative, Nearest(u))))
  }

  function Abs(n: int): nat {
    if n < 0 then -n else n
  }

  predicate Valid(x: Number) {
    match x
    case Safe(n) => -MAX_SAFE <= n <= MAX_SAFE
    case NegZero => true
    case Double(u) => Doubles.IsDouble(Abs(u)) && Abs(u) < Doubles.Pow(2, TOP)
  }

  // ---------- The text of a number ----------

  /** The safe integer that `u` units are, if any. */
  function WholeUnits(u: nat): Option<nat> {
    Doubles.PowIsPositive(2, BIAS);
    var one := Doubles.Pow(2, BIAS);
    if u % one == 0 && u / one <= MAX_SAFE then Some(u / one) else None
  }

  function Zeros(n: nat): string {
    if n == 0 then "" else Zeros(n - 1) + "0"
  }

  /** The layout of `Number::toString` in ECMAScript, for digits and exponent. */
  function Layout(digits: string, x: int): string
    requires digits != ""
  {
    var (k, n) := (|digits|, |digits| + x);
    if k <= n <= 21 then digits + Zeros(x)
    else if 0 < n <= 21 then digits[..n] + "." + digits[n..]
    else if -6 < n <= 0 then "0." + Zeros(-n) + digits
    else
      digits[..1] + (if k == 1 then "" else "." + digits[1..]) + "e" + (if n - 1 < 0 then "-" else "+") +
      Decimal(Abs(n - 1))
  }

  function ShortestText(u: nat): string
    requires u > 0 && Doubles.IsDouble(u)
  {
    var (s, x) := Doubles.Digits(u, BIAS);
    Layout(Decimal(s), x)
  }

  /** A double that is a safe integer is marked as a double by its fraction. */
  function Text(x: Number): string {
    match x
    case Safe(n) => if n < 0 then "-" + Decimal(-n) else Decimal(n)
    case NegZero => "-0.0"
    case Double(u) => (if u < 0 then "-" else "") + DoubleText(Abs(u))
  }

  function DoubleText(u: nat): string {
    match WholeUnits(u)
    case Some(n) => Decimal(n) + ".0"
    case None => if u > 0 && Doubles.IsDouble(u) then ShortestText(u) else ""
  }

  // ---------- Numbers as doubles ----------

  /** The number as a canonical text has it: one zero, and no difference between
      an integer and the double of the same value. */
  function AsDouble(x: Number): Number {
    match x
    case Safe(_) => x
    case NegZero => Safe(0)
    case Double(u) => OfUnits(u)
  }

  function OfUnits(u: int): Number {
    match WholeUnits(Abs(u))
    case Some(n) => Safe(Signed(u < 0, n))
    case None => Double(u)
  }

  /** The units of the double a number is; both zeros have none. */
  function Units(x: Number): int {
    match x
    case Safe(n) => n * Doubles.Pow(2, BIAS)
    case NegZero => 0
    case Double(u) => u
  }

  lemma AsDoubleIs(x: Number)
    requires Valid(x)
    ensures Valid(AsDouble(x)) && AsDouble(AsDouble(x)) == AsDouble(x) && !AsDouble(x).NegZero?
    ensures Units(AsDouble(x)) == Units(x)
  {
    hide Doubles.Pow, Doubles.IsDouble;
    Doubles.PowIsPositive(2, BIAS);
  }

  /** Two numbers are the same in canonical texts exactly when they are the same double. */
  lemma SameDouble(x: Number, y: Number)
    requires Valid(x) && Valid(y)
    ensures AsDouble(x) == AsDouble(y) <==> Units(x) == Units(y)
  {
    hide AsDouble, Units, OfUnits;
    AsDoubleIs(x);
    AsDoubleIs(y);
    UnitsDecide(x);
    UnitsDecide(y);
  }

  lemma UnitsDecide(x: Number)
    requires Valid(x)
    ensures AsDouble(x) == OfUnits(Units(x))
  {
    hide Doubles.Pow, Doubles.IsDouble, WholeUnits;
    match x
    case Safe(n) => WholeOf(n);
    case NegZero => WholeOf(0);
    case Double(_) =>
  }

  lemma WholeOf(n: int)
    requires -MAX_SAFE <= n <= MAX_SAFE
    ensures OfUnits(n * Doubles.Pow(2, BIAS)) == Safe(n)
  {
    hide Doubles.Pow;
    var one := Doubles.Pow(2, BIAS);
    Doubles.PowIsPositive(2, BIAS);
    var a := Abs(n);
    assert Abs(n * one) == a * one by { Times(n, one); }
    Doubles.DivideIs(a * one, one, a, 0);
  }

  lemma Times(n: int, one: nat)
    requires one > 0
    ensures n < 0 ==> n * one < 0 && -(n * one) == (-n) * one
    ensures n >= 0 ==> n * one >= 0
  {
  }

  // ---------- Every number is read back from its text ----------

  predicate Digits(s: string) {
    DigitRun(s) == |s|
  }

  lemma {:induction false} RunEnds(a: string, b: string)
    requires Digits(a) && (b == "" || !IsDigit(b[0]))
    ensures DigitRun(a + b) == |a|
  {
    if a == "" {
      assert a + b == b;
    } else {
      assert (a + b)[1..] == a[1..] + b;
      RunEnds(a[1..], b);
    }
  }

  /** An exponent as it is written: sign and digits. */
  predicate IsWritten(e: string) {
    e == "" || (|e| > 2 && e[0] == 'e' && (e[1] == '+' || e[1] == '-') && Digits(e[2..]))
  }

  function Dotted(f: string): string {
    if f == "" then "" else "." + f
  }

  /** A text put together from its parts is a number text with these parts. */
  lemma PartsAreRead(w: string, f: string, e: string)
    requires w != "" && Digits(w) && (w[0] == '0' ==> |w| == 1) && Digits(f) && IsWritten(e)
    ensures
      var u := w + Dotted(f) + e;
      && IsNumberText(u) && IsNumberText("-" + u) && Unsigned(u) == u && Unsigned("-" + u) == u
      && WholePart(u) == w && FractionPart(u) == f && ExponentPart(u) == e
      && (IsWhole(u) <==> f == "" && e == "")
  {
    hide IsFraction, IsWritten, Digits, DigitRun, IsNumberText, WholePart, FractionPart, ExponentPart, Unsigned;
    hide IsNumberChar, IsDigit, IsWhole, Dotted;
    var (u, rest) := (w + Dotted(f) + e, Dotted(f) + e);
    assert u == w + rest;
    RestIsRead(f, e);
    WholeIsRead(w, rest);
    CharsAreNumbers(w, f, e);
    MinusIsRead(u);
    SplitIsRead(u, w, rest, f, e);
    NumberTextIs(u, u, w, rest);
    NumberTextIs("-" + u, u, w, rest);
  }

  lemma NumberTextIs(t: string, u: string, w: string, rest: string)
    requires Unsigned(t) == u && w != "" && DigitRun(u) == |w| && u[|w|..] == rest && u[0] == w[0] && IsFraction(rest)
    requires w[0] == '0' ==> |w| == 1
    requires forall i | 0 <= i < |t| :: IsNumberChar(t[i])
    ensures IsNumberText(t)
  {
    hide IsFraction, IsNumberChar, Unsigned;
  }

  lemma SplitIsRead(u: string, w: string, rest: string, f: string, e: string)
    requires DigitRun(u) == |w| && u[|w|..] == rest && u[..|w|] == w
    requires "." <= rest <==> f != ""
    requires f != "" ==> DigitRun(rest[1..]) == |f| && |rest| >= 1 + |f| && rest[1..1 + |f|] == f && rest[1 + |f|..] == e
    requires f == "" ==> rest == e
    ensures WholePart(u) == w && FractionPart(u) == f && ExponentPart(u) == e
    ensures IsWhole(u) <==> rest == ""
  {
    hide DigitRun;
    assert |u| == |w| + |rest|;
  }

  lemma WholeIsRead(w: string, rest: string)
    requires w != "" && Digits(w) && (rest == "" || !IsDigit(rest[0]))
    ensures var u := w + rest;
            DigitRun(u) == |w| && u[|w|..] == rest && u[..|w|] == w && u[0] == w[0] && IsDigit(w[0])
  {
    RunEnds(w, rest);
  }

  /** A point, if there is a fraction, and what follows it. */
  lemma RestIsRead(f: string, e: string)
    requires Digits(f) && IsWritten(e)
    ensures
      var rest := Dotted(f) + e;
      && IsFraction(rest) && (rest == "" || !IsDigit(rest[0])) && (rest == "" <==> f == "" && e == "")
      && ("." <= rest <==> f != "")
      && (f != "" ==> DigitRun(rest[1..]) == |f| && rest[1..1 + |f|] == f && rest[1 + |f|..] == e)
      && (f == "" ==> rest == e)
  {
    hide IsExponent, DigitRun, Digits;
    var rest := Dotted(f) + e;
    ExponentIsRead(e);
    if f != "" {
      PointIsRead(f, e);
    } else {
      assert rest == e;
    }
  }

  lemma PointIsRead(f: string, e: string)
    requires f != "" && Digits(f) && IsExponent(e) && (e == "" || !IsDigit(e[0]))
    ensures
      var rest := Dotted(f) + e;
      && "." <= rest && DigitRun(rest[1..]) == |f| && rest[1..1 + |f|] == f && rest[1 + |f|..] == e && IsFraction(rest)
      && rest[0] == '.'
  {
    hide IsExponent;
    var rest := Dotted(f) + e;
    assert rest[1..] == f + e && rest[1..1 + |f|] == f && rest[1 + |f|..] == e;
    RunEnds(f, e);
  }

  lemma MinusIsRead(u: string)
    requires u != "" && IsDigit(u[0]) && forall i | 0 <= i < |u| :: IsNumberChar(u[i])
    ensures Unsigned(u) == u && Unsigned("-" + u) == u
    ensures forall i | 0 <= i < |"-" + u| :: IsNumberChar(("-" + u)[i])
  {
    assert forall i | 0 < i < |"-" + u| :: ("-" + u)[i] == u[i - 1];
  }

  lemma ExponentIsRead(e: string)
    requires IsWritten(e)
    ensures IsExponent(e)
  {
    if e != "" {
      assert e[1..][1..] == e[2..];
    }
  }

  lemma CharsAreNumbers(w: string, f: string, e: string)
    requires Digits(w) && Digits(f) && IsWritten(e)
    ensures forall i | 0 <= i < |w + Dotted(f) + e| :: IsNumberChar((w + Dotted(f) + e)[i])
  {
    assert forall i | 2 <= i < |e| :: e[i] == e[2..][i - 2];
    assert forall i | 0 < i < |Dotted(f)| :: Dotted(f)[i] == f[i - 1];
  }

  lemma {:induction false} DecimalDigits(n: nat)
    ensures forall i | 0 <= i < |Decimal(n)| :: IsDigit(Decimal(n)[i])
    ensures Digits(Decimal(n))
    ensures DecimalValue(Decimal(n)) == n
    ensures Decimal(n)[0] == '0' <==> n == 0
    ensures n == 0 ==> Decimal(n) == "0"
  {
    if n >= 10 {
      DecimalDigits(n / 10);
      assert Decimal(n)[..|Decimal(n)| - 1] == Decimal(n / 10);
    }
    AllDigits(Decimal(n));
  }

  lemma {:induction false} ValueOfSum(a: string, b: string)
    ensures DecimalValue(a + b) == DecimalValue(a) * Doubles.Pow(10, |b|) + DecimalValue(b)
  {
    if b == "" {
      assert a + b == a;
    } else {
      var (c, d) := (b[..|b| - 1], DigitOf(b[|b| - 1]));
      assert (a + b)[..|a + b| - 1] == a + c;
      ValueOfSum(a, c);
      Carry(DecimalValue(a), Doubles.Pow(10, |c|), DecimalValue(c), d);
    }
  }

  lemma Carry(a: nat, p: nat, c: nat, d: nat)
    ensures (a * p + c) * 10 + d == a * (10 * p) + (c * 10 + d)
  {
  }

  lemma {:induction false} ZerosAre(n: nat)
    ensures |Zeros(n)| == n && Digits(Zeros(n)) && DecimalValue(Zeros(n)) == 0
    ensures forall i | 0 <= i < n :: Zeros(n)[i] == '0'
  {
    if n > 0 {
      ZerosAre(n - 1);
      assert Zeros(n)[..n - 1] == Zeros(n - 1);
    }
    AllDigits(Zeros(n));
  }

  lemma JoinDigits(a: string, b: string)
    requires Digits(a) && Digits(b)
    ensures Digits(a + b)
  {
    AllDigits(a + b);
  }

  lemma CutDigits(a: string, n: nat)
    requires Digits(a) && n <= |a|
    ensures Digits(a[..n]) && Digits(a[n..]) && a[..n] + a[n..] == a
  {
    AllDigits(a[..n]);
    AllDigits(a[n..]);
  }

  /** The parts of a layout, and what they are worth. */
  function LayoutParts(digits: string, x: int): (string, string, string)
    requires digits != ""
  {
    var (k, n) := (|digits|, |digits| + x);
    if k <= n <= 21 then (digits + Zeros(x), "", "")
    else if 0 < n <= 21 then (digits[..n], digits[n..], "")
    else if -6 < n <= 0 then ("0", Zeros(-n) + digits, "")
    else (digits[..1], digits[1..], "e" + (if n - 1 < 0 then "-" else "+") + Decimal(Abs(n - 1)))
  }

  lemma ExponentText(v: int)
    ensures
      var e := "e" + (if v < 0 then "-" else "+") + Decimal(Abs(v));
      IsWritten(e) && e != "" && ExponentValue(e) == v
  {
    var e := "e" + (if v < 0 then "-" else "+") + Decimal(Abs(v));
    DecimalDigits(Abs(v));
    assert e[2..] == Decimal(Abs(v)) && e[1..][0] == e[1];
  }

  lemma Padded(digits: string, n: nat)
    requires Digits(digits)
    ensures Digits(digits + Zeros(n)) && DecimalValue(digits + Zeros(n)) == DecimalValue(digits) * Doubles.Pow(10, n)
  {
    hide Doubles.Pow, DecimalValue;
    ZerosAre(n);
    JoinDigits(digits, Zeros(n));
    ValueOfSum(digits, Zeros(n));
  }

  lemma Led(n: nat, digits: string)
    requires Digits(digits)
    ensures Digits(Zeros(n) + digits) && |Zeros(n)| == n
    ensures DecimalValue("0" + (Zeros(n) + digits)) == DecimalValue(digits)
  {
    hide Doubles.Pow;
    ZerosAre(n);
    JoinDigits(Zeros(n), digits);
    ValueOfSum(Zeros(n), digits);
    ValueOfSum("0", Zeros(n) + digits);
    assert DecimalValue("0") == 0;
  }

  lemma LayoutIs(digits: string, x: int)
    requires digits != "" && Digits(digits) && digits[0] != '0'
    ensures
      var (w, f, e) := LayoutParts(digits, x);
      && Layout(digits, x) == w + Dotted(f) + e
      && w != "" && Digits(w) && (w[0] == '0' ==> |w| == 1) && Digits(f) && IsWritten(e)
      && (f == "" && e == "" ==> x >= 0 && DecimalValue(w) == DecimalValue(digits) * Doubles.Pow(10, x))
      && (!(f == "" && e == "") ==> DecimalValue(w + f) == DecimalValue(digits) && ExponentValue(e) - |f| == x)
  {
    hide Doubles.Pow, DecimalValue, ExponentValue, Digits, Decimal, Zeros, IsWritten;
    var (k, n) := (|digits|, |digits| + x);
    NothingWritten();
    if k <= n <= 21 {
      Padded(digits, x);
    } else if 0 < n <= 21 {
      CutDigits(digits, n);
    } else if -6 < n <= 0 {
      Led(-n, digits);
    } else {
      CutDigits(digits, 1);
      ExponentText(n - 1);
      assert digits[1..] == "" <==> k == 1;
    }
  }

  lemma NothingWritten()
    ensures Digits("") && Digits("0") && IsWritten("") && ExponentValue("") == 0
  {
  }

  lemma NearestIs(u: string, d: nat, x: int)
    requires Magnitude(u) == d && Scale(u) == x
    ensures Nearest(u) == Doubles.RoundDecimal(d, x, BIAS)
  {
  }

  /** The shortest text of a double is a number text that says this double. */
  lemma ShortestTextReads(u: nat)
    requires u > 0 && Doubles.IsDouble(u) && WholeUnits(u) == None
    ensures
      var t := ShortestText(u);
      && IsNumberText(t) && IsNumberText("-" + t) && Unsigned(t) == t && Unsigned("-" + t) == t && Nearest(t) == u
      && (IsWhole(t) ==> DecimalValue(t) > MAX_SAFE)
  {
    hide Doubles.Pow, Doubles.IsDouble, Doubles.RoundDecimal, Doubles.Digits, Layout, Decimal, WholeUnits, DecimalValue;
    hide IsNumberText, Unsigned, IsWritten, Digits, IsWhole, Nearest, LayoutParts, WholePart, FractionPart, ExponentPart;
    hide ExponentValue;
    var (s, x) := Doubles.Digits(u, BIAS);
    DecimalDigits(s);
    LayoutIs(Decimal(s), x);
    var (w, f, e) := LayoutParts(Decimal(s), x);
    PartsAreRead(w, f, e);
    var t := ShortestText(u);
    if f == "" && e == "" {
      assert t == w && w + f == w;
      NothingWritten();
      NearestIs(t, DecimalValue(w), 0);
      Doubles.DecimalShifts(s, x, x, BIAS);
      if DecimalValue(w) <= MAX_SAFE {
        SafeIsWhole(DecimalValue(w));
      }
    } else {
      NearestIs(t, s, x);
    }
  }

  lemma SafeIsWhole(n: nat)
    requires n <= MAX_SAFE
    ensures Doubles.RoundDecimal(n, 0, BIAS) == n * Doubles.Pow(2, BIAS)
    ensures WholeUnits(n * Doubles.Pow(2, BIAS)) == Some(n)
  {
    hide Doubles.Pow, Doubles.RoundDecimal, Doubles.IsDouble;
    Doubles.WholeIsDouble(n, BIAS);
    Doubles.PowIsPositive(2, BIAS);
    Doubles.DivideIs(n * Doubles.Pow(2, BIAS), Doubles.Pow(2, BIAS), n, 0);
  }

  lemma SafeTextReads(n: nat)
    ensures
      var t := Decimal(n);
      IsNumberText(t) && IsNumberText("-" + t) && Unsigned(t) == t && Unsigned("-" + t) == t && IsWhole(t)
  {
    DecimalDigits(n);
    PartsAreRead(Decimal(n), "", "");
    assert Decimal(n) + "" + "" == Decimal(n);
  }

  /** A safe integer written with a fraction is the double of that value. */
  lemma MarkedTextReads(n: nat)
    requires n <= MAX_SAFE
    ensures
      var t := Decimal(n) + ".0";
      && IsNumberText(t) && IsNumberText("-" + t) && Unsigned(t) == t && Unsigned("-" + t) == t && !IsWhole(t)
      && Nearest(t) == n * Doubles.Pow(2, BIAS)
  {
    hide Doubles.Pow, Doubles.RoundDecimal, Decimal;
    DecimalDigits(n);
    PartsAreRead(Decimal(n), "0", "");
    assert Decimal(n) + Dotted("0") + "" == Decimal(n) + ".0";
    ValueOfSum(Decimal(n), "0");
    assert DecimalValue("0") == 0;
    Doubles.DecimalShifts(n, 0, 1, BIAS);
    SafeIsWhole(n);
  }

  /** Every number is recovered from its text, so no two share a text. */
  lemma ClassifyOfText(x: Number)
    requires Valid(x)
    ensures Classify(Text(x)) == Some(x)
    ensures IsNumberText(Text(x))
  {
    hide Doubles.Pow, Doubles.IsDouble, Nearest, IsNumberText, Decimal, ShortestText, Unsigned, IsWhole, DecimalValue, Classify;
    hide WholeUnits;
    match x
    case Safe(n) =>
      SafeTextReads(Abs(n));
      DecimalDigits(Abs(n));
      WholeClassified(Decimal(Abs(n)), n < 0);
    case NegZero =>
      MarkedTextReads(0);
      DecimalDigits(0);
      Doubles.PowIsPositive(2, TOP);
      assert Decimal(0) + ".0" == "0.0" && "-" + "0.0" == "-0.0" && 0 * Doubles.Pow(2, BIAS) == 0;
      DoubleClassified("0.0", true);
    case Double(u) =>
      var t := DoubleText(Abs(u));
      assert "" + t == t;
      match WholeUnits(Abs(u))
      case Some(n) =>
        UnitsOfWhole(Abs(u));
        MarkedTextReads(n);
        DoubleClassified(t, u < 0);
      case None =>
        if u == 0 { ZeroIsWhole(); }
        ShortestTextReads(Abs(u));
        DoubleClassified(t, u < 0);
  }

  lemma ZeroIsWhole()
    ensures WholeUnits(0) == Some(0)
  {
    hide Doubles.Pow;
    Doubles.PowIsPositive(2, BIAS);
  }

  /** What a sign and the text of a safe integer are read as. */
  lemma WholeClassified(t: string, negative: bool)
    requires IsNumberText(t) && IsNumberText("-" + t) && Unsigned(t) == t && Unsigned("-" + t) == t
    requires IsWhole(t) && DecimalValue(t) <= MAX_SAFE && (negative ==> DecimalValue(t) > 0)
    ensures Classify(if negative then "-" + t else t) == Some(Safe(Signed(negative, DecimalValue(t))))
  {
    hide IsNumberText, Unsigned, IsWhole, DecimalValue, Nearest, Doubles.Pow;
    assert |"-" + t| == 1 + |t|;
  }

  /** What a sign and the text of a double are read as. */
  lemma DoubleClassified(t: string, negative: bool)
    requires IsNumberText(t) && IsNumberText("-" + t) && Unsigned(t) == t && Unsigned("-" + t) == t
    requires (IsWhole(t) ==> DecimalValue(t) > MAX_SAFE) && Nearest(t) < Doubles.Pow(2, TOP)
    ensures Classify(if negative then "-" + t else t) ==
      if negative && Nearest(t) == 0 then Some(NegZero) else Some(Double(Signed(negative, Nearest(t))))
  {
    hide IsNumberText, Unsigned, IsWhole, DecimalValue, Nearest, Doubles.Pow;
    assert |"-" + t| == 1 + |t|;
  }

  lemma UnitsOfWhole(u: nat)
    requires WholeUnits(u).Some?
    ensures u == WholeUnits(u).value * Doubles.Pow(2, BIAS) && WholeUnits(u).value <= MAX_SAFE
  {
    hide Doubles.Pow;
    Doubles.PowIsPositive(2, BIAS);
  }

  // ---------- The layout by magnitude ----------

  /** Whether `s * 10^x` is at least `10^e`. */
  predicate AtLeast(s: nat, x: int, e: int) {
    if x >= e then s * Doubles.Pow(10, x - e) >= 1 else s >= Doubles.Pow(10, e - x)
  }

  /** The power of ten at or below `s * 10^x`. */
  predicate IsMagnitude(s: nat, x: int, p: int) {
    AtLeast(s, x, p) && !AtLeast(s, x, p + 1)
  }

  lemma {:induction false} AtLeastLess(s: nat, x: int, e: int, f: int)
    requires e <= f && AtLeast(s, x, f)
    ensures AtLeast(s, x, e)
    decreases f - e
  {
    if e < f {
      var d := f - 1;
      if x >= d {
        Doubles.PowIsPositive(10, x - d);
        assert s > 0;
        Doubles.Monotone(1, s, Doubles.Pow(10, x - d));
      }
      AtLeastLess(s, x, e, d);
    }
  }

  lemma {:induction false} DecimalSize(s: nat)
    requires s > 0
    ensures Doubles.Pow(10, |Decimal(s)| - 1) <= s < Doubles.Pow(10, |Decimal(s)|)
  {
    if s >= 10 {
      DecimalSize(s / 10);
      var (q, k) := (s / 10, |Decimal(s / 10)|);
      assert Doubles.Pow(10, k) == 10 * Doubles.Pow(10, k - 1) && Doubles.Pow(10, k + 1) == 10 * Doubles.Pow(10, k);
    } else {
      assert Doubles.Pow(10, 0) == 1 && Doubles.Pow(10, 1) == 10 * Doubles.Pow(10, 0);
    }
  }

  lemma MagnitudeIs(s: nat, x: int, p: int)
    requires s > 0 && IsMagnitude(s, x, p)
    ensures p == |Decimal(s)| + x - 1
  {
    hide Doubles.Pow, Decimal;
    var n := |Decimal(s)| + x;
    DecimalSize(s);
    if x >= n - 1 {
      assert n - 1 == x && s * Doubles.Pow(10, 0) >= 1 by { Doubles.PowIsPositive(10, 0); Doubles.Monotone(1, s, Doubles.Pow(10, 0)); }
    }
    assert AtLeast(s, x, n - 1) && !AtLeast(s, x, n);
    if p >= n {
      AtLeastLess(s, x, n, p);
    } else if p + 1 <= n - 1 {
      AtLeastLess(s, x, p + 1, n - 1);
    }
  }

  /** One digit, and the others after a point. */
  function Mantissa(digits: string): string
    requires digits != ""
  {
    digits[..1] + (if |digits| == 1 then "" else "." + digits[1..])
  }

  /** `Number::toString`: from 10^21 on and below 10^-6 the exponent is written,
      with its sign; between them the digits are padded, split or led by zeros. */
  lemma LayoutByMagnitude(s: nat, x: int, p: int)
    requires s > 0 && IsMagnitude(s, x, p)
    ensures
      var (d, t) := (Decimal(s), Layout(Decimal(s), x));
      && (p >= 21 ==> t == Mantissa(d) + "e+" + Decimal(p))
      && (p < -6 ==> t == Mantissa(d) + "e-" + Decimal(-p))
      && (0 <= p < 21 && x >= 0 ==> t == d + Zeros(x))
      && (0 <= p < 21 && x < 0 ==> p + 1 < |d| && t == d[..p + 1] + "." + d[p + 1..])
      && (-6 <= p < 0 ==> t == "0." + Zeros(-p - 1) + d)
  {
    hide Decimal, AtLeast, Zeros;
    MagnitudeIs(s, x, p);
    var d := Decimal(s);
    if p >= 21 {
      assert Mantissa(d) + "e" + "+" + Decimal(p) == Mantissa(d) + "e+" + Decimal(p);
    } else if p < -6 {
      assert Mantissa(d) + "e" + "-" + Decimal(-p) == Mantissa(d) + "e-" + Decimal(-p);
    }
  }

  // ---------- What a text is read as ----------

  /** A text is read as the double nearest to what it says. */
  lemma ClassifyRounds(t: string, x: Number)
    requires Classify(t) == Some(x)
    ensures Valid(x) && Units(x) == Signed(Unsigned(t) != t, Nearest(Unsigned(t)))
  {
    hide Doubles.Pow, Doubles.RoundDecimal, Doubles.IsDouble, IsNumberText, DecimalValue, Nearest, Doubles.Round;
    var u := Unsigned(t);
    if IsWhole(u) && DecimalValue(u) <= MAX_SAFE {
      assert u[..|u|] + "" == u && u[|u|..] == "";
      NearestIs(u, DecimalValue(u), 0);
      SafeIsWhole(DecimalValue(u));
      Doubles.PowIsPositive(2, BIAS);
      Times(Signed(u != t, DecimalValue(u)), Doubles.Pow(2, BIAS));
    } else {
      NearestIsDouble(u);
    }
  }

  lemma NearestIsDouble(u: string)
    ensures Doubles.IsDouble(Nearest(u))
  {
    hide Doubles.Pow, Doubles.IsDouble, Doubles.Round, Magnitude, Scale;
    var (d, e) := (Magnitude(u), Scale(u));
    if e >= 0 {
      Doubles.RoundIsDouble(d * Doubles.Pow(10, e) * Doubles.Pow(2, BIAS), 1);
    } else {
      Doubles.PowIsPositive(10, -e);
      Doubles.RoundIsDouble(d * Doubles.Pow(2, BIAS), Doubles.Pow(10, -e));
    }
  }

  /** Two texts are one number in a canonical text exactly when the nearest
      doubles are the same, however the texts are written. */
  lemma OneDoubleManyTexts(t: string, x: Number, u: string, y: Number)
    requires Classify(t) == Some(x) && Classify(u) == Some(y)
    ensures AsDouble(x) == AsDouble(y) <==>
      Signed(Unsigned(t) != t, Nearest(Unsigned(t))) == Signed(Unsigned(u) != u, Nearest(Unsigned(u)))
  {
    hide Classify, Nearest, AsDouble, Units, Valid, Unsigned;
    ClassifyRounds(t, x);
    ClassifyRounds(u, y);
    SameDouble(x, y);
  }

  /** A zero in front of an exponent, or a fraction of zero, makes no other number. */
  lemma WritingsOfOneDouble()
    ensures Classify("1e-07") == Classify("1e-7")
    ensures Classify("1").Some? && Classify("1.0").Some? &&
      AsDouble(Classify("1.0").value) == AsDouble(Classify("1").value)
  {
    hide Doubles.Pow, Doubles.RoundDecimal, Classify, IsNumberText, AsDouble, Nearest;
    SmallTenth("07");
    SmallTenth("7");
    assert "1e-" + "07" == "1e-07" && "1e-" + "7" == "1e-7";
    MarkedOne();
  }

  lemma SmallTenth(seven: string)
    requires seven == "07" || seven == "7"
    ensures
      var t := "1e-" + seven;
      IsNumberText(t) && Unsigned(t) == t && !IsWhole(t) && Nearest(t) == Doubles.RoundDecimal(1, -7, BIAS)
    ensures Classify("1e-" + seven) ==
      if Doubles.RoundDecimal(1, -7, BIAS) >= Doubles.Pow(2, TOP) then None
      else Some(Double(Doubles.RoundDecimal(1, -7, BIAS)))
  {
    hide Doubles.Pow, Doubles.RoundDecimal, IsNumberText;
    var e := "e-" + seven;
    assert seven[1..] == "7" || seven[1..] == "";
    assert Digits("7") && Digits("1") && Digits("07");
    assert e[2..] == seven && IsWritten(e);
    assert "1" + Dotted("") + e == "1e-" + seven;
    PartsAreRead("1", "", e);
    SevenIs(seven);
    NearestIs("1e-" + seven, 1, -7);
  }

  lemma SevenIs(seven: string)
    requires seven == "07" || seven == "7"
    ensures ExponentValue("e-" + seven) == -7 && DecimalValue("1" + "") == 1
  {
    var e := "e-" + seven;
    assert e[1..] == "-" + seven && e[2..] == seven;
    assert "07"[..1] == "0" && "0"[..0] == "" && "7"[..0] == "" && "1" + "" == "1" && "1"[..0] == "";
    assert DecimalValue("") == 0 && DecimalValue("0") == 0 && DecimalValue("7") == 7 && DecimalValue("1") == 1;
    assert DecimalValue("07") == DecimalValue("0") * 10 + DigitOf('7');
  }

  lemma MarkedOne()
    ensures Classify("1").Some? && Classify("1.0").Some? &&
      AsDouble(Classify("1.0").value) == AsDouble(Classify("1").value)
  {
    hide Doubles.Pow, Doubles.RoundDecimal, Classify, Nearest, Unsigned, IsNumberText, IsWhole, WholeUnits, OfUnits, DecimalValue;
    DecimalDigits(1);
    assert Decimal(1) == "1" && Decimal(1) + ".0" == "1.0";
    SafeTextReads(1);
    WholeClassified("1", false);
    MarkedTextReads(1);
    OneIsBelowTop();
    DoubleClassified("1.0", false);
    WholeOf(1);
    Doubles.PowIsPositive(2, BIAS);
  }

  lemma OneIsBelowTop()
    ensures 1 * Doubles.Pow(2, BIAS) < Doubles.Pow(2, TOP)
  {
    hide Doubles.Pow;
    Doubles.PowAdds(2, BIAS, TOP - BIAS);
    Doubles.PowIsPositive(2, BIAS);
    PowIsTwice(TOP - BIAS);
    Doubles.Monotone(2, Doubles.Pow(2, TOP - BIAS), Doubles.Pow(2, BIAS));
  }

  lemma PowIsTwice(n: nat)
    requires n > 0
    ensures Doubles.Pow(2, n) >= 2
  {
    Doubles.PowIsPositive(2, n - 1);
  }
}
