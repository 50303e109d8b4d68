/** Values for HWP form fields: the number, date and business-number formats. */
module HwpFormat {
  import opened Text

  // ---- characters ----

  function Delete(s: string, c: char): string {
    if s == "" then "" else if s[0] == c then Delete(s[1..], c) else [s[0]] + Delete(s[1..], c)
  }

  function Replace(s: string, c: char, d: char): (r: string)
    ensures |r| == |s|
  {
    seq(|s|, i requires 0 <= i < |s| => if s[i] == c then d else s[i])
  }

  lemma {:induction false} DeleteAppend(a: string, b: string, c: char)
    ensures Delete(a + b, c) == Delete(a, c) + Delete(b, c)
  {
    if a == "" {
      assert a + b == b;
    } else {
      var rest := a[1..];
      DeleteAppend(rest, b, c);
      assert (a + b)[0] == a[0] && (a + b)[1..] == rest + b;
      assert [a[0]] + (Delete(rest, c) + Delete(b, c)) == ([a[0]] + Delete(rest, c)) + Delete(b, c);
    }
  }

  lemma {:induction false} DeleteNone(s: string, c: char)
    requires c !in s
    ensures Delete(s, c) == s
  {
    if s != "" {
      DeleteNone(s[1..], c);
      assert [s[0]] + s[1..] == s;
    }
  }

  // ---- decimal numerals ----

  predicate IsDigit(c: char) { '0' <= c <= '9' }

  predicate AllDigits(s: string) { forall i :: 0 <= i < |s| ==> IsDigit(s[i]) }

  function DigitChar(d: nat): (c: char)
    requires d < 10
    ensures IsDigit(c)
  {
    ('0' as int + d) as char
  }

  function DigitValue(c: char): (d: nat)
    requires IsDigit(c)
    ensures d < 10
  {
    c as int - '0' as int
  }

  /** str(n) */
  function Digits(n: nat): (s: string)
    ensures s != "" && AllDigits(s)
  {
    if n < 10 then [DigitChar(n)] else Digits(n / 10) + [DigitChar(n % 10)]
  }

  function ValueOf(s: string): nat
    requires AllDigits(s)
  {
    if s == "" then 0 else 10 * ValueOf(s[..|s| - 1]) + DigitValue(s[|s| - 1])
  }

  /** str(v) */
  function Canonical(v: int): string { if v < 0 then "-" + Digits(-v) else Digits(v) }

  lemma {:induction false} ValueOfDigits(n: nat)
    ensures ValueOf(Digits(n)) == n
  {
    var s := Digits(n);
    if n >= 10 {
      ValueOfDigits(n / 10);
      assert s[..|s| - 1] == Digits(n / 10);
    } else {
      assert s[..|s| - 1] == "";
    }
  }

  // ---- thousands ----

  function ThreeDigits(n: nat): (s: string)
    requires n < 1000
    ensures |s| == 3 && AllDigits(s)
  {
    [DigitChar(n / 100), DigitChar(n / 10 % 10), DigitChar(n % 10)]
  }

  /** f"{n:,}" */
  function Grouped(n: nat): string {
    if n < 1000 then Digits(n) else Grouped(n / 1000) + "," + ThreeDigits(n % 1000)
  }

  function GroupedInt(v: int): string { if v < 0 then "-" + Grouped(-v) else Grouped(v) }

  lemma DigitArithmetic(n: nat)
    ensures n / 10 / 10 == n / 100 && n / 100 / 10 == n / 1000
    ensures n % 1000 / 100 == n / 100 % 10 && n % 1000 / 10 % 10 == n / 10 % 10 && n % 1000 % 10 == n % 10
  {
  }

  lemma DigitsByThousands(n: nat)
    requires n >= 1000
    ensures Digits(n) == Digits(n / 1000) + ThreeDigits(n % 1000)
  {
    var a, b := n / 10, n / 100;
    DigitArithmetic(n);
    assert Digits(n) == Digits(a) + [DigitChar(n % 10)];
    assert Digits(a) == Digits(b) + [DigitChar(a % 10)];
    assert Digits(b) == Digits(n / 1000) + [DigitChar(b % 10)];
  }

  lemma {:induction false} GroupedDigits(n: nat)
    ensures Delete(Grouped(n), ',') == Digits(n)
    ensures Grouped(n) != "" && IsDigit(Grouped(n)[0]) && IsDigit(Grouped(n)[|Grouped(n)| - 1])
  {
    if n < 1000 {
      DeleteNone(Digits(n), ',');
    } else {
      GroupedDigits(n / 1000);
      DigitsByThousands(n);
      DeleteAppend(Grouped(n / 1000) + ",", ThreeDigits(n % 1000), ',');
      DeleteAppend(Grouped(n / 1000), ",", ',');
      assert Delete(",", ',') == "";
      DeleteNone(ThreeDigits(n % 1000), ',');
    }
  }

  predicate GroupOf(s: string, least: nat, most: nat) { least <= |s| <= most && AllDigits(s) }

  lemma {:induction false} SplitSnoc(a: string, b: string, sep: char)
    requires sep !in b
    ensures Split(a + [sep] + b, sep) == Split(a, sep) + [b]
  {
    if a == "" {
      SplitCons("", b, sep);
      SplitNone(b, sep);
    } else {
      var s := a + [sep] + b;
      SplitSnoc(a[1..], b, sep);
      assert s[1..] == a[1..] + [sep] + b;
    }
  }

  /** Between the commas: one to three digits first, then exactly three each. */
  lemma {:induction false} GroupedGroups(n: nat)
    ensures
      var groups := Split(Grouped(n), ',');
      GroupOf(groups[0], 1, 3) && forall i :: 0 < i < |groups| ==> GroupOf(groups[i], 3, 3)
  {
    if n < 1000 {
      SplitNone(Digits(n), ',');
      assert n >= 10 ==> Digits(n) == Digits(n / 10) + [DigitChar(n % 10)];
      assert n >= 100 ==> Digits(n / 10) == Digits(n / 100) + [DigitChar(n / 10 % 10)];
    } else {
      GroupedGroups(n / 1000);
      SplitSnoc(Grouped(n / 1000), ThreeDigits(n % 1000), ',');
    }
  }

  // ---- Decimal ----

  /** The most digits an int prints (sys.int_info.default_max_str_digits). */
  const MAX_STR_DIGITS := 4300

  /** Exponents of the decimal type on 64 bits: the greatest, and the least of the last digit. */
  const MAX_EXPONENT := 999_999_999_999_999_999
  const MIN_EXPONENT := -1_999_999_999_999_999_997

  /** Decimal(text): a finite number (-1)^negative * coefficient * 10^exponent, an infinity, a quiet or a signalling
      NaN, or InvalidOperation. */
  datatype Decimal =
    | Finite(negative: bool, coefficient: nat, exponent: int) | Infinite
    | QuietNaN(negative: bool, payload: string) | SignallingNaN | Invalid

  function SignOf(s: string): (bool, string) {
    if s != "" && s[0] == '-' then (true, s[1..])
    else if s != "" && s[0] == '+' then (false, s[1..])
    else (false, s)
  }

  function Sign(negative: bool): string { if negative then "-" else "" }

  function Lowered(s: string): (r: string)
    ensures |r| == |s|
  {
    seq(|s|, i requires 0 <= i < |s| => if 'A' <= s[i] <= 'Z' then (s[i] as int + 32) as char else s[i])
  }

  predicate IsInfinity(s: string) { s == "inf" || s == "infinity" }

  predicate IsNaN(s: string) { 3 <= |s| && s[..3] == "nan" && AllDigits(s[3..]) }

  predicate IsSignalling(s: string) { 1 <= |s| && s[0] == 's' && IsNaN(s[1..]) }

  predicate Representable(coefficient: nat, exponent: int) {
    MIN_EXPONENT <= exponent && |Digits(coefficient)| + exponent - 1 <= MAX_EXPONENT
  }

  function Checked(negative: bool, coefficient: nat, exponent: int): Decimal {
    if Representable(coefficient, exponent) then Finite(negative, coefficient, exponent) else Invalid
  }

  /** A mantissa, split at its points, and an exponent */
  function Scaled(negative: bool, mantissa: seq<string>, exponent: int): Decimal
    requires mantissa != []
  {
    var whole, fraction := mantissa[0], if |mantissa| == 2 then mantissa[1] else "";
    if |mantissa| > 2 || !AllDigits(whole + fraction) || whole + fraction == "" then Invalid
    else Checked(negative, ValueOf(whole + fraction), exponent - |fraction|)
  }

  /** digits, at most one point, optional exponent */
  function Number(negative: bool, s: string): Decimal {
    var parts := Split(s, 'e');
    var (down, exponent) := if |parts| == 2 then SignOf(parts[1]) else (false, "0");
    if |parts| > 2 || exponent == "" || !AllDigits(exponent) then Invalid
    else Scaled(negative, Split(parts[0], '.'), if down then -(ValueOf(exponent) as int) else ValueOf(exponent))
  }

  /** The text without outer white space, underscores and case. */
  function Cleaned(text: string): string { Lowered(Delete(Strip(text), '_')) }

  function ToDecimal(text: string): Decimal {
    var (negative, s) := SignOf(Cleaned(text));
    if IsInfinity(s) then Infinite
    else if IsNaN(s) then QuietNaN(negative, s[3..])
    else if IsSignalling(s) then SignallingNaN
    else Number(negative, s)
  }

  function Power10(n: nat): (p: nat)
    ensures p >= 1
  {
    if n == 0 then 1 else 10 * Power10(n - 1)
  }

  /** number == number.to_integral() */
  predicate IsInteger(d: Decimal)
    requires d.Finite?
  {
    d.exponent >= 0 || d.coefficient % Power10(-d.exponent) == 0
  }

  /** abs(int(number)) */
  function Magnitude(d: Decimal): nat
    requires d.Finite? && IsInteger(d)
  {
    if d.exponent >= 0 then d.coefficient * Power10(d.exponent) else d.coefficient / Power10(-d.exponent)
  }

  /** int(number) */
  function IntOf(d: Decimal): int
    requires d.Finite? && IsInteger(d)
  {
    if d.negative then -(Magnitude(d) as int) else Magnitude(d)
  }

  // ---- hundredths ----

  /** n / p rounded to the nearest integer, halves to even */
  function HalfEven(n: nat, p: nat): nat
    requires p > 0
  {
    var q, r := n / p, n % p;
    if 2 * r > p || (2 * r == p && q % 2 == 1) then q + 1 else q
  }

  /** The hundredths that a fraction rounds to. */
  function Hundredths(d: Decimal): nat
    requires d.Finite? && !IsInteger(d)
  {
    HalfEven(100 * d.coefficient, Power10(-d.exponent))
  }

  /** s.rstrip(c) */
  function TrimRight(s: string, c: char): (r: string)
    ensures r <= s && (r != "" ==> r[|r| - 1] != c)
  {
    if s != "" && s[|s| - 1] == c then TrimRight(s[..|s| - 1], c) else s
  }

  function TrimLeft(s: string, c: char): (r: string)
    ensures r != "" ==> r[0] != c
  {
    if s != "" && s[0] == c then TrimLeft(s[1..], c) else s
  }

  /** .rstrip("0").rstrip(".") */
  function Trimmed(s: string): string { TrimRight(TrimRight(s, '0'), '.') }

  function TwoDigits(n: nat): (s: string)
    requires n < 100
    ensures |s| == 2 && AllDigits(s)
  {
    [DigitChar(n / 10), DigitChar(n % 10)]
  }

  /** f"{number:,.2f}" of a fraction, and of a quiet NaN, trimmed */
  function Fixed(d: Decimal): string
    requires d.QuietNaN? || (d.Finite? && !IsInteger(d))
  {
    match d
    case QuietNaN(negative, payload) => Trimmed(Sign(negative) + "NaN" + TrimLeft(payload, '0'))
    case Finite(negative, _, _) =>
      Trimmed(Sign(negative) + Grouped(Hundredths(d) / 100) + "." + TwoDigits(Hundredths(d) % 100))
  }

  function Formatted(d: Decimal): Option<string>
    requires !d.Invalid?
  {
    if d.Infinite? || d.SignallingNaN? then None
    else if d.Finite? && IsInteger(d) then
      if |Digits(Magnitude(d))| > MAX_STR_DIGITS then None else Some(GroupedInt(IntOf(d)))
    else Some(Fixed(d))
  }

  /** _format_number; None when it raises: comparing a signalling NaN is an invalid operation, an infinity equals its
      integral value but int() overflows on it, and an integer of too many digits does not print. */
  function FormatNumber(text: string): Option<string> {
    var value := Delete(Strip(text), ',');
    if value == "" then Some("")
    else
      var d := ToDecimal(value);
      if d.Invalid? then Some(Strip(text)) else Formatted(d)
  }

  // ---- when it raises ----

  lemma DigitsTimesTen(n: nat)
    requires n > 0
    ensures Digits(10 * n) == Digits(n) + "0"
  {
    assert 10 * n / 10 == n && 10 * n % 10 == 0;
  }

  lemma TimesTen(c: nat, p: nat)
    ensures c * (10 * p) == 10 * (c * p)
  {
  }

  lemma {:induction false} DigitsScaled(c: nat, k: nat)
    requires c > 0
    ensures c * Power10(k) > 0 && |Digits(c * Power10(k))| == |Digits(c)| + k
  {
    if k == 0 {
      assert Power10(0) == 1;
    } else {
      DigitsScaled(c, k - 1);
      TimesTen(c, Power10(k - 1));
      DigitsTimesTen(c * Power10(k - 1));
    }
  }

  lemma MagnitudeDigits(d: Decimal)
    requires d.Finite? && IsInteger(d)
    ensures d.coefficient == 0 ==> Magnitude(d) == 0
    ensures d.coefficient > 0 ==> |Digits(Magnitude(d))| == |Digits(d.coefficient)| + d.exponent
  {
    if d.exponent >= 0 {
      if d.coefficient > 0 { DigitsScaled(d.coefficient, d.exponent); }
    } else {
      assert d.coefficient == Magnitude(d) * Power10(-d.exponent);
      if d.coefficient > 0 { DigitsScaled(Magnitude(d), -d.exponent); }
    }
  }

  /** An integer of more digits than int prints, counted without computing it. */
  predicate TooLong(d: Decimal) {
    d.Finite? && IsInteger(d) && d.coefficient > 0 && |Digits(d.coefficient)| + d.exponent > MAX_STR_DIGITS
  }

  /** The format raises exactly on texts that read as an infinity, a signalling NaN, or an integer of more than 4300
      digits. */
  lemma FormatRaises(text: string)
    ensures
      var value := Delete(Strip(text), ',');
      var s := SignOf(Cleaned(value)).1;
      FormatNumber(text) == None <==> IsInfinity(s) || IsSignalling(s) || TooLong(ToDecimal(value))
  {
    var value := Delete(Strip(text), ',');
    var s := SignOf(Cleaned(value)).1;
    NaNStartsWithN(s);
    if value == "" {
      assert s == "";
    } else if ToDecimal(value).Finite? && IsInteger(ToDecimal(value)) {
      MagnitudeDigits(ToDecimal(value));
      assert Digits(0) == "0";
    }
  }

  lemma NaNStartsWithN(s: string)
    ensures IsNaN(s) ==> s[0] == 'n'
  {
    if IsNaN(s) { assert s[..3][0] == s[0]; }
  }

  lemma PlainText(text: string)
    requires Stripped(text) && ',' !in text && '_' !in text
    ensures Delete(Strip(text), ',') == text && Cleaned(text) == Lowered(text)
  {
    StripFixed(text);
    DeleteNone(text, ',');
    DeleteNone(text, '_');
  }

  lemma NotSpecial(s: string)
    requires s != "" && IsDigit(s[0])
    ensures !IsInfinity(s) && !IsNaN(s) && !IsSignalling(s)
  {
    assert !IsDigit('i') && !IsDigit('n') && !IsDigit('s') && "nan"[0] == 'n';
  }

  predicate IsOrdinary(c: char) { IsDigit(c) || c == '-' || c == '.' || c == 'e' }

  lemma OrdinaryChar(c: char)
    requires IsOrdinary(c)
    ensures !IsSpace(c) && !('A' <= c <= 'Z')
  {
  }

  lemma OrdinaryLacks(s: string, c: char)
    requires (forall i :: 0 <= i < |s| ==> IsOrdinary(s[i])) && !IsOrdinary(c)
    ensures Delete(s, c) == s
  {
    assert forall i :: 0 <= i < |s| ==> s[i] != c;
    DeleteNone(s, c);
  }

  lemma OrdinaryIsLow(s: string)
    requires forall i :: 0 <= i < |s| ==> IsOrdinary(s[i])
    ensures Lowered(s) == s
  {
    forall i | 0 <= i < |s|
      ensures Lowered(s)[i] == s[i]
    {
      OrdinaryChar(s[i]);
    }
  }

  lemma OrdinaryIsClean(s: string)
    requires s != "" && forall i :: 0 <= i < |s| ==> IsOrdinary(s[i])
    ensures Strip(s) == s && Delete(s, ',') == s && Cleaned(s) == s
  {
    OrdinaryChar(s[0]);
    OrdinaryChar(s[|s| - 1]);
    StripFixed(s);
    OrdinaryLacks(s, ',');
    OrdinaryLacks(s, '_');
    OrdinaryIsLow(s);
  }

  /** Digits, points and exponent letters behind an optional sign reach the number parser as they are. */
  lemma OrdinaryReads(negative: bool, body: string)
    requires body != "" && IsDigit(body[0]) && forall i :: 0 <= i < |body| ==> IsOrdinary(body[i])
    ensures Strip(Sign(negative) + body) == Sign(negative) + body
    ensures Delete(Sign(negative) + body, ',') == Sign(negative) + body
    ensures ToDecimal(Sign(negative) + body) == Number(negative, body)
  {
    OrdinaryIsClean(Sign(negative) + body);
    SignedBody(negative, body);
    NotSpecial(body);
  }

  lemma SignedBody(negative: bool, body: string)
    requires body != "" && body[0] != '-' && body[0] != '+'
    ensures SignOf(Sign(negative) + body) == (negative, body)
  {
    if negative { assert ("-" + body)[1..] == body; } else { assert "" + body == body; }
  }

  lemma InfinityRaises()
    ensures FormatNumber("inf") == None
  {
    PlainText("inf");
    assert Lowered("inf") == "inf";
    FormatRaises("inf");
  }

  lemma SnanIsSignalling()
    ensures IsSignalling("snan")
  {
    assert "snan"[1..] == "nan" && "nan"[3..] == "";
  }

  lemma SignallingRaises()
    ensures FormatNumber("sNaN") == None
  {
    PlainText("sNaN");
    assert Lowered("sNaN") == "snan";
    SnanIsSignalling();
    FormatRaises("sNaN");
  }

  lemma PowerParses(n: nat)
    requires n <= MAX_EXPONENT
    ensures Number(false, "1e" + Digits(n)) == Finite(false, 1, n)
  {
    var exponent := Digits(n);
    SplitNone(exponent, 'e');
    assert "1e" + exponent == "1" + ['e'] + exponent;
    SplitCons("1", exponent, 'e');
    SplitNone("1", '.');
    assert "1" + "" == "1" && "1"[..0] == "" && ValueOf("1") == 1;
    ValueOfDigits(n);
    assert SignOf(exponent) == (false, exponent);
    assert |Digits(1)| == 1;
  }

  lemma PowerRaises(n: nat)
    requires MAX_STR_DIGITS <= n <= MAX_EXPONENT
    ensures FormatNumber("1e" + Digits(n)) == None
  {
    var text := "1e" + Digits(n);
    OrdinaryReads(false, text);
    assert Sign(false) + text == text;
    PowerParses(n);
    assert |Digits(1)| == 1;
    FormatRaises(text);
  }

  /** "1e4300" is an integer of 4301 digits. */
  lemma DigitsOfLimit(n: nat)
    requires n == MAX_STR_DIGITS
    ensures Digits(n) == "4300"
  {
    assert Digits(n) == Digits(n / 10) + "0" && n / 10 == 430;
    assert Digits(n / 10) == Digits(n / 100) + "0" && n / 100 == 43;
  }

  lemma LongIntegerRaises() returns (text: string)
    ensures text == "1e4300" && FormatNumber(text) == None
  {
    var n :| n == MAX_STR_DIGITS;
    text := "1e" + Digits(n);
    PowerRaises(n);
    DigitsOfLimit(n);
  }

  // ---- integers ----

  lemma GroupedIntFacts(v: int)
    ensures Delete(GroupedInt(v), ',') == Canonical(v)
    ensures Strip(GroupedInt(v)) == GroupedInt(v)
  {
    var n: nat := if v < 0 then -v else v;
    GroupedDigits(n);
    if v < 0 {
      DeleteAppend("-", Grouped(n), ',');
      DeleteNone("-", ',');
    }
    var s := GroupedInt(v);
    assert s[0] == if v < 0 then '-' else Grouped(n)[0];
    assert s[|s| - 1] == Grouped(n)[|Grouped(n)| - 1];
    OrdinaryChar(s[0]);
    OrdinaryChar(s[|s| - 1]);
    StripFixed(s);
  }

  /** An integer of at most 4300 digits prints in groups of three digits; without the commas it is the canonical
      numeral of that integer. */
  lemma IntegerFormat(text: string)
    requires
      var d := ToDecimal(Delete(Strip(text), ','));
      Delete(Strip(text), ',') != "" && d.Finite? && IsInteger(d)
    ensures
      var d := ToDecimal(Delete(Strip(text), ','));
      var v, r := IntOf(d), FormatNumber(text);
      && (r.Some? <==> |Digits(Magnitude(d))| <= MAX_STR_DIGITS)
      && (r.Some? ==>
            && Delete(r.value, ',') == Canonical(v)
            && (v < 0 ==> r.value != "" && r.value[0] == '-')
            && (var groups := Split(if v < 0 then r.value[1..] else r.value, ',');
                GroupOf(groups[0], 1, 3) && forall i :: 0 < i < |groups| ==> GroupOf(groups[i], 3, 3)))
  {
    var v := IntOf(ToDecimal(Delete(Strip(text), ',')));
    GroupedIntFacts(v);
    GroupedIntGroups(v);
  }

  lemma GroupedIntGroups(v: int)
    ensures v < 0 ==> GroupedInt(v) != "" && GroupedInt(v)[0] == '-'
    ensures
      var groups := Split(if v < 0 then GroupedInt(v)[1..] else GroupedInt(v), ',');
      GroupOf(groups[0], 1, 3) && forall i :: 0 < i < |groups| ==> GroupOf(groups[i], 3, 3)
  {
    GroupedGroups(if v < 0 then -v else v);
    if v < 0 { assert GroupedInt(v)[1..] == Grouped(-v); }
  }

  // ---- fractions ----

  lemma TrimSnoc(s: string, d: char, c: char)
    ensures TrimRight(s + [d], c) == if d == c then TrimRight(s, c) else s + [d]
  {
    assert (s + [d])[..|s|] == s;
  }

  /** The decimals of so many hundredths, without trailing zeros. */
  function Decimals(h: nat): string {
    if h % 100 == 0 then ""
    else if h % 10 == 0 then ['.', DigitChar(h / 10 % 10)]
    else ['.', DigitChar(h / 10 % 10), DigitChar(h % 10)]
  }

  lemma HundredthsTrim(s: string, a: nat, b: nat)
    requires s != "" && IsDigit(s[|s| - 1]) && a < 10 && b < 10
    ensures Trimmed(s + "." + [DigitChar(a), DigitChar(b)]) ==
            if b != 0 then s + "." + [DigitChar(a), DigitChar(b)] else if a != 0 then s + "." + [DigitChar(a)] else s
  {
    var point := s + ".";
    var tens := point + [DigitChar(a)];
    assert point + [DigitChar(a), DigitChar(b)] == tens + [DigitChar(b)];
    TrimSnoc(tens, DigitChar(b), '0');
    if b != 0 {
      TrimSnoc(tens, DigitChar(b), '.');
    } else {
      TrimSnoc(point, DigitChar(a), '0');
      if a != 0 {
        TrimSnoc(point, DigitChar(a), '.');
      } else {
        TrimSnoc(s, '.', '0');
        TrimSnoc(s, '.', '.');
      }
    }
  }

  /** h is the integer nearest to n / p, the even one of two. */
  predicate Nearest(n: int, p: int, h: int) {
    -p <= 2 * (n - h * p) <= p && (2 * (n - h * p) == p || 2 * (n - h * p) == -p ==> h % 2 == 0)
  }

  lemma HalfEvenIsNearest(n: nat, p: nat)
    requires p > 0
    ensures Nearest(n, p, HalfEven(n, p))
  {
    var q, r := n / p, n % p;
    assert n == q * p + r;
    assert (q + 1) * p == q * p + p;
  }

  /** A fraction prints as the nearest number of hundredths, a tie as the even one: the whole part in groups of three
      digits, then the decimals without trailing zeros. */
  lemma FractionFormat(text: string)
    requires
      var d := ToDecimal(Delete(Strip(text), ','));
      Delete(Strip(text), ',') != "" && d.Finite? && !IsInteger(d)
    ensures
      var d := ToDecimal(Delete(Strip(text), ','));
      var h, p := Hundredths(d), Power10(-d.exponent);
      && FormatNumber(text) == Some(Sign(d.negative) + Grouped(h / 100) + Decimals(h))
      && Nearest(100 * d.coefficient, p, h)
  {
    var d := ToDecimal(Delete(Strip(text), ','));
    FixedText(d);
    HalfEvenIsNearest(100 * d.coefficient, Power10(-d.exponent));
  }

  lemma FixedText(d: Decimal)
    requires d.Finite? && !IsInteger(d)
    ensures
      var h := Hundredths(d);
      Fixed(d) == Sign(d.negative) + Grouped(h / 100) + Decimals(h)
  {
    var h := Hundredths(d);
    var s := Sign(d.negative) + Grouped(h / 100);
    GroupedDigits(h / 100);
    assert s[|s| - 1] == Grouped(h / 100)[|Grouped(h / 100)| - 1];
    HundredthsTrim(s, h / 10 % 10, h % 10);
    DecimalsAre(s, h);
  }

  lemma HundredthDigits(h: nat)
    ensures h % 100 / 10 == h / 10 % 10 && h % 100 % 10 == h % 10
    ensures h % 100 == 0 <==> h / 10 % 10 == 0 && h % 10 == 0
  {
    var tens, b := h / 10, h % 10;
    var c, a := tens / 10, tens % 10;
    assert h == 100 * c + (10 * a + b);
    assert 0 <= 10 * a + b < 100;
    assert h % 100 == 10 * a + b;
  }

  lemma DecimalsAre(s: string, h: nat)
    ensures
      var a, b := h / 10 % 10, h % 10;
      && s + "." + TwoDigits(h % 100) == s + "." + [DigitChar(a), DigitChar(b)]
      && s + Decimals(h) == if b != 0 then s + "." + [DigitChar(a), DigitChar(b)]
                            else if a != 0 then s + "." + [DigitChar(a)] else s
  {
    HundredthDigits(h);
  }

  /** The numeral of so many hundredths, without commas. */
  function Plain(negative: bool, h: nat): string { Sign(negative) + Digits(h / 100) + Decimals(h) }

  lemma GroupedPlain(negative: bool, h: nat)
    ensures
      var s := Sign(negative) + Grouped(h / 100) + Decimals(h);
      Strip(s) == s && Delete(s, ',') == Plain(negative, h) && s != ""
  {
    var s := Sign(negative) + Grouped(h / 100) + Decimals(h);
    GroupedDigits(h / 100);
    DeleteAppend(Sign(negative) + Grouped(h / 100), Decimals(h), ',');
    DeleteAppend(Sign(negative), Grouped(h / 100), ',');
    DeleteNone(Sign(negative), ',');
    DeleteNone(Decimals(h), ',');
    GroupedEnds(negative, h);
    StripFixed(s);
  }

  lemma GroupedEnds(negative: bool, h: nat)
    ensures Stripped(Sign(negative) + Grouped(h / 100) + Decimals(h))
  {
    var whole, s := Grouped(h / 100), Sign(negative) + Grouped(h / 100) + Decimals(h);
    GroupedDigits(h / 100);
    assert s[0] == if negative then '-' else whole[0];
    assert s[|s| - 1] == if h % 100 == 0 then whole[|whole| - 1] else Decimals(h)[|Decimals(h)| - 1];
    OrdinaryChar(s[0]);
    OrdinaryChar(s[|s| - 1]);
  }

  lemma ValueOfSnoc(s: string, d: nat)
    requires AllDigits(s) && d < 10
    ensures AllDigits(s + [DigitChar(d)]) && ValueOf(s + [DigitChar(d)]) == 10 * ValueOf(s) + d
  {
    assert (s + [DigitChar(d)])[..|s|] == s;
  }

  /** The digits of so many hundredths with as many decimals as it takes. */
  function Coefficient(h: nat): nat { if h % 100 == 0 then h / 100 else if h % 10 == 0 then h / 10 else h }

  function Exponent(h: nat): int { if h % 100 == 0 then 0 else if h % 10 == 0 then -1 else -2 }

  lemma DecimalsValue(h: nat)
    ensures
      var fraction := if h % 100 == 0 then "" else Decimals(h)[1..];
      && AllDigits(Digits(h / 100) + fraction) && |fraction| == -Exponent(h)
      && ValueOf(Digits(h / 100) + fraction) == Coefficient(h)
  {
    var whole, a, b := Digits(h / 100), h / 10 % 10, h % 10;
    ValueOfDigits(h / 100);
    assert h / 10 == h / 100 * 10 + a && h == h / 10 * 10 + b;
    ValueOfSnoc(whole, a);
    ValueOfSnoc(whole + [DigitChar(a)], b);
    assert whole + "" == whole;
    assert whole + [DigitChar(a), DigitChar(b)] == whole + [DigitChar(a)] + [DigitChar(b)];
    if h % 100 != 0 {
      assert Decimals(h)[1..] == if h % 10 == 0 then [DigitChar(a)] else [DigitChar(a), DigitChar(b)];
    }
  }

  /** Digits, and behind a point more digits. */
  function Pointed(whole: string, fraction: string): string { if fraction == "" then whole else whole + "." + fraction }

  lemma PointedSplits(whole: string, fraction: string)
    requires AllDigits(whole) && AllDigits(fraction)
    ensures Split(Pointed(whole, fraction), 'e') == [Pointed(whole, fraction)]
    ensures Split(Pointed(whole, fraction), '.') == if fraction == "" then [whole] else [whole, fraction]
  {
    SplitNone(Pointed(whole, fraction), 'e');
    SplitNone(whole, '.');
    SplitNone(fraction, '.');
    SplitCons(whole, fraction, '.');
    assert whole + "." + fraction == whole + ['.'] + fraction;
  }

  lemma ZeroValue()
    ensures ValueOf("0") == 0
  {
    assert "0"[..0] == "";
  }

  lemma NoExponent(negative: bool, s: string)
    requires Split(s, 'e') == [s]
    ensures Number(negative, s) == Scaled(negative, Split(s, '.'), 0)
  {
    ZeroValue();
  }

  lemma PointedParses(negative: bool, whole: string, fraction: string)
    requires AllDigits(whole) && AllDigits(fraction) && whole != ""
    ensures Number(negative, Pointed(whole, fraction)) == Checked(negative, ValueOf(whole + fraction), -|fraction|)
  {
    PointedSplits(whole, fraction);
    NoExponent(negative, Pointed(whole, fraction));
  }

  lemma NumeralParses(negative: bool, h: nat)
    ensures Number(negative, Digits(h / 100) + Decimals(h)) == Checked(negative, Coefficient(h), Exponent(h))
  {
    var whole, fraction := Digits(h / 100), if h % 100 == 0 then "" else Decimals(h)[1..];
    DecimalsValue(h);
    assert Digits(h / 100) + Decimals(h) == Pointed(whole, fraction);
    PointedParses(negative, whole, fraction);
  }

  lemma PlainParses(negative: bool, h: nat)
    ensures Plain(negative, h) != ""
    ensures ToDecimal(Plain(negative, h)) == Checked(negative, Coefficient(h), Exponent(h))
  {
    var body := Digits(h / 100) + Decimals(h);
    assert Plain(negative, h) == Sign(negative) + body;
    OrdinaryReads(negative, body);
    NumeralParses(negative, h);
  }

  /** Reading a canonical numeral gives the number back, up to the size of the decimal type. */
  lemma CanonicalParses(v: int)
    ensures
      var d := ToDecimal(Canonical(v));
      && (d.Finite? <==> |Digits(if v < 0 then -v else v)| <= MAX_EXPONENT + 1)
      && (d.Finite? ==> IsInteger(d) && IntOf(d) == v)
  {
    var n: nat := if v < 0 then -v else v;
    assert 100 * n / 100 == n && 100 * n % 100 == 0;
    assert Canonical(v) == Plain(v < 0, 100 * n);
    PlainParses(v < 0, 100 * n);
    assert Power10(0) == 1;
  }

  // ---- formatting twice ----

  lemma BlankTwice()
    ensures FormatNumber("") == Some("") && ToDecimal("").Invalid?
  {
    assert Cleaned("") == "";
  }

  lemma HundredthsRead(negative: bool, h: nat)
    ensures
      var s := Sign(negative) + Grouped(h / 100) + Decimals(h);
      var d := Checked(negative, Coefficient(h), Exponent(h));
      FormatNumber(s) == if d.Invalid? then Some(s) else Formatted(d)
  {
    GroupedPlain(negative, h);
    PlainParses(negative, h);
  }

  lemma WholeTwice(negative: bool, n: nat)
    ensures
      var d := Finite(negative, n, 0);
      IsInteger(d) && Magnitude(d) == n
          && (GroupedInt(IntOf(d)) == Sign(negative) + Grouped(n) <==> !(negative && n == 0))
  {
    assert Power10(0) == 1;
    assert Grouped(0) == "0";
  }

  lemma MagnitudeOfInt(d: Decimal)
    requires d.Finite? && IsInteger(d)
    ensures Magnitude(d) == if IntOf(d) < 0 then -IntOf(d) else IntOf(d)
  {
  }

  lemma IntegerTwice(v: int)
    requires |Digits(if v < 0 then -v else v)| <= MAX_STR_DIGITS
    ensures FormatNumber(GroupedInt(v)) == Some(GroupedInt(v))
  {
    GroupedIntFacts(v);
    CanonicalParses(v);
    MagnitudeOfInt(ToDecimal(Canonical(v)));
  }

  lemma ExactHundredths(h: nat)
    requires h % 100 != 0
    ensures
      var p := Power10(-Exponent(h));
      Coefficient(h) % p != 0 && HalfEven(100 * Coefficient(h), p) == h
  {
    assert Power10(0) == 1 && Power10(1) == 10 && Power10(2) == 100;
    if h % 10 == 0 {
      assert h == 10 * (h / 10);
      assert 100 * (h / 10) == 10 * h;
    }
  }

  lemma FractionTwice(negative: bool, h: nat)
    requires h % 100 != 0
    ensures
      var d := Finite(negative, Coefficient(h), Exponent(h));
      !IsInteger(d) && Fixed(d) == Sign(negative) + Grouped(h / 100) + Decimals(h)
  {
    ExactHundredths(h);
    FixedText(Finite(negative, Coefficient(h), Exponent(h)));
  }

  lemma HundredthsTwice(negative: bool, h: nat)
    ensures
      var s := Sign(negative) + Grouped(h / 100) + Decimals(h);
      FormatNumber(s) == Some(s)
      <==> !(h % 100 == 0 && ((negative && h == 0) || MAX_STR_DIGITS < |Digits(h / 100)| <= MAX_EXPONENT + 1))
  {
    var s, d := Sign(negative) + Grouped(h / 100) + Decimals(h), Checked(negative, Coefficient(h), Exponent(h));
    HundredthsRead(negative, h);
    if !d.Invalid? {
      if h % 100 == 0 {
        WholeTwice(negative, h / 100);
        assert s == Sign(negative) + Grouped(h / 100);
        assert |Digits(0)| == 1;
      } else {
        FractionTwice(negative, h);
      }
    }
  }

  lemma {:induction false} TrimAfter(s: string, t: string, c: char)
    requires s != "" && s[|s| - 1] != c
    ensures TrimRight(s + t, c) == s + TrimRight(t, c)
  {
    if t == "" {
      assert s + t == s;
    } else {
      var front, last := t[..|t| - 1], t[|t| - 1];
      assert s + t == (s + front) + [last] && t == front + [last];
      TrimSnoc(s + front, last, c);
      TrimSnoc(front, last, c);
      TrimAfter(s, front, c);
    }
  }

  lemma NaNText(negative: bool, payload: string)
    requires AllDigits(payload)
    ensures
      var p := TrimRight(TrimLeft(payload, '0'), '0');
      && Fixed(QuietNaN(negative, payload)) == Sign(negative) + "NaN" + p
      && AllDigits(p) && TrimLeft(p, '0') == p && TrimRight(p, '0') == p
  {
    var left := TrimLeft(payload, '0');
    var s, p := Sign(negative) + "NaN", TrimRight(left, '0');
    TrimLeftDigits(payload);
    TrimAfter(s, left, '0');
    assert TrimRight(s + p, '.') == s + p;
  }

  lemma {:induction false} TrimLeftDigits(s: string)
    requires AllDigits(s)
    ensures AllDigits(TrimLeft(s, '0'))
  {
    if s != "" { TrimLeftDigits(s[1..]); }
  }

  lemma NaNStrips(negative: bool, p: string)
    requires AllDigits(p)
    ensures
      var s := Sign(negative) + "NaN" + p;
      Strip(s) == s && Delete(s, ',') == s && Delete(s, '_') == s
  {
    var s := Sign(negative) + "NaN" + p;
    assert forall i :: 0 <= i < |s| ==> s[i] == '-' || s[i] == 'N' || s[i] == 'a' || IsDigit(s[i]);
    assert s[|s| - 1] == if p == "" then 'N' else p[|p| - 1];
    assert s[0] == if negative then '-' else 'N';
    StripFixed(s);
    DeleteNone(s, ',');
    DeleteNone(s, '_');
  }

  lemma NaNIsNaN(p: string)
    requires AllDigits(p)
    ensures
      var s := "nan" + p;
      !IsInfinity(s) && IsNaN(s) && s[3..] == p
  {
    var s := "nan" + p;
    assert s[..3] == "nan" && s[3..] == p;
    assert "inf"[0] == 'i' && "infinity"[0] == 'i' && s[0] == 'n';
  }

  lemma NaNParses(negative: bool, p: string)
    requires AllDigits(p)
    ensures
      var s := Sign(negative) + "NaN" + p;
      Strip(s) == s && Delete(s, ',') == s && ToDecimal(s) == QuietNaN(negative, p)
  {
    NaNStrips(negative, p);
    LoweredNaN(negative, p);
    SignedBody(negative, "nan" + p);
    NaNIsNaN(p);
  }

  lemma LoweredNaN(negative: bool, p: string)
    requires AllDigits(p)
    ensures Lowered(Sign(negative) + "NaN" + p) == Sign(negative) + ("nan" + p)
  {
  }

  lemma NaNTwice(d: Decimal)
    requires d.QuietNaN? && AllDigits(d.payload)
    ensures FormatNumber(Fixed(d)) == Some(Fixed(d))
  {
    var p := TrimRight(TrimLeft(d.payload, '0'), '0');
    NaNText(d.negative, d.payload);
    NaNParses(d.negative, p);
    NaNText(d.negative, p);
  }

  /** A fraction that rounds to a negative zero, or to a whole number too long to print. */
  predicate Unstable(d: Decimal) {
    && d.Finite? && !IsInteger(d) && Hundredths(d) % 100 == 0
    && ((d.negative && Hundredths(d) == 0)
        || MAX_STR_DIGITS < |Digits(Hundredths(d) / 100)| <= MAX_EXPONENT + 1)
  }

  /** A formatted text formats to itself, except when it came from such a fraction. */
  lemma NumberFormatIsIdempotent(text: string)
    requires FormatNumber(text).Some?
    ensures
      var value := Delete(Strip(text), ',');
      FormatNumber(FormatNumber(text).value) == FormatNumber(text) <==> !Unstable(ToDecimal(value))
  {
    var value := Delete(Strip(text), ',');
    var d := ToDecimal(value);
    if value == "" {
      BlankTwice();
    } else if d.Invalid? {
      StripStrips(text);
    } else if d.QuietNaN? {
      NaNTwice(d);
    } else if IsInteger(d) {
      IntegerTwice(IntOf(d));
      MagnitudeOfInt(d);
    } else {
      FixedText(d);
      HundredthsTwice(d.negative, Hundredths(d));
    }
  }

  lemma ThousandthPrints()
    ensures
      var d := Finite(true, 1, -3);
      !IsInteger(d) && Fixed(d) == "-0"
  {
    var d := Finite(true, 1, -3);
    assert Power10(3) == 1000;
    FixedText(d);
    assert Grouped(0) == "0" && Decimals(0) == "";
  }

  lemma MinusZero()
    ensures FormatNumber("-0") == Some("0")
  {
    assert Sign(true) + Grouped(0) + Decimals(0) == "-0" && |Digits(0)| == 1;
    HundredthsRead(true, 0);
    WholeTwice(true, 0);
    assert Grouped(0) == "0";
  }

  lemma OneWithZeros()
    ensures ValueOf("0001") == 1
  {
    assert "0001"[..3] == "000" && "000"[..2] == "00" && "00"[..1] == "0";
    ZeroValue();
  }

  lemma ThousandthParses()
    ensures Number(true, "0.001") == Finite(true, 1, -3)
  {
    assert Pointed("0", "001") == "0.001" && "0" + "001" == "0001";
    PointedParses(true, "0", "001");
    OneWithZeros();
    assert |Digits(1)| == 1;
  }

  lemma MinusThousandth()
    ensures Delete(Strip("-0.001"), ',') == "-0.001" && ToDecimal("-0.001") == Finite(true, 1, -3)
  {
    assert Sign(true) + "0.001" == "-0.001";
    OrdinaryReads(true, "0.001");
    ThousandthParses();
  }

  /** "-0.001" prints as "-0", and that as "0". */
  lemma SmallNegativeIsUnstable()
    ensures FormatNumber("-0.001") == Some("-0") && FormatNumber("-0") == Some("0")
  {
    MinusThousandth();
    ThousandthPrints();
    MinusZero();
  }

  // ---- dates and business numbers ----

  /** str.isdigit(), for all of Unicode: the ASCII digits and others, but no white space and no separator. */
  type DigitClass = d: char -> bool |
    (forall c :: IsDigit(c) ==> d(c))
        && (forall c :: IsSpace(c) || c == '-' || c == '.' || c == '/' || c == 'T' ==> !d(c))
    witness c => '0' <= c <= '9'

  function Keep(s: string, d: char -> bool): string {
    if s == "" then "" else if d(s[0]) then [s[0]] + Keep(s[1..], d) else Keep(s[1..], d)
  }

  predicate AllIn(s: string, d: char -> bool) { forall i :: 0 <= i < |s| ==> d(s[i]) }

  /** text.split(sep, 1)[0] if sep occurs, else text: the part before the first sep. */
  function Before(s: string, sep: char): string { Split(s, sep)[0] }

  function Compact(value: string): string {
    Delete(Before(Before(Replace(Replace(value, '.', '-'), '/', '-'), 'T'), ' '), '-')
  }

  function Dashed(s: string): string
    requires |s| == 8
  {
    s[..4] + "-" + s[4..6] + "-" + s[6..8]
  }

  /** _format_date */
  function FormatDate(d: DigitClass, text: string): string {
    var value := Strip(text);
    var compact := Compact(value);
    if value == "" then "" else if |compact| == 8 && AllIn(compact, d) then Dashed(compact) else value
  }

  /** _format_business_number */
  function FormatBusinessNumber(d: DigitClass, text: string): string {
    var digits := Keep(text, d);
    if |digits| != 10 then Strip(text) else digits[..3] + "-" + digits[3..5] + "-" + digits[5..]
  }

  lemma DashedDeletes(s: string)
    requires |s| == 8 && '-' !in s
    ensures Delete(Dashed(s), '-') == s
  {
    var a, b, c := s[..4], s[4..6], s[6..8];
    DeleteAppend(a + "-" + b + "-", c, '-');
    DeleteAppend(a + "-" + b, "-", '-');
    DeleteAppend(a + "-", b, '-');
    DeleteAppend(a, "-", '-');
    assert Delete("-", '-') == "";
    DeleteNone(a, '-');
    DeleteNone(b, '-');
    DeleteNone(c, '-');
    assert a + b + c == s;
  }

  /** Text of digits and dashes passes the replacements and the cuts unchanged. */
  lemma DashesPass(d: DigitClass, t: string)
    requires forall i :: 0 <= i < |t| ==> d(t[i]) || t[i] == '-'
    ensures Compact(t) == Delete(t, '-')
  {
    assert IsSpace(' ');
    assert Replace(t, '.', '-') == t;
    assert Replace(t, '/', '-') == t;
    SplitNone(t, 'T');
    SplitNone(t, ' ');
  }

  lemma DashedCompacts(d: DigitClass, s: string)
    requires |s| == 8 && AllIn(s, d)
    ensures Strip(Dashed(s)) == Dashed(s) && Compact(Dashed(s)) == s
  {
    var t := Dashed(s);
    assert t == [s[0], s[1], s[2], s[3], '-', s[4], s[5], '-', s[6], s[7]];
    DashesPass(d, t);
    assert Stripped(t);
    StripFixed(t);
    DashedDeletes(s);
  }

  lemma DateFormatIsIdempotent(d: DigitClass, text: string)
    ensures FormatDate(d, FormatDate(d, text)) == FormatDate(d, text)
  {
    var value := Strip(text);
    StripStrips(text);
    if value != "" && |Compact(value)| == 8 && AllIn(Compact(value), d) {
      DashedCompacts(d, Compact(value));
    }
  }

  lemma {:induction false} KeepAppend(a: string, b: string, d: char -> bool)
    ensures Keep(a + b, d) == Keep(a, d) + Keep(b, d)
  {
    if a == "" {
      assert a + b == b;
    } else {
      KeepAppend(a[1..], b, d);
      assert (a + b)[1..] == a[1..] + b;
    }
  }

  lemma {:induction false} KeepKept(s: string, d: char -> bool)
    ensures AllIn(Keep(s, d), d)
    ensures AllIn(s, d) ==> Keep(s, d) == s
  {
    if s != "" {
      KeepKept(s[1..], d);
      assert [s[0]] + s[1..] == s;
    }
  }

  lemma {:induction false} KeepStripLeft(s: string, d: DigitClass)
    ensures Keep(StripLeft(s), d) == Keep(s, d)
  {
    if s != "" && IsSpace(s[0]) { KeepStripLeft(s[1..], d); }
  }

  lemma {:induction false} KeepStripRight(s: string, d: DigitClass)
    ensures Keep(StripRight(s), d) == Keep(s, d)
  {
    if s != "" && IsSpace(s[|s| - 1]) {
      var front, last := s[..|s| - 1], s[|s| - 1..];
      KeepStripRight(front, d);
      assert s == front + last;
      KeepAppend(front, last, d);
    }
  }

  lemma KeepDashed(digits: string, d: DigitClass)
    requires |digits| == 10 && AllIn(digits, d)
    ensures Keep(digits[..3] + "-" + digits[3..5] + "-" + digits[5..], d) == digits
  {
    var a, b, c := digits[..3], digits[3..5], digits[5..];
    KeepAppend(a + "-" + b + "-", c, d);
    KeepAppend(a + "-" + b, "-", d);
    KeepAppend(a + "-", b, d);
    KeepAppend(a, "-", d);
    assert Keep("-", d) == "";
    KeepKept(a, d);
    KeepKept(b, d);
    KeepKept(c, d);
    assert a + b + c == digits;
  }

  /** The digits come through in order, and formatting again is a no-op, on every text. */
  lemma BusinessNumberFormat(d: DigitClass, text: string)
    ensures Keep(FormatBusinessNumber(d, text), d) == Keep(text, d)
    ensures FormatBusinessNumber(d, FormatBusinessNumber(d, text)) == FormatBusinessNumber(d, text)
  {
    var digits := Keep(text, d);
    KeepKept(text, d);
    if |digits| == 10 {
      KeepDashed(digits, d);
    } else {
      KeepStripLeft(text, d);
      KeepStripRight(StripLeft(text), d);
      StripStrips(text);
    }
  }

  // ---- what is printed ----

  /** Up to the first blank or T. */
  function DatePart(s: string): string {
    if s == "" || s[0] == ' ' || s[0] == 'T' then "" else [s[0]] + DatePart(s[1..])
  }

  /** Without dashes, points and slashes. */
  function Joined(s: string): string {
    if s == "" then ""
    else if s[0] == '-' || s[0] == '.' || s[0] == '/' then Joined(s[1..])
    else [s[0]] + Joined(s[1..])
  }

  function Dashes(s: string): string { Replace(Replace(s, '.', '-'), '/', '-') }

  lemma DashesCons(s: string)
    requires s != ""
    ensures Dashes(s) == [if s[0] == '.' || s[0] == '/' then '-' else s[0]] + Dashes(s[1..])
  {
  }

  lemma {:induction false} DatePartIsBefore(s: string)
    ensures Before(Before(Dashes(s), 'T'), ' ') == Dashes(DatePart(s))
  {
    if s != "" {
      DashesCons(s);
      DatePartIsBefore(s[1..]);
      BeforeCons(Dashes(s), 'T');
      if s[0] != 'T' {
        BeforeCons(Before(Dashes(s), 'T'), ' ');
        if s[0] != ' ' { DashesCons(DatePart(s)); }
      }
    }
  }

  lemma BeforeCons(s: string, sep: char)
    requires s != ""
    ensures Before(s, sep) == if s[0] == sep then "" else [s[0]] + Before(s[1..], sep)
  {
  }

  lemma {:induction false} JoinedIsDeleted(s: string)
    ensures Delete(Dashes(s), '-') == Joined(s)
  {
    if s != "" {
      DashesCons(s);
      JoinedIsDeleted(s[1..]);
    }
  }

  lemma CompactIsJoined(value: string)
    ensures Compact(value) == Joined(DatePart(value))
  {
    DatePartIsBefore(value);
    JoinedIsDeleted(DatePart(value));
  }

  lemma DashedIs(c: string)
    requires |c| == 8
    ensures Dashed(c) == [c[0], c[1], c[2], c[3], '-', c[4], c[5], '-', c[6], c[7]]
  {
  }

  /** A text whose date part, separators aside, is eight digits prints as year, month and day with dashes; any other as
      it is without outer white space. */
  lemma DateFormat(d: DigitClass, text: string)
    ensures
      var c := Joined(DatePart(Strip(text)));
      FormatDate(d, text) ==
        if |c| == 8 && forall i :: 0 <= i < 8 ==> d(c[i])
        then [c[0], c[1], c[2], c[3], '-', c[4], c[5], '-', c[6], c[7]]
        else Strip(text)
  {
    var c := Joined(DatePart(Strip(text)));
    CompactIsJoined(Strip(text));
    if |c| == 8 { DashedIs(c); }
  }

  /** digits holds the digits of s in order and nothing else, read from the end. */
  predicate DigitsOf(s: string, d: char -> bool, digits: string) {
    if s == "" then digits == ""
    else
      var front, c := s[..|s| - 1], s[|s| - 1];
      if d(c) then digits != "" && digits[|digits| - 1] == c && DigitsOf(front, d, digits[..|digits| - 1])
      else DigitsOf(front, d, digits)
  }

  lemma KeepSnoc(front: string, c: char, d: char -> bool)
    ensures Keep(front + [c], d) == if d(c) then Keep(front, d) + [c] else Keep(front, d)
  {
    KeepAppend(front, [c], d);
    assert Keep([c], d) == if d(c) then [c] else "";
  }

  lemma {:induction false} KeptDigits(s: string, d: char -> bool)
    ensures DigitsOf(s, d, Keep(s, d))
  {
    if s != "" {
      var front, c := s[..|s| - 1], s[|s| - 1];
      assert s == front + [c];
      KeepSnoc(front, c, d);
      KeptDigits(front, d);
    }
  }

  lemma DashesBetween(k: string)
    requires |k| == 10
    ensures k[..3] + "-" + k[3..5] + "-" + k[5..]
            == [k[0], k[1], k[2], '-', k[3], k[4], '-', k[5], k[6], k[7], k[8], k[9]]
  {
  }

  /** Ten digits in all print as three, two and five with dashes between; any other text as it is without outer white
      space. */
  lemma BusinessNumberPrints(d: DigitClass, text: string) returns (k: string)
    ensures DigitsOf(text, d, k)
    ensures FormatBusinessNumber(d, text) ==
            if |k| == 10 then [k[0], k[1], k[2], '-', k[3], k[4], '-', k[5], k[6], k[7], k[8], k[9]] else Strip(text)
  {
    k := Keep(text, d);
    KeptDigits(text, d);
    if |k| == 10 { DashesBetween(k); }
  }
}
