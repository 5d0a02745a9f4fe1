/** Amounts as text: the printers (src/recon/samples/entries.py) and the parsers that read them back
    (src/recon/ingestion/balances.py, src/recon/normalisation/amounts.py, src/recon/domain/money.py). */
module AmountText {
  import opened Ledger
  import opened References
  import opened FxConvert

  // ------------------------------------------------------------------- digits

  predicate IsDigit(c: char) {
    '0' <= c <= '9'
  }

  predicate AllDigits(s: string) {
    forall k :: 0 <= k < |s| ==> IsDigit(s[k])
  }

  function TenTo(n: nat): (p: nat)
    ensures p >= 1
  {
    if n == 0 then 1 else 10 * TenTo(n - 1)
  }

  function DigitChar(d: nat): (c: char)
    requires d < 10
    ensures IsDigit(c)
  {
    ('0' as int + d) as char
  }

  function DigitValue(c: char): nat {
    if IsDigit(c) then c as int - '0' as int else 0
  }

  /** The decimal digits of n, without leading zeros. */
  function Digits(n: nat): (s: string)
    ensures |s| >= 1 && AllDigits(s)
  {
    if n < 10 then [DigitChar(n)] else Digits(n / 10) + [DigitChar(n % 10)]
  }

  /** The last `width` digits of n. */
  function Padded(n: nat, width: nat): (s: string)
    ensures |s| == width && AllDigits(s)
  {
    if width == 0 then "" else Padded(n / 10, width - 1) + [DigitChar(n % 10)]
  }

  function Value(s: string): nat {
    if s == "" then 0 else 10 * Value(s[..|s| - 1]) + DigitValue(s[|s| - 1])
  }

  lemma ValueMore(s: string, c: char)
    ensures Value(s + [c]) == 10 * Value(s) + DigitValue(c)
  {
    assert (s + [c])[..|s|] == s;
  }

  lemma {:induction false} DigitsValue(n: nat)
    ensures Value(Digits(n)) == n
  {
    if n < 10 {
      ValueMore("", DigitChar(n));
      assert "" + [DigitChar(n)] == [DigitChar(n)];
    } else {
      DigitsValue(n / 10);
      ValueMore(Digits(n / 10), DigitChar(n % 10));
    }
  }

  lemma {:induction false} PaddedValue(n: nat, width: nat)
    requires n < TenTo(width)
    ensures Value(Padded(n, width)) == n
  {
    if width > 0 {
      PaddedValue(n / 10, width - 1);
      ValueMore(Padded(n / 10, width - 1), DigitChar(n % 10));
    }
  }

  lemma {:induction false} ValueAppend(a: string, b: string)
    ensures Value(a + b) == Value(a) * TenTo(|b|) + Value(b)
    decreases b
  {
    if b == "" {
      assert a + b == a;
    } else {
      var front, c := b[..|b| - 1], b[|b| - 1];
      assert a + b == (a + front) + [c] && b == front + [c];
      ValueAppend(a, front);
      ValueMore(a + front, c);
      ValueMore(front, c);
      ByTen(Value(a), TenTo(|front|));
    }
  }

  lemma ByTen(a: int, p: int)
    ensures 10 * (a * p) == a * (10 * p)
  {
  }

  // ------------------------------------------------------------------- replacing characters

  function Replace(s: string, old_: char, new_: char): (r: string)
    ensures |r| == |s|
  {
    seq(|s|, k requires 0 <= k < |s| => if s[k] == old_ then new_ else s[k])
  }

  function Remove(s: string, c: char): string {
    if s == "" then ""
    else if s[|s| - 1] == c then Remove(s[..|s| - 1], c) else Remove(s[..|s| - 1], c) + [s[|s| - 1]]
  }

  lemma {:induction false} RemoveAppend(a: string, b: string, c: char)
    ensures Remove(a + b, c) == Remove(a, c) + Remove(b, c)
    decreases b
  {
    if b == "" {
      assert a + b == a;
    } else {
      assert (a + b)[..|a + b| - 1] == a + b[..|b| - 1];
      RemoveAppend(a, b[..|b| - 1], c);
    }
  }

  lemma {:induction false} RemoveAbsent(s: string, c: char)
    requires c !in s
    ensures Remove(s, c) == s
  {
    if s != "" {
      RemoveAbsent(s[..|s| - 1], c);
    }
  }

  // ------------------------------------------------------------------- stripping

  function Trim(s: string): string {
    StripRight(StripLeft(s))
  }

  lemma NothingToTrim(s: string)
    requires s != "" && !IsSpace(s[0]) && !IsSpace(s[|s| - 1])
    ensures Trim(s) == s
  {
  }

  // ------------------------------------------------------------------- printing

  /** Whole units and remaining minor units. */
  function Units(size: nat, scale: nat): (q: nat)
    requires scale >= 1
  {
    size / scale
  }

  function Rest(size: nat, scale: nat): (r: nat)
    requires scale >= 1
    ensures r < scale
  {
    size % scale
  }

  lemma UnitsAndRest(size: nat, scale: nat)
    requires scale >= 1
    ensures Units(size, scale) * scale + Rest(size, scale) == size
  {
  }

  function Size(amount: int): nat {
    if amount < 0 then -amount else amount
  }

  function Sign(negative: bool): string {
    if negative then "-" else ""
  }

  function Fraction(point: char, digits: string): string {
    if digits == "" then "" else [point] + digits
  }

  /** A printed amount: a sign, whole units, and the point with the remaining digits. */
  function Written(negative: bool, whole: string, point: char, fraction: string): string {
    Sign(negative) + (whole + Fraction(point, fraction))
  }

  /** decimal_text before the separator is put in. */
  function PlainText(amount: int, exponent: nat): string {
    Written(amount < 0, Digits(Units(Size(amount), TenTo(exponent))), '.',
            Padded(Rest(Size(amount), TenTo(exponent)), exponent))
  }

  /** decimal_text. */
  function DecimalText(amount: int, exponent: nat, separator: char): string {
    Replace(PlainText(amount, exponent), '.', separator)
  }

  // ------------------------------------------------------------------- parsing

  /** What Decimal reads: an integer times a power of ten, or an infinity or a NaN. */
  datatype Number = Finite(unscaled: int, places: int) | NotFinite

  function PointAt(s: string): (k: nat)
    ensures k <= |s| && (k < |s| ==> s[k] == '.') && forall j :: 0 <= j < k ==> s[j] != '.'
  {
    if s == "" || s[0] == '.' then 0 else PointAt(s[1..]) + 1
  }

  predicate IsExponentMark(c: char) {
    c == 'E' || c == 'e'
  }

  function MarkAt(s: string): (k: nat)
    ensures k <= |s| && (k < |s| ==> IsExponentMark(s[k])) && forall j :: 0 <= j < k ==> !IsExponentMark(s[j])
  {
    if s == "" || IsExponentMark(s[0]) then 0 else MarkAt(s[1..]) + 1
  }

  function Signed(negative: bool, size: nat): int {
    if negative then 0 - size else size
  }

  function WholeNumber(negative: bool, digits: string): Option<int> {
    if digits == "" || !AllDigits(digits) then None else Some(Signed(negative, Value(digits)))
  }

  predicate IsSign(c: char) {
    c == '-' || c == '+'
  }

  /** An optional sign and digits. */
  function ParseExponent(s: string): Option<int> {
    if s != "" && IsSign(s[0]) then WholeNumber(s[0] == '-', s[1..]) else WholeNumber(false, s)
  }

  /** Digits with an optional point among them, scaled by a power of ten. */
  function ParseMantissa(negative: bool, mantissa: string, exponent: int): Option<Number> {
    var point := PointAt(mantissa);
    var whole, fraction := mantissa[..point], if point == |mantissa| then "" else mantissa[point + 1..];
    if !AllDigits(whole) || !AllDigits(fraction) || whole + fraction == "" then None
    else Some(Finite(Signed(negative, Value(whole + fraction)), |fraction| - exponent))
  }

  /** In upper case: an infinity, or a NaN with an optional payload of digits. */
  predicate NamesNonFinite(s: string) {
    || s == "INF" || s == "INFINITY"
    || ("NAN" <= s && AllDigits(s[3..]))
    || ("SNAN" <= s && AllDigits(s[4..]))
  }

  function ParseUnsigned(negative: bool, body: string): Option<Number> {
    var mark := MarkAt(body);
    if NamesNonFinite(Upper(body)) then Some(NotFinite)
    else if mark == |body| then ParseMantissa(negative, body, 0)
    else
      var exponent := ParseExponent(body[mark + 1..]);
      if exponent == None then None else ParseMantissa(negative, body[..mark], exponent.value)
  }

  /** Decimal(text): outer blanks and all underscores go, then a sign and a number in plain or scientific
      notation, or the name of one that is not finite, in any case of letters. */
  function ParseNumber(s: string): Option<Number> {
    var text := Remove(Trim(s), '_');
    if text != "" && IsSign(text[0]) then ParseUnsigned(text[0] == '-', text[1..]) else ParseUnsigned(false, text)
  }

  /** Scaled to minor units and rounded half to even. */
  function ToMinorUnits(unscaled: int, places: int, exponent: nat): int {
    if places <= exponent then unscaled * TenTo(exponent - places)
    else HalfEven(Over(unscaled as real, Pow10(places - exponent)))
  }

  lemma SamePlaces(unscaled: int, exponent: nat)
    ensures ToMinorUnits(unscaled, exponent, exponent) == unscaled
  {
    assert TenTo(0) == 1;
  }

  // ------------------------------------------------------------------- what the parser makes of printed text

  lemma NoMark(s: string)
    requires forall k :: 0 <= k < |s| ==> !IsExponentMark(s[k])
    ensures MarkAt(s) == |s|
  {
  }

  lemma DigitFirstIsFinite(body: string)
    requires body != "" && IsDigit(body[0])
    ensures !NamesNonFinite(Upper(body))
  {
    assert Upper(body)[0] == body[0];
  }

  lemma PointSplits(whole: string, fraction: string)
    requires AllDigits(whole)
    ensures var body := whole + Fraction('.', fraction);
            && PointAt(body) == |whole| && body[..|whole|] == whole
            && (if fraction == "" then |body| == |whole| else |whole| < |body| && body[|whole| + 1..] == fraction)
  {
    hide PointAt, AllDigits;
    PointAfter(whole, Fraction('.', fraction));
  }

  lemma MantissaIs(negative: bool, mantissa: string, whole: string, fraction: string, exponent: int)
    requires whole != "" && AllDigits(whole) && AllDigits(fraction)
    requires var point := PointAt(mantissa);
             && mantissa[..point] == whole
             && fraction == if point == |mantissa| then "" else mantissa[point + 1..]
    ensures ParseMantissa(negative, mantissa, exponent)
            == Some(Finite(Signed(negative, Value(whole + fraction)), |fraction| - exponent))
  {
    hide Value, PointAt, Signed, AllDigits;
  }

  lemma MantissaParses(negative: bool, whole: string, fraction: string, exponent: int)
    requires whole != "" && AllDigits(whole) && AllDigits(fraction)
    ensures ParseMantissa(negative, whole + Fraction('.', fraction), exponent)
            == Some(Finite(Signed(negative, Value(whole + fraction)), |fraction| - exponent))
  {
    hide *;
    PointSplits(whole, fraction);
    MantissaIs(negative, whole + Fraction('.', fraction), whole, fraction, exponent);
  }

  /** A power of ten behind a number; nothing for None. */
  function Scientific(power: Option<int>): string {
    if power == None then "" else "E" + Sign(power.value < 0) + Digits(Size(power.value))
  }

  lemma PowerParses(power: int)
    ensures ParseExponent(Sign(power < 0) + Digits(Size(power))) == Some(power)
  {
    hide Digits, Value;
    DigitsValue(Size(power));
    var digits := Digits(Size(power));
    assert IsDigit(digits[0]);
    if power < 0 {
      assert ("-" + digits)[1..] == digits;
    } else {
      assert "" + digits == digits;
    }
  }

  lemma UnsignedPlain(negative: bool, body: string)
    requires !NamesNonFinite(Upper(body)) && MarkAt(body) == |body|
    ensures ParseUnsigned(negative, body) == ParseMantissa(negative, body, 0)
  {
    hide NamesNonFinite, ParseMantissa, ParseExponent, MarkAt, Upper;
  }

  lemma UnsignedScientific(negative: bool, mantissa: string, tail: string, power: int)
    requires var body := mantissa + ("E" + tail);
             !NamesNonFinite(Upper(body)) && MarkAt(body) == |mantissa|
    requires ParseExponent(tail) == Some(power)
    ensures ParseUnsigned(negative, mantissa + ("E" + tail)) == ParseMantissa(negative, mantissa, power)
  {
    hide NamesNonFinite, ParseMantissa, ParseExponent, MarkAt, Upper;
    var body := mantissa + ("E" + tail);
    assert body[|mantissa| + 1..] == tail && body[..|mantissa|] == mantissa;
  }

  lemma MantissaShape(whole: string, fraction: string)
    requires whole != "" && AllDigits(whole) && AllDigits(fraction)
    ensures var mantissa := whole + Fraction('.', fraction);
            && mantissa != "" && IsDigit(mantissa[0])
            && forall k :: 0 <= k < |mantissa| ==> !IsExponentMark(mantissa[k])
  {
  }

  /** In front of a power of ten, or of nothing, the mantissa is read. */
  lemma PowerApplies(negative: bool, mantissa: string, power: Option<int>)
    requires mantissa != "" && IsDigit(mantissa[0])
    requires forall k :: 0 <= k < |mantissa| ==> !IsExponentMark(mantissa[k])
    ensures ParseUnsigned(negative, mantissa + Scientific(power))
            == ParseMantissa(negative, mantissa, if power == None then 0 else power.value)
  {
    hide ParseUnsigned, ParseMantissa, ParseExponent, MarkAt, Upper, NamesNonFinite, Digits, IsExponentMark, IsDigit;
    DigitFirstIsFinite(mantissa + Scientific(power));
    if power == None {
      assert mantissa + Scientific(power) == mantissa;
      NoMark(mantissa);
      UnsignedPlain(negative, mantissa);
    } else {
      var tail := Sign(power.value < 0) + Digits(Size(power.value));
      assert mantissa + Scientific(power) == mantissa + ("E" + tail);
      PowerParses(power.value);
      EIsMark();
      MarkAfter(mantissa, "E" + tail);
      UnsignedScientific(negative, mantissa, tail, power.value);
    }
  }

  lemma EIsMark()
    ensures IsExponentMark('E')
  {
  }

  lemma BodyParses(negative: bool, whole: string, fraction: string, power: Option<int>)
    requires whole != "" && AllDigits(whole) && AllDigits(fraction)
    ensures ParseUnsigned(negative, whole + Fraction('.', fraction) + Scientific(power))
            == Some(Finite(Signed(negative, Value(whole + fraction)),
                           |fraction| - (if power == None then 0 else power.value)))
  {
    hide *;
    MantissaShape(whole, fraction);
    PowerApplies(negative, whole + Fraction('.', fraction), power);
    MantissaParses(negative, whole, fraction, if power == None then 0 else power.value);
  }

  lemma {:induction false} MarkAfter(front: string, tail: string)
    requires forall k :: 0 <= k < |front| ==> !IsExponentMark(front[k])
    requires tail != "" && IsExponentMark(tail[0])
    ensures MarkAt(front + tail) == |front|
  {
    if front == "" {
      assert front + tail == tail;
    } else {
      assert (front + tail)[1..] == front[1..] + tail;
      MarkAfter(front[1..], tail);
    }
  }

  /** Text made of an optional minus sign, digits, a point with digits if there are any, and a power of ten if
      there is one, is read as that number. */
  lemma WrittenParses(negative: bool, whole: string, fraction: string, power: Option<int>)
    requires whole != "" && AllDigits(whole) && AllDigits(fraction)
    ensures ParseNumber(Written(negative, whole, '.', fraction) + Scientific(power))
            == Some(Finite(Signed(negative, Value(whole + fraction)),
                           |fraction| - (if power == None then 0 else power.value)))
  {
    hide ParseUnsigned, Value, Signed, ParseNumber, Scientific, Fraction, Written, IsSpace, Sign;
    var body := whole + Fraction('.', fraction) + Scientific(power);
    BodyParses(negative, whole, fraction, power);
    assert body[0] == whole[0];
    SignInFront(negative, whole, fraction, Scientific(power));
    LastIsNoSpace(body, whole, fraction, power);
    SignParses(negative, body);
  }

  lemma SignInFront(negative: bool, whole: string, fraction: string, tail: string)
    ensures Written(negative, whole, '.', fraction) + tail == Sign(negative) + (whole + Fraction('.', fraction) + tail)
  {
    hide Sign, Fraction;
  }

  lemma LastIsNoSpace(body: string, whole: string, fraction: string, power: Option<int>)
    requires whole != "" && AllDigits(whole) && AllDigits(fraction)
    requires body == whole + Fraction('.', fraction) + Scientific(power)
    ensures !IsSpace(body[|body| - 1]) && '_' !in body
  {
    hide Digits;
  }

  lemma SignParses(negative: bool, body: string)
    requires body != "" && IsDigit(body[0]) && !IsSpace(body[|body| - 1]) && '_' !in body
    ensures ParseNumber(Sign(negative) + body) == ParseUnsigned(negative, body)
  {
    hide ParseUnsigned, Trim, Remove;
    var text := Sign(negative) + body;
    NothingToTrim(text);
    RemoveAbsent(text, '_');
    if negative {
      assert ("-" + body)[1..] == body;
    } else {
      assert "" + body == body;
    }
  }

  lemma {:induction false} PointAfter(whole: string, tail: string)
    requires AllDigits(whole) && (tail == "" || tail[0] == '.')
    ensures PointAt(whole + tail) == |whole|
  {
    if whole == "" {
      assert whole + tail == tail;
    } else {
      assert (whole + tail)[1..] == whole[1..] + tail;
      PointAfter(whole[1..], tail);
    }
  }

  lemma WrittenValue(size: nat, exponent: nat)
    ensures Value(Digits(Units(size, TenTo(exponent))) + Padded(Rest(size, TenTo(exponent)), exponent)) == size
  {
    hide Digits, Padded, Value, Units, Rest, TenTo;
    var scale := TenTo(exponent);
    var q, r := Units(size, scale), Rest(size, scale);
    ValueAppend(Digits(q), Padded(r, exponent));
    DigitsValue(q);
    PaddedValue(r, exponent);
    UnitsAndRest(size, scale);
  }

  /** What is printed plainly, with or without a power of ten behind it, is read as that number. */
  lemma PlainRoundTrip(amount: int, exponent: nat, power: Option<int>)
    ensures ParseNumber(PlainText(amount, exponent) + Scientific(power))
            == Some(Finite(amount, exponent - (if power == None then 0 else power.value)))
  {
    hide ParseNumber, Digits, Padded, Value, Written, Units, Rest, TenTo, Scientific;
    WrittenParses(amount < 0, Digits(Units(Size(amount), TenTo(exponent))),
                  Padded(Rest(Size(amount), TenTo(exponent)), exponent), power);
    WrittenValue(Size(amount), exponent);
  }

  // ------------------------------------------------------------------- through a separator

  /** Printed amounts hold digits, one point and perhaps a leading minus sign. */
  lemma PlainCharacters(amount: int, exponent: nat)
    ensures var text := PlainText(amount, exponent);
            && text != "" && !IsSpace(text[0]) && !IsSpace(text[|text| - 1])
            && forall k :: 0 <= k < |text| ==> IsDigit(text[k]) || text[k] == '.' || (text[k] == '-' && amount < 0)
  {
    hide Digits, Padded, Units, Rest, TenTo;
  }

  lemma ReplaceBack(s: string, separator: char)
    requires separator == '.' || separator !in s
    ensures Replace(Replace(s, '.', separator), separator, '.') == s
  {
  }

  /** A separator that does not occur in the printed digits and sign. */
  predicate Usable(separator: char, amount: int) {
    !IsDigit(separator) && (amount < 0 ==> separator != '-')
  }

  /** What reading an amount comes to: nothing, minor units, or an exception that is not caught. */
  datatype Amount = Unreadable | Minor(units: int) | Fails

  predicate Known(currency: string) {
    Upper(currency) in EXPONENTS
  }

  function Scale(currency: string): nat
    requires Known(currency)
  {
    EXPONENTS[Upper(currency)]
  }

  /** A number in minor units; int() of an infinity or a NaN raises. */
  function InMinorUnits(n: Number, exponent: nat): Amount {
    if n == NotFinite then Fails else Minor(ToMinorUnits(n.unscaled, n.places, exponent))
  }

  /** _to_minor: unreadable are missing text, text that is no number, and an unknown currency. */
  function ToMinor(raw: Option<string>, currency: string, separator: char): Amount {
    if raw == None || raw.value == "" then Unreadable
    else
      var number := ParseNumber(Replace(Trim(raw.value), separator, '.'));
      if number == None || !Known(currency) then Unreadable else InMinorUnits(number.value, Scale(currency))
  }

  lemma TrimmedText(amount: int, exponent: nat, separator: char)
    requires Usable(separator, amount)
    ensures DecimalText(amount, exponent, separator) != ""
    ensures Trim(DecimalText(amount, exponent, separator)) == DecimalText(amount, exponent, separator)
    ensures Replace(DecimalText(amount, exponent, separator), separator, '.') == PlainText(amount, exponent)
  {
    PlainCharacters(amount, exponent);
    hide PlainText;
    var text := PlainText(amount, exponent);
    LastIsDigit(amount, exponent);
    NothingToTrim(DecimalText(amount, exponent, separator));
    ReplaceBack(text, separator);
  }

  lemma LastIsDigit(amount: int, exponent: nat)
    ensures var text := PlainText(amount, exponent);
            text != "" && IsDigit(text[|text| - 1]) && (IsDigit(text[0]) || text[0] == '-')
  {
    hide Digits, Padded, Units, Rest, TenTo;
  }

  /** The balance reader undoes the printer, for every amount in a known currency. */
  lemma BalanceTextRoundTrip(amount: int, currency: string, separator: char)
    requires Known(currency) && Usable(separator, amount)
    ensures ToMinor(Some(DecimalText(amount, Scale(currency), separator)), currency, separator) == Minor(amount)
  {
    hide Known, Scale, DecimalText, PlainText, ParseNumber, ToMinorUnits, Trim, Replace;
    var exponent := Scale(currency);
    TrimmedText(amount, exponent, separator);
    PlainRoundTrip(amount, exponent, None);
    assert PlainText(amount, exponent) + Scientific(None) == PlainText(amount, exponent);
    SamePlaces(amount, exponent);
  }

  /** An amount with a power of ten behind it is read as so many times the amount: "1.00E3" is 1000 rupees. */
  lemma ScientificIsRead(amount: int, currency: string, power: nat)
    requires Known(currency)
    ensures ToMinor(Some(PlainText(amount, Scale(currency)) + Scientific(Some(power))), currency, '.')
            == Minor(amount * TenTo(power))
  {
    hide Known, Scale, PlainText, ParseNumber, Trim, Replace, TenTo, Scientific;
    var text := PlainText(amount, Scale(currency)) + Scientific(Some(power));
    PlainRoundTrip(amount, Scale(currency), Some(power));
    ScientificEnds(amount, Scale(currency), power);
    NothingToTrim(text);
    DotStays(text);
  }

  /** The names of the numbers that are not finite. */
  const NON_FINITE := {"NaN", "sNaN", "Inf", "Infinity"}

  lemma NamesAreKnown(name: string)
    requires name in NON_FINITE
    ensures NamesNonFinite(Upper(name)) && '_' !in name && '.' !in name
    ensures name != "" && !IsSign(name[0]) && !IsSpace(name[0]) && !IsSpace(name[|name| - 1])
  {
    assert Upper("NaN") == "NAN" && Upper("sNaN") == "SNAN" && Upper("Inf") == "INF" && Upper("Infinity") == "INFINITY";
  }

  /** Such a name, with or without a sign, is a number to the parser and no integer to int(). */
  lemma NonFiniteFails(negative: bool, name: string, currency: string)
    requires name in NON_FINITE && Known(currency)
    ensures ToMinor(Some(Sign(negative) + name), currency, '.') == Fails
  {
    hide Known, Scale, Trim, Replace, NamesNonFinite, Upper, Remove, IsSpace, NON_FINITE;
    NamesAreKnown(name);
    var text := Sign(negative) + name;
    NoSpaceInMinus();
    NothingToTrim(text);
    DotStays(text);
    RemoveAbsent(text, '_');
    if negative {
      assert ("-" + name)[1..] == name;
    } else {
      assert "" + name == name;
    }
  }

  /** A plus sign says nothing, and neither does an underscore anywhere inside the text. */
  lemma PlusAndUnderscores(a: string, b: string)
    requires a != "" && b != "" && !IsSpace(a[0]) && !IsSpace(b[|b| - 1]) && !IsSign(a[0]) && a[0] != '_'
    ensures ParseNumber(a + "_" + b) == ParseNumber(a + b)
    ensures ParseNumber("+" + (a + b)) == ParseNumber(a + b)
  {
    hide ParseUnsigned, Trim, IsSpace;
    NoSpaceInPlus();
    NothingToTrim(a + "_" + b);
    NothingToTrim(a + b);
    NothingToTrim("+" + (a + b));
    RemoveAppend(a, b, '_');
    RemoveAppend(a + "_", b, '_');
    RemoveAppend(a, "_", '_');
    RemoveAppend("+", a + b, '_');
    RemoveOne('_');
    RemoveAbsent("+", '_');
    FirstKept(a, '_');
    var text := Remove(a + b, '_');
    assert Remove(a, '_') + "" == Remove(a, '_');
    assert ("+" + text)[1..] == text;
  }

  lemma NoSpaceInPlus()
    ensures !IsSpace('+')
  {
  }

  lemma {:induction false} FirstKept(s: string, c: char)
    requires s != "" && s[0] != c
    ensures Remove(s, c) != "" && Remove(s, c)[0] == s[0]
  {
    if |s| > 1 {
      FirstKept(s[..|s| - 1], c);
    } else {
      RemoveAbsent(s, c);
    }
  }

  lemma NoSpaceInMinus()
    ensures !IsSpace('-')
  {
  }

  lemma DotStays(s: string)
    ensures Replace(s, '.', '.') == s
  {
  }

  lemma ScientificEnds(amount: int, exponent: nat, power: nat)
    ensures var text := PlainText(amount, exponent) + Scientific(Some(power));
            text != "" && !IsSpace(text[0]) && !IsSpace(text[|text| - 1])
  {
    PlainCharacters(amount, exponent);
    hide Digits, PlainText;
  }

  // ------------------------------------------------------------------- more decimals, case and blanks

  /** m whole parts of d are nearest to n, and m is the even one of two as near. */
  predicate Nearest(n: int, d: nat, m: int) {
    var gap := n - m * d;
    0 - d <= 2 * gap <= d && (2 * gap == d || 2 * gap == 0 - d ==> m % 2 == 0)
  }

  lemma {:induction false} PowersAgree(n: nat)
    ensures Pow10(n) == TenTo(n) as real
  {
    if n > 0 {
      PowersAgree(n - 1);
    }
  }

  lemma HalfEvenIsNearest(n: int, d: nat, x: real, m: int)
    requires d >= 1 && Times(x, d as real) == n as real
    requires Abs(x - m as real) <= 0.5 && (Abs(x - m as real) == 0.5 ==> m % 2 == 0)
    ensures Nearest(n, d, m)
  {
    GapByUnits(x, m as real, d as real);
    ProductsAgree(m, d);
    hide Times;
    var gap := n - m * d;
    assert gap as real == n as real - (m * d) as real;
  }

  lemma ProductsAgree(m: int, d: nat)
    ensures Times(m as real, d as real) == (m * d) as real
  {
  }

  lemma OverTimes(n: real, d: real)
    requires d >= 1.0
    ensures Times(Over(n, d), d) == n
  {
  }

  /** An amount with more decimals than its currency has is read as the nearest number of minor units, and as the even
      one of two as near. */
  lemma FinerAmountsAreRounded(unscaled: int, currency: string, more: nat)
    requires Known(currency) && more > 0
    ensures var read := ToMinor(Some(PlainText(unscaled, Scale(currency) + more)), currency, '.');
            read.Minor? && Nearest(unscaled, TenTo(more), read.units)
  {
    hide Known, Scale, PlainText, ParseNumber, Trim, Replace, TenTo, Pow10, HalfEven, Over, Times, Nearest;
    var text, exponent := PlainText(unscaled, Scale(currency) + more), Scale(currency);
    PlainRoundTrip(unscaled, exponent + more, None);
    assert text + Scientific(None) == text;
    PlainCharacters(unscaled, exponent + more);
    NothingToTrim(text);
    DotStays(text);
    PowersAgree(more);
    var x := Over(unscaled as real, Pow10(more));
    OverTimes(unscaled as real, Pow10(more));
    HalfEvenIsNearest(unscaled, TenTo(more), x, HalfEven(x));
  }

  /** The case of a currency code does not matter, and the known ones have the decimals of their minor units. */
  lemma CurrencyInAnyCase(currency: string)
    ensures Known(currency) <==> MinorUnits(Upper(currency)).Some?
    ensures Known(currency) ==> TenTo(Scale(currency)) == MinorUnits(Upper(currency)).value
  {
    UnitsArePowers(Upper(currency));
    if Known(currency) {
      PowersAgree(Scale(currency));
    }
  }

  lemma {:induction false} BlanksInFront(l: string, s: string)
    requires Blank(l) && s != "" && !IsSpace(s[0])
    ensures StripLeft(l + s) == s
  {
    hide IsSpace;
    if l == "" {
      assert l + s == s;
    } else {
      assert (l + s)[1..] == l[1..] + s;
      BlanksInFront(l[1..], s);
    }
  }

  lemma {:induction false} BlanksBehind(s: string, r: string)
    requires Blank(r) && s != "" && !IsSpace(s[|s| - 1])
    ensures StripRight(s + r) == s
  {
    hide IsSpace;
    if r == "" {
      assert s + r == s;
    } else {
      var n := |r| - 1;
      assert (s + r)[..|s + r| - 1] == s + r[..n];
      BlanksBehind(s, r[..n]);
    }
  }

  /** Blanks around an amount change nothing. */
  lemma BlanksAroundAreIgnored(l: string, s: string, r: string, currency: string, separator: char)
    requires Blank(l) && Blank(r) && s != "" && !IsSpace(s[0]) && !IsSpace(s[|s| - 1])
    ensures ToMinor(Some(l + s + r), currency, separator) == ToMinor(Some(s), currency, separator)
  {
    hide IsSpace, Blank, StripLeft, StripRight, ParseNumber, Replace, Known, Scale, InMinorUnits;
    assert l + s + r == l + (s + r);
    BlanksInFront(l, s + r);
    BlanksBehind(s, r);
    NothingToTrim(s);
  }

  /** Either case of the letter marks the power of ten. */
  lemma PowerInEitherCase(negative: bool, mantissa: string, power: string)
    requires forall k :: 0 <= k < |mantissa| ==> !IsExponentMark(mantissa[k])
    ensures ParseUnsigned(negative, mantissa + "e" + power) == ParseUnsigned(negative, mantissa + "E" + power)
  {
    hide NamesNonFinite, ParseExponent, ParseMantissa;
    var small, large := mantissa + "e" + power, mantissa + "E" + power;
    assert Upper(small) == Upper(large);
    EIsMark();
    MarkAfter(mantissa, "e" + power);
    MarkAfter(mantissa, "E" + power);
    assert mantissa + ("e" + power) == small && mantissa + ("E" + power) == large;
    assert small[..|mantissa|] == mantissa == large[..|mantissa|];
    assert small[|mantissa| + 1..] == power == large[|mantissa| + 1..];
  }

  // ------------------------------------------------------------------- thousands separators

  /** The digits in groups of three from the right. */
  function Grouped(digits: string, thousands: char): string {
    if |digits| <= 3 then digits else Grouped(digits[..|digits| - 3], thousands) + [thousands] + digits[|digits| - 3..]
  }

  lemma GroupedNext(digits: string, thousands: char)
    requires |digits| > 3
    ensures Grouped(digits, thousands)
            == Grouped(digits[..|digits| - 3], thousands) + ([thousands] + digits[|digits| - 3..])
  {
  }

  lemma {:induction false} GroupedUndone(digits: string, thousands: char)
    requires digits != "" && AllDigits(digits) && !IsDigit(thousands)
    ensures Remove(Grouped(digits, thousands), thousands) == digits
    ensures Grouped(digits, thousands) != "" && IsDigit(Grouped(digits, thousands)[0])
  {
    hide Remove;
    if |digits| <= 3 {
      RemoveAbsent(digits, thousands);
    } else {
      GroupedNext(digits, thousands);
      hide Grouped;
      var front, last := digits[..|digits| - 3], digits[|digits| - 3..];
      GroupedUndone(front, thousands);
      RemoveAppend(Grouped(front, thousands), [thousands] + last, thousands);
      RemoveAppend([thousands], last, thousands);
      RemoveAbsent(last, thousands);
      RemoveOne(thousands);
      assert digits == front + last;
      assert "" + last == last;
    }
  }

  /** From the right every fourth character is a separator, and the three before each are digits in their order. */
  lemma {:induction false} GroupsOfThree(digits: string, thousands: char, q: nat, r: nat)
    requires digits != "" && r < 4 && 4 * q + r < |Grouped(digits, thousands)|
    ensures var text, place := Grouped(digits, thousands), 3 * q + r;
            var found := text[|text| - 1 - (4 * q + r)];
            if r == 3 then found == thousands else place < |digits| && found == digits[|digits| - 1 - place]
    decreases |digits|
  {
    hide *;
    if |digits| <= 3 {
      NotGrouped(digits, thousands);
    } else {
      GroupedNext(digits, thousands);
      var front, last := digits[..|digits| - 3], [thousands] + digits[|digits| - 3..];
      var text, before := Grouped(digits, thousands), Grouped(front, thousands);
      if q == 0 {
        assert text[|text| - 1 - r] == last[3 - r];
      } else {
        GroupsOfThree(front, thousands, q - 1, r);
      }
    }
  }

  lemma NotGrouped(digits: string, thousands: char)
    requires |digits| <= 3
    ensures Grouped(digits, thousands) == digits
  {
  }

  lemma RemoveOne(c: char)
    ensures Remove([c], c) == ""
  {
    assert [c][..0] == "";
  }

  /** _csv_amount for an INR amount. With a thousands separator the part before the decimal separator
      goes through int(), which has no minus zero, and back. */
  function CsvAmount(amount: int, separator: char, thousands: Option<char>): string {
    if thousands == None then DecimalText(amount, 2, separator)
    else
      var whole := Signed(amount < 0, Units(Size(amount), 100));
      Written(whole < 0, Grouped(Digits(Size(whole)), thousands.value), separator, Padded(Rest(Size(amount), 100), 2))
  }

  /** normalise_amount in a currency with the given exponent; Unreadable for AmountNormalisationError. An
      infinity or a NaN gets past the parser and raises in Money.from_decimal. */
  function NormaliseAmount(text: string, exponent: nat, separator: char, thousands: Option<char>): Amount {
    var trimmed := Trim(text);
    var ungrouped := if thousands == None then trimmed else Remove(trimmed, thousands.value);
    var number := ParseNumber(if separator == '.' then ungrouped else Replace(ungrouped, separator, '.'));
    if number == None then Unreadable else InMinorUnits(number.value, exponent)
  }

  /** Without a thousands separator every amount comes back. */
  lemma CsvRoundTripPlain(amount: int, separator: char)
    requires Usable(separator, amount)
    ensures NormaliseAmount(CsvAmount(amount, separator, None), 2, separator, None) == Minor(amount)
  {
    hide DecimalText, PlainText, ParseNumber, ToMinorUnits, Trim, Replace;
    TrimmedText(amount, 2, separator);
    PlainRoundTrip(amount, 2, None);
    assert PlainText(amount, 2) + Scientific(None) == PlainText(amount, 2);
    SamePlaces(amount, 2);
    if separator == '.' {
      DotStays(DecimalText(amount, 2, '.'));
    }
  }

  /** With one, what comes back is the amount without the sign that int() dropped. */
  lemma CsvGroupedReads(amount: int, separator: char, thousands: char)
    requires !IsDigit(separator) && !IsDigit(thousands) && separator != thousands
    requires amount < 0 ==> separator != '-' && thousands != '-'
    ensures NormaliseAmount(CsvAmount(amount, separator, Some(thousands)), 2, separator, Some(thousands))
            == Minor(if -100 < amount < 0 then -amount else amount)
  {
    hide ParseNumber, ToMinorUnits, Digits, Padded, Grouped, Value, Trim, Remove, Replace, Written, TenTo;
    var size := Size(amount);
    HundredIsTenTo();
    WholeSize(amount);
    var negative := amount <= -100;
    var whole, fraction := Digits(Units(size, 100)), Padded(Rest(size, 100), 2);
    assert CsvAmount(amount, separator, Some(thousands))
           == Written(negative, Grouped(whole, thousands), separator, fraction);
    GroupedUndone(whole, thousands);
    WrittenTrimmed(negative, Grouped(whole, thousands), separator, fraction);
    Ungroup(negative, Grouped(whole, thousands), whole, separator, fraction, thousands);
    WrittenParses(negative, whole, fraction, None);
    assert Written(negative, whole, '.', fraction) + Scientific(None) == Written(negative, whole, '.', fraction);
    WrittenValue(size, 2);
    SamePlaces(Signed(negative, size), 2);
  }

  lemma HundredIsTenTo()
    ensures TenTo(2) == 100
  {
    assert TenTo(1) == 10;
  }

  lemma WholeSize(amount: int)
    ensures var whole := Signed(amount < 0, Units(Size(amount), 100));
            Size(whole) == Units(Size(amount), 100) && (whole < 0 <==> amount <= -100)
  {
  }

  lemma WrittenTrimmed(negative: bool, whole: string, separator: char, fraction: string)
    requires whole != "" && IsDigit(whole[0]) && fraction != "" && AllDigits(fraction)
    ensures Trim(Written(negative, whole, separator, fraction)) == Written(negative, whole, separator, fraction)
  {
    var text := Written(negative, whole, separator, fraction);
    assert text[0] == if negative then '-' else whole[0];
    assert text[|text| - 1] == fraction[|fraction| - 1];
    NothingToTrim(text);
  }

  lemma WrittenUngrouped(negative: bool, grouped: string, whole: string, separator: char, fraction: string,
                         thousands: char)
    requires negative ==> thousands != '-'
    requires Remove(grouped, thousands) == whole && AllDigits(fraction) && fraction != ""
    requires !IsDigit(thousands) && separator != thousands
    ensures Remove(Written(negative, grouped, separator, fraction), thousands)
            == Written(negative, whole, separator, fraction)
  {
    hide Remove;
    RemoveAppend(Sign(negative), grouped + ([separator] + fraction), thousands);
    RemoveAppend(grouped, [separator] + fraction, thousands);
    RemoveAbsent(Sign(negative), thousands);
    RemoveAbsent([separator] + fraction, thousands);
  }

  lemma WrittenPointed(negative: bool, whole: string, separator: char, fraction: string)
    requires negative ==> separator != '-'
    requires AllDigits(whole) && AllDigits(fraction) && !IsDigit(separator)
    ensures Replace(Written(negative, whole, separator, fraction), separator, '.')
            == Written(negative, whole, '.', fraction)
  {
    ReplaceAppend(Sign(negative), whole + Fraction(separator, fraction), separator, '.');
    ReplaceAppend(whole, Fraction(separator, fraction), separator, '.');
    ReplaceAbsent(Sign(negative), separator, '.');
    ReplaceAbsent(whole, separator, '.');
    if fraction != "" {
      ReplaceAppend([separator], fraction, separator, '.');
      ReplaceAbsent(fraction, separator, '.');
    }
  }

  lemma ReplaceAppend(a: string, b: string, x: char, y: char)
    ensures Replace(a + b, x, y) == Replace(a, x, y) + Replace(b, x, y)
    ensures Replace([x], x, y) == [y]
  {
  }

  lemma ReplaceAbsent(s: string, x: char, y: char)
    requires forall k :: 0 <= k < |s| ==> s[k] != x
    ensures Replace(s, x, y) == s
  {
  }

  /** Removing the thousands separators and restoring the point gives the plain text. */
  lemma Ungroup(negative: bool, grouped: string, whole: string, separator: char, fraction: string, thousands: char)
    requires negative ==> separator != '-' && thousands != '-'
    requires Remove(grouped, thousands) == whole && AllDigits(whole) && AllDigits(fraction) && fraction != ""
    requires !IsDigit(separator) && !IsDigit(thousands) && separator != thousands
    ensures var ungrouped := Remove(Written(negative, grouped, separator, fraction), thousands);
            (if separator == '.' then ungrouped else Replace(ungrouped, separator, '.'))
            == Written(negative, whole, '.', fraction)
  {
    hide Written, Remove, Replace;
    WrittenUngrouped(negative, grouped, whole, separator, fraction, thousands);
    WrittenPointed(negative, whole, separator, fraction);
  }

  /** The amount printed with a thousands separator is read back exactly unless it lies strictly
      between -1 and 0 rupees: int("-0") has no sign, and the negative amount comes back positive. */
  lemma CsvRoundTripIff(amount: int, separator: char, thousands: char)
    requires !IsDigit(separator) && !IsDigit(thousands) && separator != thousands
    requires amount < 0 ==> separator != '-' && thousands != '-'
    ensures NormaliseAmount(CsvAmount(amount, separator, Some(thousands)), 2, separator, Some(thousands))
            == Minor(amount)
            <==> !(-100 < amount < 0)
  {
    hide NormaliseAmount, CsvAmount;
    CsvGroupedReads(amount, separator, thousands);
  }
}
