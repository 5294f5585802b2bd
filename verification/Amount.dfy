/**
 Amounts in OFX files: a signed decimal string becomes int64 cents. Strings are sequences of code points.
 Amounts with more than two decimals take the service's float64 path, which is not modelled.
 */
module Amount {
  import opened Wrappers
  import opened Int64
  import opened Strings

  /** The largest whole part whose hundredfold fits an int64. */
  const MAX_WHOLE: int := MAX / 100

  datatype Parsed = Cents(value: int) | Invalid | ByFloat

  /* ---------- The library calls it makes ---------- */

  predicate IsDigit(c: char) {
    '0' <= c <= '9'
  }

  predicate AllDigits(s: string) {
    forall i :: 0 <= i < |s| ==> IsDigit(s[i])
  }

  function Digit(c: char): int {
    c as int - '0' as int
  }

  /** The number a string of digits denotes. */
  function Number(digits: string): (n: nat)
    requires AllDigits(digits)
  {
    if digits == "" then 0 else 10 * Number(digits[..|digits| - 1]) + Digit(digits[|digits| - 1])
  }

  predicate StartsWithSign(s: string) {
    s != "" && (s[0] == '-' || s[0] == '+')
  }

  function Unsigned(s: string): string {
    if StartsWithSign(s) then s[1..] else s
  }

  predicate Negative(s: string) {
    s != "" && s[0] == '-'
  }

  function Negate(negative: bool, x: int): int {
    if negative then -x else x
  }

  /** strconv.ParseInt in base 10 with 64 bits. */
  function ParseInt(s: string): Option<int> {
    var digits := Unsigned(s);
    if digits == "" || !AllDigits(digits) then None
    else if InRange(Negate(Negative(s), Number(digits))) then Some(Negate(Negative(s), Number(digits)))
    else None
  }

  /* ---------- What the result is ---------- */

  function Padded(frac: string): string {
    if |frac| == 1 then frac + "0" else frac
  }

  /** The amount without its sign. */
  function ParseMagnitude(s: string): Parsed {
    var p := Find('.', s);
    var whole := ParseInt(s[..p]);
    if whole.None? || whole.value > MAX_WHOLE then Invalid
    else if p == |s| || s[p + 1..] == "" then Cents(Wrap(whole.value * 100))
    else if |s[p + 1..]| > 2 then ByFloat
    else
      var frac := ParseInt(Padded(s[p + 1..]));
      if frac.None? then Invalid else Cents(Wrap(whole.value * 100 + frac.value))
  }

  function Parse(s: string): Parsed {
    var t := TrimSpace(s);
    var magnitude := Unsigned(t);
    if magnitude == "" then Invalid
    else
      match ParseMagnitude(magnitude)
      case Cents(v) => Cents(Wrap(Negate(Negative(t), v)))
      case other => other
  }

  /** The amount in cents, step by step. */
  method ParseAmount(text: string) returns (r: Parsed)
    ensures r == Parse(text)
  {
    hide TrimSpace, Find, ParseInt, Wrap;
    var s := TrimSpace(text);
    if s == "" { return Invalid; }
    var negative := false;
    if s[0] == '-' {
      negative := true;
      s := s[1..];
    } else if s[0] == '+' {
      s := s[1..];
    }
    if s == "" { return Invalid; }
    var cents: int := 0;
    var p := Find('.', s);
    var whole := ParseInt(s[..p]);
    if whole.None? || whole.value > MAX_WHOLE { return Invalid; }
    if p == |s| {
      cents := Wrap(whole.value * 100);
    } else {
      var frac := s[p + 1..];
      if frac == "" {
        cents := Wrap(whole.value * 100);
      } else if |frac| <= 2 {
        ghost var read := frac;
        while |frac| < 2
          invariant |read| <= |frac| <= 2 && (frac == read || frac == Padded(read))
          decreases 2 - |frac|
        {
          frac := frac + "0";
        }
        var hundredths := ParseInt(frac);
        if hundredths.None? { return Invalid; }
        WrapAbsorbs(whole.value * 100, hundredths.value);
        cents := Wrap(Wrap(whole.value * 100) + hundredths.value);
      } else {
        return ByFloat;
      }
    }
    if negative { cents := Wrap(-cents); }
    return Cents(cents);
  }

  /* ---------- Which strings are amounts, and of how much ---------- */

  datatype Sign = Plain | Plus | Minus
  {
    function Text(): string {
      match this
      case Plain => ""
      case Plus => "+"
      case Minus => "-"
    }
  }

  /** sign and whole with their own sign in between, then perhaps a point, a third sign and up to two digits. */
  datatype Literal = Literal(sign: Sign, inner: Sign, whole: string, point: bool, fracSign: Sign, frac: string)
  {
    predicate Valid() {
      && (inner != Plain ==> sign != Plain)
      && whole != "" && AllDigits(whole)
      && AllDigits(frac) && |fracSign.Text()| + |frac| <= 2
      && (!point ==> fracSign == Plain && frac == "")
    }

    function Text(): string {
      sign.Text() + Magnitude()
    }

    function Magnitude(): string {
      inner.Text() + whole + if point then "." + (fracSign.Text() + frac) else ""
    }

    /** The literal has no sign but the first one. */
    predicate Ordinary() {
      Valid() && inner == Plain && fracSign == Plain
    }

    function Whole(): int
      requires AllDigits(whole)
    {
      Negate(inner == Minus, Number(whole))
    }

    /** One digit counts tenths, but only without a sign in front of it. */
    function Hundredths(): int
      requires AllDigits(frac)
    {
      if fracSign == Plain && |frac| == 1 then 10 * Number(frac) else Negate(fracSign == Minus, Number(frac))
    }

    /** What the literal means, in cents. */
    function Value(): int
      requires AllDigits(whole) && AllDigits(frac)
    {
      Negate(sign == Minus, 100 * Whole() + Hundredths())
    }
  }

  lemma SignedInt(sign: Sign, digits: string)
    requires digits != "" && AllDigits(digits)
    ensures var v := Negate(sign == Minus, Number(digits));
            ParseInt(sign.Text() + digits) == if InRange(v) then Some(v) else None
  {
    var s := sign.Text() + digits;
    if sign == Plain { assert s == digits && IsDigit(digits[0]); } else { assert s[1..] == digits; }
  }

  lemma SmallNumber(digits: string)
    requires AllDigits(digits) && |digits| <= 2
    ensures Number(digits) <= 99
    ensures digits == "" ==> Number(digits) == 0
    ensures |digits| == 1 ==> Number(digits) == Digit(digits[0])
    ensures |digits| == 2 ==> Number(digits) == 10 * Digit(digits[0]) + Digit(digits[1])
  {
    if |digits| >= 1 {
      assert digits[..0] == "";
      if |digits| == 2 {
        assert digits[..1][..0] == "";
        assert Number(digits[..1]) == Digit(digits[0]);
      }
    }
  }

  lemma HundredthsParse(l: Literal)
    requires l.Valid() && l.point && l.fracSign.Text() + l.frac != ""
    ensures ParseInt(Padded(l.fracSign.Text() + l.frac)) == Some(l.Hundredths()) && -9 <= l.Hundredths() <= 99
  {
    hide Number;
    var text := l.fracSign.Text() + l.frac;
    SmallNumber(l.frac);
    if |text| == 1 {
      var digits := l.frac + "0";
      assert Padded(text) == l.fracSign.Text() + digits;
      SmallNumber(digits);
      SignedInt(l.fracSign, digits);
    } else {
      SignedInt(l.fracSign, l.frac);
    }
  }

  /** The text without its first sign falls apart at the point. */
  lemma MagnitudeSplits(l: Literal)
    requires l.Valid()
    ensures var head, magnitude := l.inner.Text() + l.whole, l.Magnitude();
            && Find('.', magnitude) == |head| && magnitude[..|head|] == head
            && (l.point ==> |head| < |magnitude| && magnitude[|head| + 1..] == l.fracSign.Text() + l.frac)
            && (!l.point ==> |head| == |magnitude|)
  {
    hide Find;
    var head, magnitude := l.inner.Text() + l.whole, l.Magnitude();
    assert forall k :: 0 <= k < |l.whole| ==> IsDigit(l.whole[k]);
    FindIs('.', magnitude, |head|);
  }

  lemma MagnitudeParses(l: Literal)
    requires l.Valid()
    ensures ParseMagnitude(l.Magnitude()) ==
              if MIN <= l.Whole() <= MAX_WHOLE then Cents(Wrap(100 * l.Whole() + l.Hundredths())) else Invalid
  {
    hide Wrap, ParseInt, Number, Find, Padded, Sign.Text, AllDigits, Literal.Magnitude;
    MagnitudeSplits(l);
    SignedInt(l.inner, l.whole);
    SmallNumber(l.frac);
    if l.point && l.fracSign.Text() + l.frac != "" { HundredthsParse(l); }
  }

  lemma WrapNegates(x: int)
    ensures Wrap(-Wrap(x)) == Wrap(-x)
  {
    var k := (x - MIN) / MODULUS;
    assert Wrap(x) == x - k * MODULUS;
    ShiftKeepsRemainder(-x - MIN, k);
  }

  /** Every literal parses: to its value modulo 2^64, unless its whole part is too large. */
  lemma LiteralParses(before: string, l: Literal, after: string)
    requires l.Valid() && IsPad(before) && IsPad(after)
    ensures Parse(before + l.Text() + after) == if MIN <= l.Whole() <= MAX_WHOLE then Cents(Wrap(l.Value())) else Invalid
  {
    hide Wrap, ParseMagnitude, Number, TrimSpace, IsSpace;
    LiteralEnds(l);
    TrimDrops(before, l.Text(), after);
    SignComesOff(l);
    MagnitudeParses(l);
    WrapNegates(100 * l.Whole() + l.Hundredths());
  }

  lemma SignComesOff(l: Literal)
    requires l.Valid()
    ensures Unsigned(l.Text()) == l.Magnitude() && l.Magnitude() != "" && (Negative(l.Text()) <==> l.sign == Minus)
  {
    var t, magnitude := l.Text(), l.Magnitude();
    if l.sign == Plain {
      assert t == magnitude && IsDigit(l.whole[0]) && t[0] == l.whole[0];
    } else {
      assert t[1..] == magnitude;
    }
  }

  lemma LiteralEnds(l: Literal)
    requires l.Valid()
    ensures l.Text() != "" && !IsSpace(l.Text()[0]) && !IsSpace(l.Text()[|l.Text()| - 1])
  {
    var t := l.Text();
    assert forall c :: IsDigit(c) ==> !IsSpace(c);
    assert IsDigit(l.whole[0]) && IsDigit(l.whole[|l.whole| - 1]);
    if l.frac != "" { assert IsDigit(l.frac[|l.frac| - 1]) && t[|t| - 1] == l.frac[|l.frac| - 1]; }
  }

  /** The sign in front of a string of digits. */
  function SignOf(s: string): Sign {
    if !StartsWithSign(s) then Plain else if s[0] == '-' then Minus else Plus
  }

  lemma SignSplits(s: string)
    ensures SignOf(s).Text() + Unsigned(s) == s
  {
  }

  lemma IntDigits(s: string)
    requires ParseInt(s).Some?
    ensures Unsigned(s) != "" && AllDigits(Unsigned(s)) && SignOf(s).Text() + Unsigned(s) == s
  {
  }

  lemma MagnitudeShape(s: string) returns (l: Literal)
    requires ParseMagnitude(s).Cents?
    ensures l.Valid() && l.sign == Plus && l.Magnitude() == s
  {
    hide Wrap, ParseInt, Padded, Find, SignOf, Unsigned;
    var p := Find('.', s);
    var head, tail := s[..p], if p < |s| then s[p + 1..] else "";
    IntDigits(head);
    FindFirst('.', s);
    SplitAt(s, p);
    var fracSign, frac := Plain, "";
    if tail != "" {
      FractionDigits(tail);
      fracSign, frac := SignOf(tail), Unsigned(tail);
    }
    l := ShapeOf(s, p < |s|, SignOf(head), Unsigned(head), fracSign, frac, tail);
  }

  lemma SplitAt(s: string, p: nat)
    requires p <= |s| && (p < |s| ==> s[p] == '.')
    ensures s == s[..p] + if p < |s| then "." + s[p + 1..] else ""
  {
    if p < |s| {
      var joined := s[..p] + ("." + s[p + 1..]);
      forall k | 0 <= k < |s| ensures joined[k] == s[k] { }
    }
  }

  lemma ShapeOf(s: string, point: bool, inner: Sign, whole: string, fracSign: Sign, frac: string, tail: string) returns (l: Literal)
    requires s == inner.Text() + whole + (if point then "." + tail else "") && tail == fracSign.Text() + frac
    requires whole != "" && AllDigits(whole) && AllDigits(frac) && |tail| <= 2 && (!point ==> fracSign == Plain && frac == "")
    ensures l.Valid() && l.sign == Plus && l.Magnitude() == s
  {
    l := Literal(Plus, inner, whole, point, fracSign, frac);
  }

  /** Nothing else parses to an amount. */
  lemma OnlyLiterals(s: string) returns (l: Literal)
    requires Parse(s).Cents?
    ensures l.Valid() && TrimSpace(s) == l.Text()
  {
    hide TrimSpace, ParseMagnitude, Wrap;
    var t := TrimSpace(s);
    SignSplits(t);
    var m := MagnitudeShape(Unsigned(t));
    l := m.(sign := SignOf(t));
    if m.inner != Plain {
      assert m.Magnitude()[0] == m.inner.Text()[0];
      assert StartsWithSign(Unsigned(t));
    }
  }

  lemma FractionDigits(tail: string)
    requires 1 <= |tail| <= 2 && ParseInt(Padded(tail)).Some?
    ensures AllDigits(Unsigned(tail)) && SignOf(tail).Text() + Unsigned(tail) == tail
  {
    var padded := Unsigned(Padded(tail));
    assert forall i :: 0 <= i < |Unsigned(tail)| ==> Unsigned(tail)[i] == padded[i];
  }

  /* ---------- When the result is right ---------- */

  lemma HundredthsBound(l: Literal)
    requires l.Valid()
    ensures -9 <= l.Hundredths() <= 99 && (l.Ordinary() ==> 0 <= l.Hundredths())
  {
    SmallNumber(l.frac);
  }

  /** A literal comes out exactly when its value in cents fits an int64. */
  lemma ExactIff(before: string, l: Literal, after: string)
    requires l.Valid() && IsPad(before) && IsPad(after)
    ensures Parse(before + l.Text() + after) == Cents(l.Value()) <==> InRange(l.Value())
  {
    hide Parse, Wrap, Number;
    LiteralParses(before, l, after);
    HundredthsBound(l);
  }

  /** The only ordinary amounts accepted with a wrong result have the largest whole part and 08 to 99 cents; minus
      that whole part and 08 cents is the smallest int64 and comes out right. */
  lemma OverflowIff(before: string, l: Literal, after: string)
    requires l.Ordinary() && IsPad(before) && IsPad(after)
    ensures Parse(before + l.Text() + after).Cents? && Parse(before + l.Text() + after).value != l.Value() <==>
              l.Whole() == MAX_WHOLE && l.Hundredths() >= (if l.sign == Minus then 9 else 8)
    ensures Parse(before + l.Text() + after) == Invalid <==> l.Whole() > MAX_WHOLE
  {
    hide Parse, Wrap, Number;
    LiteralParses(before, l, after);
    HundredthsBound(l);
  }

  predicate ParsesTo(text: string, cents: int) {
    Parse(text) == Cents(cents)
  }

  lemma Means(l: Literal, text: string, value: int)
    requires l.Valid() && l.Text() == text && l.Value() == value && InRange(value)
    ensures ParsesTo(text, value)
  {
    hide Parse, Wrap, Number;
    ExactIff("", l, "");
    assert "" + text + "" == text;
  }

  /** A second sign is accepted: two minus signs cancel, and a sign after the point turns tenths into hundredths
      that count for or against the units. */
  lemma ExtraSigns()
    ensures ParsesTo("--5", 500)
    ensures ParsesTo("7.5", 750) && ParsesTo("7.+5", 705) && ParsesTo("7.-5", 695)
    ensures ParsesTo("7.-", 700)
  {
    hide Parse;
    SmallNumber("5");
    SmallNumber("7");
    SmallNumber("");
    Means(Literal(Minus, Minus, "5", false, Plain, ""), "--5", 500);
    Means(Literal(Plain, Plain, "7", true, Plain, "5"), "7.5", 750);
    Means(Literal(Plain, Plain, "7", true, Plus, "5"), "7.+5", 705);
    Means(Literal(Plain, Plain, "7", true, Minus, "5"), "7.-5", 695);
    Means(Literal(Plain, Plain, "7", true, Minus, ""), "7.-", 700);
  }

  /** The size check looks at one side only: with a sign of its own the whole part may be too small, and is then
      accepted with a wrong result. */
  lemma SmallWholeWraps(l: Literal)
    requires l.Valid() && MIN <= l.Whole() < -MAX_WHOLE - 1
    ensures l.inner == Minus
    ensures Parse(l.Text()).Cents? && Parse(l.Text()).value != l.Value()
  {
    hide Parse, Wrap, Number;
    LiteralParses("", l, "");
    ExactIff("", l, "");
    HundredthsBound(l);
    assert "" + l.Text() + "" == l.Text();
  }

  /* ---------- Printing and reading back ---------- */

  function DigitChar(d: int): (c: char)
    requires 0 <= d <= 9
    ensures IsDigit(c) && Digit(c) == d
  {
    '0' + d as char
  }

  function Digits(n: nat): (s: string)
    ensures s != "" && AllDigits(s)
  {
    if n < 10 then [DigitChar(n)] else Digits(n / 10) + [DigitChar(n % 10)]
  }

  lemma {:induction false} DigitsDenote(n: nat)
    ensures Number(Digits(n)) == n
  {
    if n < 10 {
      assert [DigitChar(n)][..0] == "";
    } else {
      DigitsDenote(n / 10);
      assert Digits(n)[..|Digits(n)| - 1] == Digits(n / 10);
    }
  }

  /** Sign, units, a point and two decimals. */
  function Printed(cents: int): Literal {
    var n := if cents < 0 then -cents else cents;
    Literal(if cents < 0 then Minus else Plain, Plain, Digits(n / 100), true, Plain, [DigitChar(n % 100 / 10), DigitChar(n % 100 % 10)])
  }

  lemma TwoDigits(n: nat)
    requires n <= 99
    ensures AllDigits([DigitChar(n / 10), DigitChar(n % 10)]) && Number([DigitChar(n / 10), DigitChar(n % 10)]) == n
  {
    SmallNumber([DigitChar(n / 10), DigitChar(n % 10)]);
  }

  lemma PrintedValue(cents: int)
    ensures Printed(cents).Valid() && Printed(cents).Value() == cents
  {
    var n := if cents < 0 then -cents else cents;
    DigitsDenote(n / 100);
    TwoDigits(n % 100);
    hide Number, Digits, AllDigits, DigitChar;
  }

  /** Printed as W.FF and parsed, the amount comes back. */
  predicate ComesBack(cents: int) {
    ParsesTo(Printed(cents).Text(), cents)
  }

  /** Every int64, the smallest one included, survives printing and parsing, and no other number does. */
  lemma RoundTrip(cents: int)
    ensures ComesBack(cents) <==> InRange(cents)
  {
    hide Parse, Printed, Wrap;
    var l := Printed(cents);
    PrintedValue(cents);
    ExactIff("", l, "");
    assert "" + l.Text() + "" == l.Text();
  }
}
