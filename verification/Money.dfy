/** Decimal money strings and whole cents. */
module Money {
  import opened Wrappers
  import opened DecimalDigits

  /** The decimal digits of a number, without leading zeros. */
  function Digits(n: nat): (s: string)
    ensures |s| > 0 && AllDigits(s)
  {
    if n < 10 then [DigitChar(n)] else Digits(n / 10) + [DigitChar(n % 10)]
  }

  // ---------------------------------------------------------------------------
  // Parsing
  // ---------------------------------------------------------------------------

  /** `0`, or digits that do not begin with zero. */
  predicate IsWhole(w: string) {
    && AllDigits(w) && |w| > 0
    && (w[0] == '0' ==> |w| == 1)
  }

  function DigitRun(s: string): (n: nat)
    ensures n <= |s| && AllDigits(s[..n]) && (n < |s| ==> !IsDigit(s[n]))
  {
    if s == "" || !IsDigit(s[0]) then 0
    else
      var n := DigitRun(s[1..]);
      assert forall i :: 1 <= i < n + 1 ==> s[i] == s[1..][..n][i - 1];
      n + 1
  }

  /** The fraction padded with zeros to two digits. */
  function Pad(f: string): (p: string)
    requires AllDigits(f) && |f| <= 2
    ensures |p| == 2 && AllDigits(p)
  {
    if |f| == 2 then f else if |f| == 1 then f + "0" else "00"
  }

  /** Whole digits, then optionally a point and one or two digits; nothing before, between or after. */
  function MoneyInMinorUnits(s: string): Option<nat> {
    var n := DigitRun(s);
    var whole, rest := s[..n], s[n..];
    if !IsWhole(whole) then None
    else if rest == "" then Some(100 * Value(whole))
    else if rest[0] == '.' && 2 <= |rest| <= 3 && AllDigits(rest[1..]) then
      Some(100 * Value(whole) + Value(Pad(rest[1..])))
    else None
  }

  lemma {:induction false} DigitRunOf(w: string, rest: string)
    requires AllDigits(w) && (rest != "" ==> !IsDigit(rest[0]))
    ensures DigitRun(w + rest) == |w|
  {
    if w == "" {
      assert w + rest == rest;
    } else {
      assert (w + rest)[1..] == w[1..] + rest;
      DigitRunOf(w[1..], rest);
    }
  }

  lemma WholeParses(w: string)
    requires IsWhole(w)
    ensures MoneyInMinorUnits(w) == Some(100 * Value(w))
  {
    DigitRunOf(w, "");
    assert w + "" == w && w[..|w|] == w && w[|w|..] == "";
  }

  lemma FractionParses(w: string, f: string)
    requires IsWhole(w) && AllDigits(f) && 1 <= |f| <= 2
    ensures MoneyInMinorUnits(w + "." + f) == Some(100 * Value(w) + Value(Pad(f)))
  {
    hide Value, Pad;
    var rest := "." + f;
    assert w + "." + f == w + rest;
    DigitRunOf(w, rest);
    assert (w + rest)[..|w|] == w && (w + rest)[|w|..] == rest && rest[1..] == f;
  }

  /** What parses is of the grammar, with the value the grammar gives it. */
  lemma ParsedIsGrammar(s: string) returns (w: string, f: string)
    requires MoneyInMinorUnits(s).Some?
    ensures IsWhole(w) && AllDigits(f) && |f| <= 2
    ensures s == if f == "" then w else w + "." + f
    ensures MoneyInMinorUnits(s) == Some(100 * Value(w) + Value(Pad(f)))
  {
    var n := DigitRun(s);
    w := s[..n];
    var rest := s[n..];
    assert s == w + rest;
    if rest == "" {
      f := "";
      assert Value("00") == 0 by { assert "00"[..1] == "0" && "0"[..0] == ""; }
    } else {
      f := rest[1..];
      assert rest == "." + f;
      assert s == w + "." + f;
    }
  }

  /** `s` is the whole digits `w`, followed by a point and the digits `f` if there are any. */
  predicate IsAmount(s: string, w: string, f: string) {
    IsWhole(w) && AllDigits(f) && |f| <= 2 && s == if f == "" then w else w + "." + f
  }

  function AmountValue(w: string, f: string): nat
    requires AllDigits(w) && AllDigits(f) && |f| <= 2
  {
    100 * Value(w) + Value(Pad(f))
  }

  /** A string parses to a number of cents exactly when it is an amount of the grammar with that value. */
  lemma ParsesExactlyGrammar(s: string, cents: nat)
    ensures MoneyInMinorUnits(s) == Some(cents)
       <==> exists w, f :: IsAmount(s, w, f) && AmountValue(w, f) == cents
  {
    hide MoneyInMinorUnits, Value, Pad;
    if MoneyInMinorUnits(s) == Some(cents) {
      var w, f := ParsedIsGrammar(s);
      assert IsAmount(s, w, f) && AmountValue(w, f) == cents;
    }
    forall w, f | IsAmount(s, w, f) && AmountValue(w, f) == cents ensures MoneyInMinorUnits(s) == Some(cents) {
      AmountParses(w, f);
    }
  }

  lemma AmountParses(w: string, f: string)
    requires IsWhole(w) && AllDigits(f) && |f| <= 2
    ensures MoneyInMinorUnits(if f == "" then w else w + "." + f) == Some(AmountValue(w, f))
  {
    hide MoneyInMinorUnits;
    if f == "" {
      WholeParses(w);
      NoCents();
    } else {
      FractionParses(w, f);
    }
  }

  lemma NoCents()
    ensures Value(Pad("")) == 0
  {
    assert "00"[..1] == "0" && "0"[..0] == "";
  }

  // ---------------------------------------------------------------------------
  // The grammar, character by character
  // ---------------------------------------------------------------------------

  ghost predicate Digit(c: char) {
    c in ['0', '1', '2', '3', '4', '5', '6', '7', '8', '9']
  }

  /** Digits, at least one, and the first of several is not zero. */
  ghost predicate NoLeadingZero(w: string) {
    && |w| > 0 && (forall c :: c in w ==> Digit(c))
    && (|w| > 1 ==> w[0] != '0')
  }

  lemma DigitExactly(c: char)
    ensures IsDigit(c) <==> Digit(c)
  {
    var all := ['0', '1', '2', '3', '4', '5', '6', '7', '8', '9'];
    if IsDigit(c) {
      assert all[c as int - '0' as int] == c;
    }
  }

  lemma WholeExactly(w: string)
    ensures IsWhole(w) <==> NoLeadingZero(w)
  {
    forall c ensures IsDigit(c) <==> Digit(c) {
      DigitExactly(c);
    }
    hide IsDigit, Digit;
    if NoLeadingZero(w) {
      assert forall i :: 0 <= i < |w| ==> w[i] in w;
    }
  }

  /** The value of a string of digits grows tenfold, and by the digit, with each digit appended. */
  lemma ValueByDigits(s: string, c: char)
    requires AllDigits(s) && IsDigit(c)
    ensures AllDigits(s + [c]) && Value(s + [c]) == 10 * Value(s) + (c as int - '0' as int)
    ensures Value("") == 0
  {
    assert (s + [c])[..|s|] == s;
  }

  /** `s` is an amount of `cents`: the whole units `w`, or those with tenths, or with tenths and hundredths. */
  ghost predicate Amounts(s: string, w: string, f: string, cents: int) {
    && NoLeadingZero(w) && AllDigits(w) && (forall c :: c in f ==> Digit(c))
    && (|| (|f| == 0 && s == w && cents == 100 * Value(w))
        || (|f| == 1 && s == w + "." + f && cents == 100 * Value(w) + 10 * (f[0] as int - '0' as int))
        || (|f| == 2 && s == w + "." + f
            && cents == 100 * Value(w) + 10 * (f[0] as int - '0' as int) + (f[1] as int - '0' as int)))
  }

  lemma OneDecimal(w: string, a: char)
    requires IsWhole(w) && IsDigit(a)
    ensures MoneyInMinorUnits(w + "." + [a]) == Some(100 * Value(w) + 10 * (a as int - '0' as int))
  {
    hide MoneyInMinorUnits, IsWhole;
    FractionParses(w, [a]);
    assert Pad([a]) == [a, '0'];
    TwoDigitValue([a, '0']);
  }

  lemma TwoDecimals(w: string, a: char, b: char)
    requires IsWhole(w) && IsDigit(a) && IsDigit(b)
    ensures MoneyInMinorUnits(w + "." + [a, b])
         == Some(100 * Value(w) + 10 * (a as int - '0' as int) + (b as int - '0' as int))
  {
    hide MoneyInMinorUnits, IsWhole;
    FractionParses(w, [a, b]);
    assert Pad([a, b]) == [a, b];
    TwoDigitValue([a, b]);
  }

  /** A string parses exactly when it is an amount, and to its cents: whole units without leading zeros, then
      nothing, or a point and one or two digits, of which a single one counts tenths. */
  lemma MoneyExactly(s: string, cents: nat)
    ensures MoneyInMinorUnits(s) == Some(cents) <==> exists w, f :: Amounts(s, w, f, cents)
  {
    hide MoneyInMinorUnits, Value, Pad;
    if MoneyInMinorUnits(s) == Some(cents) {
      var w, f := ParsedIsGrammar(s);
      WholeExactly(w);
      ParsedAmounts(s, w, f, cents);
    }
    if w, f :| Amounts(s, w, f, cents) {
      WholeExactly(w);
      AmountsParse(s, w, f, cents);
    }
  }

  lemma AllOf(f: string)
    requires AllDigits(f)
    ensures forall c :: c in f ==> Digit(c)
  {
    forall c | c in f ensures Digit(c) {
      var i :| 0 <= i < |f| && f[i] == c;
      DigitExactly(f[i]);
    }
  }

  lemma ParsedAmounts(s: string, w: string, f: string, cents: nat)
    requires MoneyInMinorUnits(s) == Some(cents) && IsWhole(w) && NoLeadingZero(w) && AllDigits(f) && |f| <= 2
    requires s == if f == "" then w else w + "." + f
    ensures Amounts(s, w, f, cents)
  {
    AllOf(f);
    hide MoneyInMinorUnits, Value, IsWhole, NoLeadingZero, Digit;
    if |f| == 0 {
      WholeParses(w);
    } else if |f| == 1 {
      OneDecimal(w, f[0]);
      assert f == [f[0]];
    } else {
      TwoDecimals(w, f[0], f[1]);
      assert f == [f[0], f[1]];
    }
  }

  lemma AmountsParse(s: string, w: string, f: string, cents: nat)
    requires IsWhole(w) && Amounts(s, w, f, cents)
    ensures MoneyInMinorUnits(s) == Some(cents)
  {
    hide MoneyInMinorUnits, Value, IsWhole, NoLeadingZero;
    if |f| == 0 {
      WholeParses(w);
    } else {
      assert f[0] in f;
      DigitExactly(f[0]);
      if |f| == 1 {
        OneDecimal(w, f[0]);
        assert f == [f[0]];
      } else {
        assert f[1] in f;
        DigitExactly(f[1]);
        TwoDecimals(w, f[0], f[1]);
        assert f == [f[0], f[1]];
      }
    }
  }

  // ---------------------------------------------------------------------------
  // Printing
  // ---------------------------------------------------------------------------

  /** A number of cents with two decimals. */
  function PrintCents(c: nat): string {
    Digits(c / 100) + "." + [DigitChar(c % 100 / 10), DigitChar(c % 10)]
  }

  lemma {:induction false} DigitsAreCanonical(n: nat)
    ensures IsWhole(Digits(n)) && Value(Digits(n)) == n
    ensures n > 0 ==> Digits(n)[0] != '0'
  {
    var s := Digits(n);
    if n >= 10 {
      DigitsAreCanonical(n / 10);
      assert s[..|s| - 1] == Digits(n / 10);
    } else {
      assert s[..0] == "";
    }
  }

  lemma TwoDigitValue(f: string)
    requires AllDigits(f) && |f| == 2
    ensures Value(f) == 10 * DigitValue(f[0]) + DigitValue(f[1])
  {
    assert f[..1][..0] == "" && f[..1] == [f[0]];
    assert Value(f[..1]) == DigitValue(f[0]);
  }

  /** The printed total parses back to the same number of cents. */
  lemma PrintedParses(c: nat)
    ensures MoneyInMinorUnits(PrintCents(c)) == Some(c)
  {
    hide MoneyInMinorUnits;
    var f := [DigitChar(c % 100 / 10), DigitChar(c % 10)];
    DigitsAreCanonical(c / 100);
    FractionParses(Digits(c / 100), f);
    TwoDigitValue(f);
    assert Pad(f) == f;
  }

  lemma {:induction false} WholeIsDigits(w: string)
    requires IsWhole(w)
    ensures Digits(Value(w)) == w
    decreases |w|
  {
    hide DigitValue, DigitChar;
    var n := |w| - 1;
    if n == 0 {
      OneDigit(w);
    } else {
      WholeIsDigits(w[..n]);
      assert w == w[..n] + [w[n]];
      PositiveWhole(w[..n]);
      DigitsStep(Value(w[..n]), w[n]);
    }
  }

  lemma OneDigit(w: string)
    requires AllDigits(w) && |w| == 1
    ensures Digits(Value(w)) == w
  {
    assert w[..0] == "" && w == [w[0]];
  }

  lemma DigitsStep(a: nat, d: char)
    requires a > 0 && IsDigit(d)
    ensures Digits(10 * a + DigitValue(d)) == Digits(a) + [d]
  {
    var v := 10 * a + DigitValue(d);
    assert v / 10 == a && v % 10 == DigitValue(d) by { Quotient10(v, a, DigitValue(d)); }
  }

  lemma Quotient10(v: nat, q: nat, r: nat)
    requires v == 10 * q + r && r < 10
    ensures v / 10 == q && v % 10 == r
  {
  }

  lemma {:induction false} PositiveWhole(w: string)
    requires IsWhole(w) && w[0] != '0'
    ensures Value(w) > 0
    decreases |w|
  {
    if |w| > 1 {
      PositiveWhole(w[..|w| - 1]);
    } else {
      assert w[..0] == "";
    }
  }

  /** Printing undoes parsing on every two-decimal string: no two of them stand for the same amount. */
  lemma ParsedPrints(w: string, f: string)
    requires IsWhole(w) && AllDigits(f) && |f| == 2
    ensures MoneyInMinorUnits(w + "." + f).Some? && PrintCents(MoneyInMinorUnits(w + "." + f).value) == w + "." + f
  {
    hide MoneyInMinorUnits;
    FractionParses(w, f);
    TwoDigitValue(f);
    WholeIsDigits(w);
    assert Pad(f) == f;
    var v := Value(f);
    assert v < 100;
    assert f == [DigitChar(v / 10), DigitChar(v % 10)];
    CentsSplit(Value(w), v);
  }

  lemma CentsSplit(w: nat, v: nat)
    requires v < 100
    ensures (100 * w + v) / 100 == w && (100 * w + v) % 100 == v && (100 * w + v) % 10 == v % 10
  {
    Quotient100(100 * w + v, w, v);
    Remainder10(100 * w + v, 10 * w + v / 10, v % 10);
  }

  lemma Quotient100(a: nat, q: nat, r: nat)
    requires a == 100 * q + r && r < 100
    ensures a / 100 == q && a % 100 == r
  {
  }

  lemma Remainder10(a: nat, q: nat, r: nat)
    requires a == 10 * q + r && r < 10
    ensures a % 10 == r
  {
  }

  // ---------------------------------------------------------------------------
  // Totals
  // ---------------------------------------------------------------------------

  /** A price, where the empty string stands for nothing to pay. */
  function Cents(price: string): Option<nat> {
    if price == "" then Some(0) else MoneyInMinorUnits(price)
  }

  function Total(prices: seq<string>): nat
    requires forall i :: 0 <= i < |prices| ==> Cents(prices[i]).Some?
  {
    if prices == [] then 0 else Total(prices[..|prices| - 1]) + Cents(prices[|prices| - 1]).value
  }

  /** Empty prices add nothing. */
  lemma {:induction false} NothingToPay(prices: seq<string>)
    requires forall i :: 0 <= i < |prices| ==> prices[i] == "" && Cents(prices[i]).Some?
    ensures Total(prices) == 0
    decreases |prices|
  {
    if prices != [] {
      NothingToPay(prices[..|prices| - 1]);
    }
  }

  /** The two-decimal string whose value in cents is the sum of the prices. */
  method CalculateTotalAmount(prices: seq<string>) returns (r: string)
    requires forall i :: 0 <= i < |prices| ==> Cents(prices[i]).Some?
    ensures MoneyInMinorUnits(r) == Some(Total(prices))
    ensures exists w, f :: IsWhole(w) && AllDigits(f) && |f| == 2 && r == w + "." + f
  {
    hide MoneyInMinorUnits;
    var totalCents := 0;
    var i := 0;
    while i < |prices|
      invariant 0 <= i <= |prices| && totalCents == Total(prices[..i])
    {
      assert prices[..i + 1][..i] == prices[..i];
      totalCents := totalCents + Cents(prices[i]).value;
      i := i + 1;
    }
    assert prices[..i] == prices;
    PrintedParses(totalCents);
    r := PrintCents(totalCents);
    DigitsAreCanonical(totalCents / 100);
  }
}
