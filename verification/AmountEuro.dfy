/**
 The word EURO, whose last letter the OCR reader may take for a zero: when the readers still
 agree.
 */
module AmountEuro {
  import opened Wrappers
  import opened Text
  import opened Amount
  import opened AmountTheorems
  import opened AmountAgreement
  import AmountPrinting

  /** The word EURO in any letter case, ending in one of the two letters that are read as zeros. */
  ghost predicate EuroWord(k: Casing, w: string) {
    k.Upper(w) == "EURO" && (w[3] == 'O' || w[3] == 'o')
  }

  lemma WordChars(k: Casing, w: string)
    requires k.Lawful() && EuroWord(k, w)
    ensures |w| == 4 && forall i :: 0 <= i < 4 ==> !IsNumeric(w[i]) && !IsSpace(w[i]) && w[i] != '$'
    ensures forall i :: 0 <= i < 3 ==> w[i] !in {'O', 'o', 'I', 'l'}
    ensures k.Upper(w[..3]) == "EUR"
  {
    var u := k.Upper(w);
    forall i | 0 <= i < 4 ensures !IsNumeric(w[i]) && !IsSpace(w[i]) && w[i] != '$' && (i < 3 ==> w[i] !in {'O', 'o', 'I', 'l'}) {
      assert u[i] == k.upper(w[i]) && u[i] in {'E', 'U', 'R', 'O'} && (i < 3 ==> u[i] != 'O');
    }
    assert forall i :: 0 <= i < 3 ==> k.Upper(w[..3])[i] == u[i];
  }

  // ---- The strict readers ---------------------------------------------------------------------

  lemma WithoutEuro(a: string, b: string)
    requires Plain(a) && Plain(b)
    ensures WithoutMarkers(a + "EURO" + b) == a + b
  {
    RemoveOne(a, "EURO", b);
    assert Plain(a + b);
    RemovePlain(a + b, "EUR");
    RemovePlain(a + b, "USD");
    RemovePlain(a + b, "€");
    RemovePlain(a + b, "$");
  }

  lemma EuroHasNoDollars(k: Casing, a: string, w: string, b: string)
    requires k.Lawful() && Plain(a) && Plain(b) && Lacks(w, '$') && Lacks(k.Upper(w), 'S')
    ensures !NamesUSD(k, a + w + b) && !Contains(k.Upper(a + w + b), "US$")
  {
    UpperMarked(k, a, w, b);
    var v, u := a + w + b, a + k.Upper(w) + b;
    MarkedLacks(a, w, b, '$');
    MarkedLacks(a, k.Upper(w), b, 'S');
    RemoveAbsent(u, "USD", 1);
    RemoveAbsent(u, "US$", 1);
    assert '$' !in v;
  }

  lemma EuroIsNamed(k: Casing, a: string, w: string, b: string)
    requires k.Lawful() && Plain(a) && Plain(b) && |w| == 4 && k.Upper(w[..3]) == "EUR"
    ensures NamesEUR(k, a + w + b)
  {
    UpperMarked(k, a, w, b);
    var u := a + k.Upper(w) + b;
    assert k.Upper(w) == "EUR" + [k.upper(w[3])] by {
      assert forall i :: 0 <= i < 3 ==> k.Upper(w)[i] == k.Upper(w[..3])[i];
    }
    assert u == a + "EUR" + ([k.upper(w[3])] + b);
    ContainsMiddle(a, "EUR", [k.upper(w[3])] + b);
  }

  lemma StrictEuro(k: Casing, a: string, w: string, b: string)
    requires k.Lawful() && Plain(a) && Plain(b) && EuroWord(k, w)
    ensures NormalizeInput(k, a + w + b) ==
      if Collapse(a + b) == "" then Err(InvalidAmount) else Ok(Normalized(Collapse(a + b), "EUR"))
  {
    hide NamesEUR, NamesUSD, Collapse, WithoutMarkers;
    WordChars(k, w);
    EuroHasNoDollars(k, a, w, b);
    EuroIsNamed(k, a, w, b);
    UpperMarked(k, a, w, b);
    WithoutEuro(a, b);
  }

  // ---- The OCR reader ----------------------------------------------------------------------------

  /** What the word is mapped to: followed by something, its last letter becomes a zero. */
  function OcrWord(w: string, b: string): string
    requires |w| == 4
  {
    if b == "" then w else w[..3] + "0"
  }

  lemma OcrEuro(k: Casing, a: string, w: string, b: string)
    requires k.Lawful() && Plain(a) && Plain(b) && EuroWord(k, w)
    ensures |w| == 4 && OcrMapped(a + w + b) == a + OcrWord(w, b) + b
  {
    WordChars(k, w);
    var v, r := a + w + b, a + OcrWord(w, b) + b;
    var n := |a|;
    assert v[n + 2] == w[2] && v[n + 3] == w[3] && (b != "" ==> v[n + 4] == b[0]);
    assert HasNumericNeighbor(v, n + 3) <==> b != "";
    hide HasNumericNeighbor;
    forall i | 0 <= i < |v| ensures OcrChar(v, i) == r[i] {
      assert v[i] == if i < n then a[i] else if i < n + 4 then w[i - n] else b[i - n - 4];
      assert r[i] == if i < n then a[i] else if i < n + 4 then OcrWord(w, b)[i - n] else b[i - n - 4];
    }
  }

  function Zero(b: string): string {
    if b == "" then "" else "0"
  }

  lemma OcrWordNumerics(k: Casing, w: string, b: string)
    requires k.Lawful() && EuroWord(k, w)
    ensures |w| == 4 && Numerics(OcrWord(w, b)) == Zero(b)
  {
    WordChars(k, w);
    hide EuroWord, IsNumeric;
    if b == "" {
      KeepNone(w, IsNumeric);
    } else {
      KeepNone(w[..3], IsNumeric);
      KeepAppend(w[..3], "0", IsNumeric);
      ZeroIsNumeric();
    }
  }

  lemma ZeroIsNumeric()
    ensures Keep("0", IsNumeric) == "0"
  {
    KeepAll("0", IsNumeric);
  }

  lemma OcrWordParts(k: Casing, w: string, b: string)
    requires k.Lawful() && EuroWord(k, w)
    ensures |w| == 4 && |OcrWord(w, b)| == 4 && k.Upper(OcrWord(w, b)[..3]) == "EUR"
    ensures Lacks(OcrWord(w, b), '$') && Lacks(k.Upper(OcrWord(w, b)), 'S')
  {
    WordChars(k, w);
    var o := OcrWord(w, b);
    assert o[..3] == w[..3];
    forall i | 0 <= i < 4 ensures k.Upper(o)[i] != 'S' {
      assert i < 3 ==> k.Upper(o)[i] == k.Upper(o[..3])[i];
      assert k.Upper(w)[3] == 'O';
    }
  }

  /** The OCR reader sees a zero where the word stands, unless nothing follows it. */
  lemma LenientEuro(k: Casing, a: string, w: string, b: string)
    requires k.Lawful() && Plain(a) && Plain(b) && EuroWord(k, w)
    ensures var numeric := Numerics(a) + Zero(b) + Numerics(b);
            NormalizeLenient(k, a + w + b) ==
              if numeric == "" then Err(InvalidAmount)
              else match NormalizeSeparators(numeric)
                   case Err(_) => Err(InvalidAmount)
                   case Ok(n) => Ok(Normalized(n, "EUR"))
  {
    hide NamesEUR, NamesUSD, Contains, Numerics, NormalizeSeparators;
    OcrEuro(k, a, w, b);
    OcrWordParts(k, w, b);
    OcrWordNumerics(k, w, b);
    var o := OcrWord(w, b);
    EuroHasNoDollars(k, a, o, b);
    EuroIsNamed(k, a, o, b);
    NumericsAppend(a + o, b);
    NumericsAppend(a, o);
  }

  // ---- Numbers in two parts ---------------------------------------------------------------------

  /** Digits before the decimal separator. */
  function Whole(n: string): string {
    var p := DecimalPosition(n);
    Digits(if p < 0 then n else n[..p])
  }

  function Fraction(n: string): string {
    var p := DecimalPosition(n);
    if p < 0 then "" else Digits(n[p + 1..])
  }

  lemma PartsAreDigits(n: string)
    ensures IsDigits(Whole(n)) && IsDigits(Fraction(n))
  {
    var p := DecimalPosition(n);
    DigitsAreDigits(if p < 0 then n else n[..p]);
    if p >= 0 { DigitsAreDigits(n[p + 1..]); }
  }

  function CentsIn(whole: string, frac: string): nat
    requires IsDigits(whole) && IsDigits(frac) && |frac| <= 2
  {
    ValueOf(whole) * 100 + if frac == "" then 0 else FractionCents(frac)
  }

  predicate InRange(whole: string, frac: string) {
    (whole != "" || frac != "") && |whole| <= 12 && |frac| <= 2
  }

  /** The reading of a number is in range and has these cents. */
  ghost predicate Amounts(n: string, cents: nat) {
    Reading(n).Ok? && MatchDecimal(Reading(n).value, EITHER) && CentsOf(Reading(n).value) == cents
  }

  lemma ReadingParts(n: string)
    requires n != "" && AllNumeric(n)
    ensures var w, f := Whole(n), Fraction(n);
            Reading(n) ==
              if w == "" && f == "" then Err(NothingLeft)
              else if f == "" then Ok(w)
              else if |f| > 2 then Err(BadFraction)
              else Ok((if w == "" then "0" else w) + "." + f)
  {
    hide Digits;
    DigitsAreDigits(n);
    if '.' !in n && ',' !in n {
      LastIndexIn(n, '.');
      LastIndexIn(n, ',');
      assert forall i :: 0 <= i < |n| ==> n[i] in n;
    }
  }

  /** The amount of a number is that of its parts. */
  lemma AmountsOfParts(n: string, cents: nat)
    requires n != "" && AllNumeric(n)
    ensures IsDigits(Whole(n)) && IsDigits(Fraction(n))
    ensures Amounts(n, cents) <==> InRange(Whole(n), Fraction(n)) && CentsIn(Whole(n), Fraction(n)) == cents
  {
    hide Whole, Fraction, Reading, DigitRun, ValueOf;
    PartsAreDigits(n);
    ReadingParts(n);
    var w, f := Whole(n), Fraction(n);
    if f == "" {
      AmountOfDigits(w);
    } else if |f| <= 2 {
      AmountOfTwo(w, f);
    }
  }

  lemma AmountOfDigits(w: string)
    requires IsDigits(w)
    ensures MatchDecimal(w, EITHER) <==> 1 <= |w| <= 12
    ensures 1 <= |w| <= 12 ==> CentsOf(w) == ValueOf(w) * 100
  {
    hide ValueOf;
    RunIs(w, |w|);
    assert w[..|w|] == w;
  }

  lemma ZeroValue()
    ensures ValueOf("") == 0 && ValueOf("0") == 0
  {
    ValueSnoc("", '0');
  }

  lemma AmountOfTwo(w: string, f: string)
    requires IsDigits(w) && IsDigits(f) && 1 <= |f| <= 2
    ensures var n := (if w == "" then "0" else w) + "." + f;
            && (MatchDecimal(n, EITHER) <==> |w| <= 12)
            && (|w| <= 12 ==> CentsOf(n) == ValueOf(w) * 100 + FractionCents(f))
  {
    ZeroValue();
    hide ValueOf, FractionCents, DigitRun, CentsOf;
    var shown := if w == "" then "0" else w;
    NumberParts(shown, '.', f);
    assert (shown + "." + f)[|shown|] == '.';
    if |w| <= 12 { CentsOfParts(shown, '.', f) by { hide *; } }
  }

  // ---- A zero put into a number ---------------------------------------------------------------------

  lemma LastIndexMoves(x: string, y: string, c: char)
    requires c != '0'
    ensures var q := LastIndex(x + y, c);
            LastIndex(x + "0" + y, c) == if q >= |x| then q + 1 else q
  {
    var n, m := x + y, x + "0" + y;
    var q, p := LastIndex(n, c), LastIndex(m, c);
    assert forall i :: 0 <= i < |x| ==> m[i] == n[i];
    assert forall i :: |x| <= i < |n| ==> m[i + 1] == n[i];
    assert m[|x|] == '0';
    if p >= 0 { assert n[if p < |x| then p else p - 1] == c; }
    if q >= 0 { assert m[if q < |x| then q else q + 1] == c; }
  }

  lemma DigitsAround(x: string, y: string)
    ensures Digits(x + "0" + y) == Digits(x) + "0" + Digits(y)
  {
    KeepAppend(x + "0", y, IsDigit);
    KeepAppend(x, "0", IsDigit);
    KeepAll("0", IsDigit);
  }

  lemma PositionInWhole(x: string, y: string)
    requires var p := DecimalPosition(x + y); p < 0 || p >= |x|
    ensures var p := DecimalPosition(x + y);
            p < |x + y| && DecimalPosition(x + "0" + y) == if p < 0 then -1 else p + 1
  {
    hide LastIndex;
    LastIndexMoves(x, y, '.');
    LastIndexMoves(x, y, ',');
  }

  lemma SlicesInWhole(x: string, y: string, p: nat)
    requires |x| <= p < |x + y|
    ensures var n, m := x + y, x + "0" + y;
            var r := y[..p - |x|];
            n[..p] == x + r && m[..p + 1] == x + "0" + r && n[p + 1..] == m[p + 2..]
  {}

  /** Put into the whole part, the zero stays there. */
  lemma ZeroInWhole(x: string, y: string)
    requires var p := DecimalPosition(x + y); p < 0 || p >= |x|
    ensures var n := x + y;
            var p := DecimalPosition(n);
            var r := Digits(if p < 0 then y else y[..p - |x|]);
            && Whole(n) == Digits(x) + r && Whole(x + "0" + y) == Digits(x) + "0" + r
            && Fraction(x + "0" + y) == Fraction(n)
  {
    hide Digits, DecimalPosition;
    var p := DecimalPosition(x + y);
    PositionInWhole(x, y);
    if p < 0 {
      KeepTwo(x, y);
      DigitsAround(x, y);
    } else {
      var r := y[..p - |x|];
      SlicesInWhole(x, y, p);
      KeepTwo(x, r);
      DigitsAround(x, r);
    }
  }

  lemma KeepTwo(a: string, b: string)
    ensures Digits(a + b) == Digits(a) + Digits(b)
  {
    KeepAppend(a, b, IsDigit);
  }

  lemma {:induction false} ValueAppend(a: string, b: string)
    requires IsDigits(a) && IsDigits(b)
    ensures IsDigits(a + b) && ValueOf(a + b) == ValueOf(a) * PowerOfTen(|b|) + ValueOf(b)
  {
    hide ValueOf;
    if b == "" {
      assert a + b == a;
      ZeroValue();
    } else {
      var n := |b| - 1;
      ValueAppend(a, b[..n]);
      assert a + b == (a + b[..n]) + [b[n]] && b == b[..n] + [b[n]];
      ValueSnoc(a + b[..n], b[n]);
      ValueSnoc(b[..n], b[n]);
      assert PowerOfTen(|b|) == 10 * PowerOfTen(n);
      assert ValueOf(a) * (10 * PowerOfTen(n)) == ValueOf(a) * PowerOfTen(n) * 10;
    }
  }

  lemma ZeroKeepsValue(d: string, r: string)
    requires IsDigits(d) && IsDigits(r)
    ensures IsDigits(d + "0" + r) && (ValueOf(d + "0" + r) == ValueOf(d + r) <==> ValueOf(d) == 0)
  {
    hide ValueOf;
    ValueAppend(d, r);
    ValueAppend(d + "0", r);
    ValueSnoc(d, '0');
    var v, p := ValueOf(d), PowerOfTen(|r|);
    assert v * 10 * p - v * p == v * (9 * p);
    if v > 0 { assert v * (9 * p) > 0; }
  }

  /** Whether the separator before the cents is still the decimal one after a zero is put behind it. */
  lemma PositionInFraction(x: string, y: string)
    requires var p := DecimalPosition(x + y); 0 <= p < |x| && y != "" && |x + y| - p - 1 <= 2
    ensures var n := x + y;
            var p := DecimalPosition(n);
            DecimalPosition(x + "0" + y) == if |n| - p - 1 == 1 || ('.' in n && ',' in n) then p else -1
  {
    var n, m := x + y, x + "0" + y;
    hide LastIndex;
    LastIndexMoves(x, y, '.');
    LastIndexMoves(x, y, ',');
    LastIndexIn(n, '.');
    LastIndexIn(n, ',');
  }

  lemma DigitsBehind(x: string, y: string)
    requires AllNumeric(x + y) && var p := DecimalPosition(x + y); 0 <= p < |x|
    ensures var p := DecimalPosition(x + y); IsDigits(x[p + 1..]) && IsDigits(y)
  {
    var n := x + y;
    var p := DecimalPosition(n);
    hide LastIndex;
    forall i | p < i < |n| ensures IsDigit(n[i]) {
      assert IsNumeric(n[i]);
    }
    assert forall i :: p < i < |x| ==> x[i] == n[i];
    assert forall i :: 0 <= i < |y| ==> y[i] == n[|x| + i];
  }

  lemma SlicesInFraction(x: string, y: string, p: nat)
    requires p < |x|
    ensures var n, m, h := x + y, x + "0" + y, x[p + 1..];
            n[p + 1..] == h + y && m[p + 1..] == h + "0" + y && m[..p] == n[..p] && m[p] == n[p]
  {}

  /** Put into the cents, the zero stays with them when there is room, else a lone separator stops being the decimal one. */
  lemma ZeroInFraction(x: string, y: string)
    requires AllNumeric(x + y) && var p := DecimalPosition(x + y); 0 <= p < |x| && y != "" && |x + y| - p - 1 <= 2
    ensures var n, m := x + y, x + "0" + y;
            var p := DecimalPosition(n);
            var h := x[p + 1..];
            && IsDigits(h + y) && IsDigits(h + "0" + y) && Fraction(n) == h + y
            && (if |h + y| == 1 then Whole(m) == Whole(n) && Fraction(m) == "0" + y
                else if '.' in n && ',' in n then Fraction(m) == h + "0" + y
                else Whole(m) == Whole(n) + (h + "0" + y) && Fraction(m) == "")
  {
    hide Digits, DecimalPosition;
    var n, m := x + y, x + "0" + y;
    var p := DecimalPosition(n);
    var h := x[p + 1..];
    DigitsBehind(x, y);
    PositionInFraction(x, y);
    SlicesInFraction(x, y, p);
    DigitsAreDigits(h + y);
    DigitsAreDigits(h + "0" + y);
    if |h + y| == 1 {
      assert h == "" && h + "0" + y == "0" + y;
    } else if !('.' in n && ',' in n) {
      DigitsSplit(m, p);
    }
  }

  // ---- When the readers agree -------------------------------------------------------------------------

  /**
   A zero between `x` and `y` leaves the amount as it is: in the whole part when only zeros
   stand before it and a twelfth digit is free; in the cents when these are a single zero, or
   when everything is zero and the digits still make a number.
   */
  predicate ZeroHarmless(x: string, y: string) {
    var n := x + y;
    var p := DecimalPosition(n);
    if p < 0 || p >= |x| then OnlyZeros(Digits(x)) && |Whole(n)| < 12
    else Fraction(n) == "0" || (Fraction(n) == "00" && !('.' in n && ',' in n) && OnlyZeros(Whole(n)) && |Whole(n)| <= 9)
  }

  predicate OnlyZeros(s: string) {
    forall i :: 0 <= i < |s| ==> s[i] == '0'
  }

  lemma {:induction false} ZerosAreZero(s: string)
    requires IsDigits(s)
    ensures ValueOf(s) == 0 <==> OnlyZeros(s)
  {
    if s != "" { ZerosAreZero(s[..|s| - 1]); }
  }

  lemma HarmlessInWhole(x: string, y: string, cents: nat)
    requires y != "" && AllNumeric(x + y) && Amounts(x + y, cents)
    requires var p := DecimalPosition(x + y); p < 0 || p >= |x|
    ensures Amounts(x + "0" + y, cents) <==> ZeroHarmless(x, y)
  {
    hide Digits, DecimalPosition, Amounts, Whole, Fraction, ValueOf;
    var n, m := x + y, x + "0" + y;
    var p := DecimalPosition(n);
    AllNumericWith(x, y);
    AmountsOfParts(n, cents);
    AmountsOfParts(m, cents);
    PositionFits(n);
    ZeroInWhole(x, y);
    var d, r := Digits(x), Digits(if p < 0 then y else y[..p - |x|]);
    DigitsAreDigits(x);
    DigitsAreDigits(if p < 0 then y else y[..p - |x|]);
    ZeroKeepsValue(d, r);
    ZerosAreZero(d);
  }

  lemma PositionFits(n: string)
    ensures -1 <= DecimalPosition(n) < |n|
  {}

  lemma AllNumericWith(x: string, y: string)
    requires AllNumeric(x + y)
    ensures AllNumeric(x + "0" + y)
  {
    var n, m := x + y, x + "0" + y;
    forall i | 0 <= i < |m| ensures IsNumeric(m[i]) {
      assert m[i] == if i < |x| then n[i] else if i == |x| then '0' else n[i - 1];
    }
  }

  lemma SingleCent(f: string)
    requires IsDigits(f) && |f| == 1
    ensures IsDigits("0" + f) && (FractionCents("0" + f) == FractionCents(f) <==> f == "0")
  {}

  lemma DoubleCents(f: string)
    requires IsDigits(f) && |f| == 2
    ensures FractionCents(f) == 0 <==> f == "00"
  {}

  /** Three digits more in front of the cents cannot mean the same but for zero. */
  lemma CentsAsWhole(w: string, g: string, f: string)
    requires IsDigits(w) && IsDigits(g) && |g| == 3 && IsDigits(f) && |f| == 2
    requires g == f[..1] + "0" + f[1..] || g == "0" + f
    ensures ValueOf(w + g) * 100 == ValueOf(w) * 100 + FractionCents(f) <==> OnlyZeros(w) && f == "00"
  {
    hide ValueOf, OnlyZeros;
    var a, b := DigitValue(f[0]), DigitValue(f[1]);
    ValueAppend(w, g);
    ZerosAreZero(w);
    ThreeDigits(g);
    DoubleCents(f);
    assert PowerOfTen(3) == 1000;
  }

  lemma TwoDigitValue(s: string)
    requires IsDigits(s) && |s| == 2
    ensures ValueOf(s) == DigitValue(s[0]) * 10 + DigitValue(s[1])
  {
    hide ValueOf;
    ZeroValue();
    ValueSnoc("", s[0]);
    ValueSnoc([s[0]], s[1]);
    assert "" + [s[0]] == [s[0]] && [s[0]] + [s[1]] == s;
  }

  lemma ThreeDigits(g: string)
    requires IsDigits(g) && |g| == 3
    ensures ValueOf(g) == DigitValue(g[0]) * 100 + DigitValue(g[1]) * 10 + DigitValue(g[2])
  {
    hide ValueOf;
    ZeroValue();
    ValueSnoc("", g[0]);
    ValueSnoc([g[0]], g[1]);
    ValueSnoc([g[0], g[1]], g[2]);
    assert "" + [g[0]] == [g[0]] && [g[0]] + [g[1]] == [g[0], g[1]] && [g[0], g[1]] + [g[2]] == g;
  }

  lemma HarmlessInFraction(x: string, y: string, cents: nat)
    requires y != "" && AllNumeric(x + y) && Amounts(x + y, cents)
    requires 0 <= DecimalPosition(x + y) < |x|
    ensures Amounts(x + "0" + y, cents) <==> ZeroHarmless(x, y)
  {
    hide Digits, DecimalPosition, Amounts, Whole, Fraction, ValueOf, FractionCents, OnlyZeros;
    var n, m := x + y, x + "0" + y;
    var p := DecimalPosition(n);
    AllNumericWith(x, y);
    AmountsOfParts(n, cents);
    AmountsOfParts(m, cents);
    PartsLength(n);
    ZeroInFraction(x, y);
    var h, w := x[p + 1..], Whole(n);
    var f := h + y;
    if |f| == 1 {
      assert h == "" && f == y;
      SingleCent(y);
    } else {
      var g := h + "0" + y;
      assert g == if |h| == 0 then "0" + f else f[..1] + "0" + f[1..];
      if !('.' in n && ',' in n) { CentsAsWhole(w, g, f); }
    }
  }

  lemma PartsLength(n: string)
    requires AllNumeric(n) && DecimalPosition(n) >= 0
    ensures |Fraction(n)| == |n| - DecimalPosition(n) - 1
  {
    hide LastIndex;
    var p := DecimalPosition(n);
    assert forall i :: p < i < |n| ==> IsNumeric(n[i]) && !IsSep(n[i]);
    DigitsAreDigits(n[p + 1..]);
  }

  lemma HarmlessIff(x: string, y: string, cents: nat)
    requires y != "" && AllNumeric(x + y) && Amounts(x + y, cents)
    ensures Amounts(x + "0" + y, cents) <==> ZeroHarmless(x, y)
  {
    hide Amounts, ZeroHarmless;
    var p := DecimalPosition(x + y);
    if 0 <= p < |x| { HarmlessInFraction(x, y, cents); } else { HarmlessInWhole(x, y, cents); }
  }

  // ---- Whole texts -------------------------------------------------------------------------------------

  lemma {:induction false} TrimmedEnd(s: string)
    ensures TrimRight(s) != "" ==> !IsSpace(TrimRight(s)[|TrimRight(s)| - 1])
  {
    if s != "" && IsSpace(s[|s| - 1]) { TrimmedEnd(s[..|s| - 1]); }
  }

  /** Trimming does not reach the word. */
  lemma TrimAround(a: string, w: string, b: string) returns (i: nat, j: nat)
    requires |w| == 4 && !IsSpace(w[0]) && !IsSpace(w[3])
    ensures i <= |a| && j <= |b| && TrimSpace(a + w + b) == a[i..] + w + b[..j]
    ensures (forall q :: 0 <= q < i ==> IsSpace(a[q])) && forall q :: j <= q < |b| ==> IsSpace(b[q])
    ensures j > 0 ==> !IsSpace(b[j - 1])
  {
    var v := a + w + b;
    var m, n := TrimSpan(v);
    assert v[|a|] == w[0] && v[|a| + 3] == w[3];
    i, j := m, n - |a| - 4;
    SliceOfThree(a, w, b, m, n);
    assert forall q :: 0 <= q < i ==> v[q] == a[q];
    assert forall q :: j <= q < |b| ==> v[|a| + 4 + q] == b[q];
    TrimmedEnd(TrimLeft(v));
    if j > 0 {
      var t := a[i..] + w + b[..j];
      assert t[|t| - 1] == b[j - 1];
    }
  }

  /** Trimming leaves the word, and something behind it exactly when digits or separators are there. */
  lemma TrimEuro(k: Casing, a: string, w: string, b: string) returns (a': string, b': string)
    requires k.Lawful() && Plain(a) && Plain(b) && EuroWord(k, w)
    ensures Plain(a') && Plain(b') && TrimSpace(a + w + b) == a' + w + b'
    ensures Numerics(a') == Numerics(a) && Numerics(b') == Numerics(b)
    ensures b' == "" <==> Numerics(b) == ""
  {
    WordChars(k, w);
    hide Numerics, EuroWord, TrimSpace;
    var i, j := TrimAround(a, w, b);
    a', b' := a[i..], b[..j];
    assert a == a[..i] + a' && b == b' + b[j..];
    NumericsAppend(a[..i], a');
    NumericsAppend(b', b[j..]);
    NumericsOfSpaces(a[..i]);
    NumericsOfSpaces(b[j..]);
    EndsInNumeric(b');
  }

  lemma EndsInNumeric(b: string)
    requires Plain(b) && (b != "" ==> !IsSpace(b[|b| - 1]))
    ensures b == "" <==> Numerics(b) == ""
  {}

  lemma OcrParse(k: Casing, s: string, ocr: string)
    requires OcrFormat(k, ocr) && TrimSpace(s) != ""
    ensures ParseAmount(k, true, s, ocr) ==
      match NormalizeLenient(k, TrimSpace(s))
      case Err(e) => Err(e)
      case Ok(n) => Cents(n)
  {
    hide TrimSpace, NormalizeLenient, Cents;
  }

  lemma StrictParse(k: Casing, s: string, strict: string)
    requires StrictFormat(k, strict) && ParseAmount(k, false, s, strict).Ok?
    ensures var format := k.Lower(TrimSpace(strict));
            var n := Normalize(k, false, TrimSpace(s), format);
            && (format == "" || format == "auto" || format in PROFILES)
            && n.Ok? && MatchDecimal(n.value.text, EITHER) && ParseAmount(k, false, s, strict) == Ok(CentsOf(n.value.text))
  {
    hide TrimSpace, Normalize, MatchDecimal, CentsOf;
  }

  /** What the strict readers make of such a text is the amount of its digits and separators. */
  lemma StrictAmount(k: Casing, a: string, w: string, b: string, format: string)
    requires k.Lawful() && Plain(a) && Plain(b) && EuroWord(k, w)
    requires format == "" || format == "auto" || format in PROFILES
    requires var n := Normalize(k, false, a + w + b, format); n.Ok? && MatchDecimal(n.value.text, EITHER)
    ensures var n := Normalize(k, false, a + w + b, format).value;
            Amounts(Numerics(a) + Numerics(b), CentsOf(n.text)) && AllNumeric(Numerics(a) + Numerics(b))
            && Numerics(a) + Numerics(b) != ""
  {
    hide Normalize, MatchDecimal, CentsOf, Numerics, Collapse, Reading;
    StrictReads(k, a + w + b, format);
    StrictEuro(k, a, w, b);
    NumericsCollapsed(a + b);
    NumericsAppend(a, b);
    NumericsPlain(a + b);
    NothingRead();
  }

  lemma NothingRead()
    ensures Reading("") == Ok("") && !MatchDecimal("", EITHER)
  {}

  lemma LenientAmount(k: Casing, a: string, w: string, b: string, cents: nat)
    requires k.Lawful() && Plain(a) && Plain(b) && EuroWord(k, w)
    ensures var numeric := Numerics(a) + Zero(b) + Numerics(b);
            var n := NormalizeLenient(k, a + w + b);
            numeric != "" ==> (n.Ok? && Cents(n.value) == Ok(cents) <==> Amounts(numeric, cents))
  {
    hide NormalizeLenient, MatchDecimal, CentsOf, Numerics, Reading, NormalizeSeparators;
    LenientEuro(k, a, w, b);
    var numeric := Numerics(a) + Zero(b) + Numerics(b);
    NumericsPlain(a);
    NumericsPlain(b);
    assert AllNumeric(numeric);
    SeparatorsRead(numeric);
  }

  /**
   The word EURO between digits, separators and blanks: the OCR reader reads what a strict reader
   accepts as the same amount exactly when nothing but blanks follows the word, or the zero it
   takes the last letter for does no harm.
   */
  lemma EuroWordIff(k: Casing, a: string, w: string, b: string, strict: string, ocr: string)
    requires k.Lawful() && Plain(a) && Plain(b) && EuroWord(k, w)
    requires StrictFormat(k, strict) && OcrFormat(k, ocr)
    requires ParseAmount(k, false, a + w + b, strict).Ok?
    ensures ParseAmount(k, true, a + w + b, ocr) == ParseAmount(k, false, a + w + b, strict)
      <==> Numerics(b) == "" || ZeroHarmless(Numerics(a), Numerics(b))
  {
    hide *;
    var a', b' := TrimEuro(k, a, w, b);
    WordIsThere(k, a', w, b');
    OcrParse(k, a + w + b, ocr);
    StrictParse(k, a + w + b, strict);
    var cents := ParseAmount(k, false, a + w + b, strict).value;
    StrictAmount(k, a', w, b', k.Lower(TrimSpace(strict)));
    LenientAmount(k, a', w, b', cents);
    var x, y := Numerics(a), Numerics(b);
    ZeroIs(b', x, y);
    if y != "" { HarmlessIff(x, y, cents); }
  }

  lemma WordIsThere(k: Casing, a: string, w: string, b: string)
    requires k.Lawful() && EuroWord(k, w)
    ensures a + w + b != ""
  {
    WordChars(k, w);
    assert |a + w + b| >= 4;
  }

  lemma ZeroIs(b: string, x: string, y: string)
    requires b == "" <==> y == ""
    ensures x + Zero(b) + y == if y == "" then x + y else x + "0" + y
    ensures y != "" ==> x + "0" + y != ""
  {
    if y == "" { assert x + "" + y == x + y; }
    assert |x + "0" + y| > 0;
  }

  // ---- An accepted text with two meanings -------------------------------------------------------------

  lemma ExampleValues()
    ensures ValueOf("1500") == 1500 && ValueOf("10500") == 10500
  {
    hide ValueOf;
    SmallValues();
    ThreeDigits("500");
    ValueAppend("1", "500");
    ValueAppend("10", "500");
    assert PowerOfTen(3) == 1000;
    assert "1" + "500" == "1500" && "10" + "500" == "10500";
  }

  lemma SmallValues()
    ensures ValueOf("1") == 1 && ValueOf("10") == 10
  {
    hide ValueOf;
    ZeroValue();
    ValueSnoc("", '1');
    ValueSnoc("1", '0');
    assert "" + ['1'] == "1" && "1" + ['0'] == "10";
  }

  lemma ExampleGroups()
    ensures MatchGrouped("1 500", ' ') && RemoveAll("1 500", " ") == "1500"
  {
    RunIs("1 500", 1);
    assert "1 500"[1..] == " 500" && " 500"[1..4] == "500" && " 500"[4..] == "";
    assert GroupTail(" 500", ' ');
    RemoveOne("1", " ", "500");
    assert "1" + " " + "500" == "1 500" && "1" + "500" == "1500";
  }

  lemma ExampleCollapses()
    ensures Collapse("1 " + "500") == "1 500" && TrimSpace("1 500") == "1 500"
  {
    hide Collapse, TrimSpace;
    AmountPrinting.TrimNothing("1 500");
    AmountPrinting.CollapseWord("500");
    BlankFirst("500");
    assert "1 500"[1..] == " 500" && "1 500"[..1] == "1" && " " + "500" == " 500";
    AmountPrinting.CollapseStep("1 500", 1, "500");
    assert "1 " + "500" == "1 500" && "1" + " " + "500" == "1 500";
  }

  lemma BlankFirst(s: string)
    ensures Collapse(" " + s) == Collapse(s)
  {
    assert (" " + s)[1..] == s;
    assert TrimLeft(" " + s) == TrimLeft(s);
  }

  lemma ExampleFormat(k: Casing)
    requires k.Lawful()
    ensures k.Lower(TrimSpace("eur_grouped_space_comma")) == "eur_grouped_space_comma" && k.Lower(TrimSpace("")) == ""
  {
    AmountPrinting.FormatStands(k, "eur_grouped_space_comma");
  }

  lemma ExampleWord(k: Casing)
    requires k.Lawful()
    ensures EuroWord(k, "EURO")
  {
    assert k.Upper("EURO") == "EURO";
  }

  lemma ExamplePlain()
    ensures AllNumeric("1") && AllNumeric("500") && IsSpace(" "[0])
  {}

  lemma ExampleNumerics()
    ensures Numerics("1 ") == "1" && Numerics("500") == "500"
  {
    ExamplePlain();
    hide Numerics, AllNumeric, IsSpace;
    NumericsPlain("1");
    NumericsPlain("500");
    NumericsOfSpaces(" ");
    NumericsAppend("1", " ");
    assert "1" + " " == "1 " && "1" + "" == "1";
  }

  lemma ExampleText(k: Casing)
    requires k.Lawful()
    ensures EuroWord(k, "EURO") && Plain("1 ") && Plain("500") && "1 " + "EURO" + "500" == "1 EURO500"
    ensures Numerics("1 ") == "1" && Numerics("500") == "500"
  {
    hide EuroWord, Numerics;
    ExampleWord(k);
    ExampleNumerics();
  }

  lemma ExampleStrict(k: Casing)
    requires k.Lawful()
    ensures ParseAmount(k, false, "1 EURO500", "eur_grouped_space_comma") == Ok(150000)
  {
    hide TrimSpace, Collapse, WithoutMarkers, MatchGrouped, RemoveAll, MatchDecimal, NormalizeInput, CentsOf, EuroWord, Plain;
    ExampleText(k);
    ExampleCollapses();
    ExampleGroups();
    ExampleFormat(k);
    ExampleValues();
    StrictEuro(k, "1 ", "EURO", "500");
    AmountPrinting.TrimNothing("1 EURO500");
    AmountOfDigits("1500");
    assert ' ' in "1 500" by { assert "1 500"[1] == ' '; }
    assert '.' !in "1 500";
    assert NormalizeByProfile(k, "1 EURO500", "eur_grouped_space_comma") == Ok(Normalized("1500", "EUR"));
  }

  lemma ExampleLenient(k: Casing)
    requires k.Lawful()
    ensures ParseAmount(k, true, "1 EURO500", "") == Ok(1050000)
  {
    hide TrimSpace, NormalizeLenient, Reading, CentsOf, MatchDecimal, EuroWord, Plain, Numerics;
    ExampleText(k);
    ExampleFormat(k);
    ExampleValues();
    AmountPrinting.TrimNothing("1 EURO500");
    OcrParse(k, "1 EURO500", "");
    LenientAmount(k, "1 ", "EURO", "500", 1050000);
    assert "1" + "0" + "500" == "10500";
    ReadsDigits("10500");
    AmountOfDigits("10500");
  }

  /** 1500 euros under the profile grouped by blanks, 10500 for the OCR reader. */
  lemma TwoMeanings(k: Casing)
    requires k.Lawful()
    ensures ParseAmount(k, false, "1 EURO500", "eur_grouped_space_comma") == Ok(150000)
    ensures ParseAmount(k, true, "1 EURO500", "") == Ok(1050000)
  {
    hide *;
    ExampleStrict(k);
    ExampleLenient(k);
  }
}
