/**
 Which texts the OCR reader accepts, and as how many cents; and how much noise it undoes
 (validate/amount.go).
 */
module OcrAmounts {
  import opened Wrappers
  import opened Text
  import opened Amount
  import opened AmountTheorems
  import opened AmountAgreement
  import opened CleanInputs
  import opened Currencies
  import opened StrictAmounts
  import AmountEuro
  import AmountPrinting

  // ---- Misread digits ---------------------------------------------------------------------------------

  predicate Near(c: char) {
    '0' <= c <= '9' || c == '.' || c == ',' || IsSpace(c)
  }

  /** A digit, a separator or a blank is next to it. */
  predicate Beside(v: string, i: int) {
    (0 <= i - 1 < |v| && Near(v[i - 1])) || (0 <= i + 1 < |v| && Near(v[i + 1]))
  }

  /** `c` may be a misread `d`. */
  predicate Misread(c: char, d: char) {
    (d == '0' && (c == 'O' || c == 'o')) || (d == '1' && (c == 'I' || c == 'l'))
  }

  /** `t` is `v` with the misread digits beside a number put right, and nothing else changed. */
  ghost predicate PutRight(v: string, t: string) {
    |t| == |v| && forall i :: 0 <= i < |v| ==>
      if Beside(v, i) && (Misread(v[i], '0') || Misread(v[i], '1')) then Misread(v[i], t[i]) else t[i] == v[i]
  }

  lemma PutRightIff(v: string, t: string)
    ensures PutRight(v, t) <==> t == OcrMapped(v)
  {
    forall i | 0 <= i < |v| ensures HasNumericNeighbor(v, i) <==> Beside(v, i) {}
    hide Beside, HasNumericNeighbor;
    assert forall i :: 0 <= i < |v| ==> OcrMapped(v)[i] == OcrChar(v, i);
    if PutRight(v, t) {
      forall i | 0 <= i < |v| ensures t[i] == OcrChar(v, i) {}
    }
  }

  // ---- Figures ----------------------------------------------------------------------------------------

  /** The last separator, when both kinds occur or at most two characters follow it. */
  predicate DecimalAt(n: string, p: int) {
    && 0 <= p < |n| && IsSep(n[p]) && (forall q :: p < q < |n| ==> !IsSep(n[q]))
    && (('.' in n && ',' in n) || |n| - p - 1 <= 2)
  }

  /** The digits before the decimal separator and behind it. */
  ghost predicate Figures(n: string, whole: string, frac: string) {
    if exists p :: DecimalAt(n, p) then exists p :: DecimalAt(n, p) && whole == Digits(n[..p]) && frac == Digits(n[p + 1..])
    else whole == Digits(n) && frac == ""
  }

  lemma DecimalAtIs(n: string, p: int)
    ensures DecimalAt(n, p) <==> p >= 0 && p == DecimalPosition(n)
  {
    hide LastIndex;
    LastIndexIn(n, '.');
    LastIndexIn(n, ',');
    if '.' in n || ',' in n {
      SeparatorsPlaced(n);
      if DecimalAt(n, p) { LastIs(n, p); }
    } else if 0 <= p < |n| {
      assert n[p] in n;
    }
  }

  lemma LastIs(n: string, p: int)
    requires 0 <= p < |n| && IsSep(n[p]) && forall q :: p < q < |n| ==> !IsSep(n[q])
    ensures LastSep(n) == p
  {}

  lemma FiguresIff(n: string, whole: string, frac: string)
    ensures Figures(n, whole, frac) <==> whole == AmountEuro.Whole(n) && frac == AmountEuro.Fraction(n)
  {
    hide DecimalAt, DecimalPosition, Digits;
    var at := DecimalPosition(n);
    forall p ensures DecimalAt(n, p) <==> at >= 0 && p == at { DecimalAtIs(n, p); }
    PositionWithin(n);
    if at >= 0 { assert DecimalAt(n, at); }
  }

  lemma PositionWithin(n: string)
    ensures -1 <= DecimalPosition(n) < |n|
  {}

  /** The figures are at most twelve and two digits, at least one, and worth so many cents. */
  ghost predicate FiguresWorth(n: string, cents: int) {
    exists whole, frac ::
      && Figures(n, whole, frac)
      && IsDigits(whole) && |whole| <= 12 && IsDigits(frac) && |frac| <= 2 && (whole != "" || frac != "")
      && cents == CentsWritten(whole, frac)
  }

  lemma WorthIff(n: string, cents: int)
    requires n != "" && AllNumeric(n)
    ensures FiguresWorth(n, cents) <==> cents >= 0 && AmountEuro.Amounts(n, cents)
  {
    hide Figures, AmountEuro.Whole, AmountEuro.Fraction, AmountEuro.Amounts, AmountEuro.CentsIn, CentsWritten;
    var w, f := AmountEuro.Whole(n), AmountEuro.Fraction(n);
    FiguresIff(n, w, f);
    AmountEuro.PartsAreDigits(n);
    if cents >= 0 { AmountEuro.AmountsOfParts(n, cents); }
    if |f| <= 2 { CentsAgree(w, f); }
    forall whole, frac | Figures(n, whole, frac) ensures whole == w && frac == f { FiguresIff(n, whole, frac); }
  }

  // ---- The OCR reader -----------------------------------------------------------------------------------

  lemma LenientCents(k: Casing, v: string, cents: int)
    ensures var r, n, d := NormalizeLenient(k, v), Numerics(OcrMapped(v)), DetectCurrency(k, OcrMapped(v));
            r.Ok? && Cents(r.value) == Ok(cents) <==> (d == "" || d == "EUR") && n != "" && cents >= 0 && AmountEuro.Amounts(n, cents)
  {
    var n := Numerics(OcrMapped(v));
    NumericsPlain(OcrMapped(v));
    SeparatorsRead(n);
    hide Numerics, OcrMapped, DetectCurrency, NormalizeSeparators, MatchDecimal, CentsOf, Reading;
  }

  /**
   The OCR reader accepts a text exactly when it names no dollars, and no other currency unless it
   names euros, and the digits and separators left once misread digits are put right have figures
   in range; the cents are what these figures are worth.
   */
  lemma OcrAcceptsIff(k: Casing, s: string, format: string, cents: int)
    requires k.Lawful() && OcrFormat(k, format)
    ensures ParseAmount(k, true, s, format) == Ok(cents) <==>
      && !Dollars(k, s)
      && (Euros(k, s) || !(Pounds(k, s) || Yen(k, s) || Francs(k, s)))
      && exists core, t :: Around(s, core) && PutRight(core, t) && FiguresWorth(Numerics(t), cents)
  {
    hide *;
    var v := TrimSpace(s);
    var t := OcrMapped(v);
    LenientParse(k, s, format);
    LenientCents(k, v, cents);
    DetectedIff(k, s);
    AroundIff(s, v);
    PutRightIff(v, t);
    NumericsPlain(t);
    if Numerics(t) != "" { WorthIff(Numerics(t), cents); } else { NoFigures(cents); }
    NothingLeft(v);
    forall core, u | Around(s, core) && PutRight(core, u) ensures core == v && u == t {
      AroundIff(s, core);
      PutRightIff(core, u);
    }
  }

  lemma NothingLeft(v: string)
    ensures v == "" ==> Numerics(OcrMapped(v)) == ""
  {}

  lemma NoFigures(cents: int)
    ensures !FiguresWorth("", cents)
  {
    assert Digits("") == "";
    assert forall p :: !DecimalAt("", p);
  }

  const OUTWEIGHED := "EUR 10 GBP"

  lemma OutweighedNames(k: Casing)
    requires k.Lawful()
    ensures Euros(k, OUTWEIGHED) && Pounds(k, OUTWEIGHED) && !Dollars(k, OUTWEIGHED)
  {
    var s := OUTWEIGHED;
    assert SaysAt(k, s, "EUR", 0) && SaysAt(k, s, "GBP", 7);
    hide Says, SaysAt;
    if Says(k, s, "USD") { LetterOfWord(k, s, "USD", 1); }
    assert forall i :: 0 <= i < |s| ==> k.upper(s[i]) != 'S' && s[i] != '$';
  }

  lemma LetterOfWord(k: Casing, s: string, word: string, j: nat)
    requires Says(k, s, word) && j < |word|
    ensures exists i :: 0 <= i < |s| && k.upper(s[i]) == word[j]
  {
    var i: nat :| SaysAt(k, s, word, i);
    assert k.upper(s[i + j]) == word[j];
  }

  lemma NumericsBetween(a: string, n: string, b: string)
    requires AllNumeric(n)
    requires (forall i :: 0 <= i < |a| ==> !IsNumeric(a[i])) && forall i :: 0 <= i < |b| ==> !IsNumeric(b[i])
    ensures Numerics(a + n + b) == n
  {
    KeepNone(a, IsNumeric);
    KeepNone(b, IsNumeric);
    NumericsPlain(n);
    hide Keep;
    NumericsAppend(a + n, b);
    NumericsAppend(a, n);
  }

  lemma TenEuros()
    ensures AmountEuro.Amounts("10", 1000)
  {
    hide ValueOf, MatchDecimal, CentsOf, Reading;
    ReadsDigits("10");
    AmountEuro.AmountOfDigits("10");
    AmountEuro.SmallValues();
  }

  lemma ReadsEuros(k: Casing, s: string, n: string, cents: int)
    requires k.Lawful() && s != "" && TrimSpace(s) == s && OcrMapped(s) == s && Numerics(s) == n && n != ""
    requires Euros(k, s) && !Dollars(k, s) && cents >= 0 && AmountEuro.Amounts(n, cents)
    ensures ParseAmount(k, true, s, "") == Ok(cents)
  {
    AmountPrinting.FormatStands(k, "");
    DetectedIff(k, s);
    assert OcrFormat(k, "");
    hide *;
    LenientParse(k, s, "");
    LenientCents(k, s, cents);
  }

  /** Euros outweigh pounds: "EUR 10 GBP" is ten euros. */
  lemma EurosOutweigh(k: Casing)
    requires k.Lawful()
    ensures Pounds(k, OUTWEIGHED) && ParseAmount(k, true, OUTWEIGHED, "") == Ok(1000)
  {
    hide Euros, Pounds, Dollars, AmountEuro.Amounts, Numerics, OcrMapped, TrimSpace, ParseAmount;
    OutweighedNames(k);
    AmountPrinting.TrimNothing(OUTWEIGHED);
    NothingMisread(OUTWEIGHED);
    NumericsBetween("EUR ", "10", " GBP");
    assert "EUR " + "10" + " GBP" == OUTWEIGHED;
    TenEuros();
    ReadsEuros(k, OUTWEIGHED, "10", 1000);
  }

  // ---- Noise ----------------------------------------------------------------------------------------------

  /** `noisy` is `clean` with some of its digits 0 and 1 misread. */
  ghost predicate Noisy(clean: string, noisy: string) {
    |noisy| == |clean| && forall i :: 0 <= i < |clean| ==> noisy[i] == clean[i] || Misread(noisy[i], clean[i])
  }

  /** Misread digits are put right exactly when each of them is beside a number. */
  lemma NoiseUndoneIff(clean: string, noisy: string)
    requires Noisy(clean, noisy) && forall i :: 0 <= i < |clean| ==> clean[i] !in {'O', 'o', 'I', 'l'}
    ensures OcrMapped(noisy) == clean <==> forall i :: 0 <= i < |clean| && noisy[i] != clean[i] ==> Beside(noisy, i)
  {
    PutRightIff(noisy, clean);
  }

  lemma NothingMisread(clean: string)
    requires forall i :: 0 <= i < |clean| ==> clean[i] !in {'O', 'o', 'I', 'l'}
    ensures OcrMapped(clean) == clean
  {
    PutRightIff(clean, clean);
  }

  lemma EndsAlike(clean: string, noisy: string)
    requires Noisy(clean, noisy)
    ensures clean != "" && !IsSpace(noisy[0]) && !IsSpace(noisy[|noisy| - 1]) ==> TrimSpace(clean) == clean
    ensures clean == "" ==> TrimSpace(clean) == clean
  {
    if clean != "" && !IsSpace(noisy[0]) && !IsSpace(noisy[|noisy| - 1]) { AmountPrinting.TrimNothing(clean); }
  }

  /**
   Misread digits beside a number do no harm: whatever blanks are around it, the noisy text reads in
   OCR mode as the clean one, which has none of the letters the digits are misread for.
   */
  lemma NoiseHarmless(k: Casing, sent: string, clean: string, noisy: string, format: string)
    requires OcrFormat(k, format) && Around(sent, noisy) && Noisy(clean, noisy)
    requires forall i :: 0 <= i < |clean| ==> clean[i] !in {'O', 'o', 'I', 'l'}
    requires forall i :: 0 <= i < |clean| && noisy[i] != clean[i] ==> Beside(noisy, i)
    ensures ParseAmount(k, true, sent, format) == ParseAmount(k, true, clean, format)
  {
    AroundIff(sent, noisy);
    EndsAlike(clean, noisy);
    NothingMisread(clean);
    NoiseUndoneIff(clean, noisy);
    hide Noisy, Beside, OcrFormat, ParseAmount, TrimSpace, OcrMapped, Cents;
    LenientParse(k, sent, format);
    LenientParse(k, clean, format);
    MappedAlike(k, clean, noisy);
  }

  lemma MappedAlike(k: Casing, v: string, w: string)
    requires OcrMapped(v) == OcrMapped(w)
    ensures NormalizeLenient(k, v) == NormalizeLenient(k, w)
  {}
}
