/**
 Texts that name a currency, and what every reader makes of them (validate/amount.go).
 */
module Currencies {
  import opened Wrappers
  import opened Text
  import opened Amount
  import opened AmountAgreement
  import CleanTheorems

  // ---- Names of currencies -----------------------------------------------------------------------

  /** `word` stands at `i` in any letter case. */
  predicate SaysAt(k: Casing, s: string, word: string, i: nat) {
    i + |word| <= |s| && forall j :: 0 <= j < |word| ==> k.upper(s[i + j]) == word[j]
  }

  ghost predicate Says(k: Casing, s: string, word: string) {
    exists i :: SaysAt(k, s, word, i)
  }

  ghost predicate Shows(s: string, sign: char) {
    exists i :: 0 <= i < |s| && s[i] == sign
  }

  ghost predicate Euros(k: Casing, s: string) {
    Says(k, s, "EUR") || Shows(s, '€')
  }

  ghost predicate Dollars(k: Casing, s: string) {
    Says(k, s, "USD") || Shows(s, '$')
  }

  ghost predicate Pounds(k: Casing, s: string) {
    Says(k, s, "GBP") || Shows(s, '£')
  }

  ghost predicate Yen(k: Casing, s: string) {
    Says(k, s, "JPY") || Shows(s, '¥')
  }

  ghost predicate Francs(k: Casing, s: string) {
    Says(k, s, "CHF")
  }

  // ---- Names survive trimming and OCR mapping --------------------------------------------------------

  lemma SaysIff(k: Casing, s: string, word: string)
    ensures Says(k, s, word) <==> Contains(k.Upper(s), word)
  {
    var u := k.Upper(s);
    forall i: nat | SaysAt(k, s, word, i) ensures OccursAt(u, word, i) {
      forall j | 0 <= j < |word| ensures u[i + j] == word[j] { assert k.upper(s[i + j]) == word[j]; }
    }
    forall i: nat | OccursAt(u, word, i) ensures SaysAt(k, s, word, i) {
      forall j | 0 <= j < |word| ensures k.upper(s[i + j]) == word[j] { OccurrenceChar(u, word, i, j); }
    }
  }

  /** Letters that neither blanks nor misread digits can stand for. */
  predicate Sturdy(word: string) {
    word != "" && forall j :: 0 <= j < |word| ==> 'A' <= word[j] <= 'Z' && word[j] !in {'I', 'L', 'O'}
  }

  lemma SaysTrimmed(k: Casing, s: string, word: string)
    requires k.Lawful() && Sturdy(word)
    ensures Says(k, TrimSpace(s), word) <==> Says(k, s, word)
  {
    var a, b := TrimSpan(s);
    var t := TrimSpace(s);
    hide TrimSpace;
    forall i: nat | SaysAt(k, t, word, i) ensures SaysAt(k, s, word, a + i) {
      forall j | 0 <= j < |word| ensures k.upper(s[a + i + j]) == word[j] { assert s[a + i + j] == t[i + j]; }
    }
    forall i: nat | SaysAt(k, s, word, i) ensures i >= a && SaysAt(k, t, word, i - a) {
      assert k.upper(s[i + 0]) == word[0] && k.upper(s[i + (|word| - 1)]) == word[|word| - 1];
      assert !IsSpace(s[i]) && !IsSpace(s[i + |word| - 1]);
      forall j | 0 <= j < |word| ensures k.upper(t[i - a + j]) == word[j] { assert t[i - a + j] == s[i + j]; }
    }
  }

  lemma ShowsTrimmed(s: string, sign: char)
    requires !IsSpace(sign)
    ensures Shows(TrimSpace(s), sign) <==> Shows(s, sign)
  {
    var a, b := TrimSpan(s);
    var t := TrimSpace(s);
    hide TrimSpace;
    if i :| 0 <= i < |t| && t[i] == sign { assert s[a + i] == sign; }
    if i :| 0 <= i < |s| && s[i] == sign { assert t[i - a] == sign; }
  }

  lemma SaysMapped(k: Casing, s: string, word: string)
    requires k.Lawful() && Sturdy(word)
    ensures Says(k, OcrMapped(s), word) <==> Says(k, s, word)
  {
    hide HasNumericNeighbor;
    var t := OcrMapped(s);
    forall i: nat ensures SaysAt(k, t, word, i) <==> SaysAt(k, s, word, i) {
      if i + |word| <= |s| {
        forall j | 0 <= j < |word| ensures k.upper(t[i + j]) == word[j] <==> k.upper(s[i + j]) == word[j] {
          assert t[i + j] == OcrChar(s, i + j);
        }
      }
    }
  }

  lemma ShowsMapped(s: string, sign: char)
    requires sign !in {'O', 'o', 'I', 'l', '0', '1'}
    ensures Shows(OcrMapped(s), sign) <==> Shows(s, sign)
  {
    var t := OcrMapped(s);
    hide HasNumericNeighbor;
    assert forall i :: 0 <= i < |s| ==> t[i] == OcrChar(s, i);
    if Shows(s, sign) {
      var i :| 0 <= i < |s| && s[i] == sign;
      assert t[i] == sign;
    }
  }

  /** The OCR reader sees a name where the text has one. */
  lemma NamesSeen(k: Casing, s: string, word: string, sign: char)
    requires k.Lawful() && Sturdy(word) && !IsSpace(sign) && sign !in {'O', 'o', 'I', 'l', '0', '1'}
    ensures var v := OcrMapped(TrimSpace(s));
            && (Contains(k.Upper(v), word) <==> Says(k, s, word))
            && (sign in v <==> Shows(s, sign))
  {
    hide Says, OcrMapped, TrimSpace, Contains;
    var t := TrimSpace(s);
    SaysTrimmed(k, s, word);
    ShowsTrimmed(s, sign);
    SaysMapped(k, t, word);
    ShowsMapped(t, sign);
    SaysIff(k, OcrMapped(t), word);
  }

  lemma LongerNames(u: string)
    ensures Contains(u, "EURO") ==> Contains(u, "EUR")
    ensures Contains(u, "US$") ==> '$' in u
  {
    if i :| 0 <= i <= |u| && OccursAt(u, "EURO", i) {
      assert u[i..i + 3] == u[i..i + 4][..3];
      assert OccursAt(u, "EUR", i);
    }
    if i :| 0 <= i <= |u| && OccursAt(u, "US$", i) { OccurrenceChar(u, "US$", i, 2); }
  }

  lemma SignStays(k: Casing, v: string)
    requires k.Lawful()
    ensures '$' in k.Upper(v) ==> '$' in v
  {
    if '$' in k.Upper(v) {
      var i :| 0 <= i < |v| && k.Upper(v)[i] == '$';
      assert v[i] == '$';
    }
  }

  /** The currency found in OCR mode, by what the text as it was sent names. */
  lemma DetectedIff(k: Casing, s: string)
    requires k.Lawful()
    ensures var d := DetectCurrency(k, OcrMapped(TrimSpace(s)));
            && (d == "USD" <==> Dollars(k, s))
            && (d == "EUR" <==> !Dollars(k, s) && Euros(k, s))
            && (d == "GBP" <==> !Dollars(k, s) && !Euros(k, s) && Pounds(k, s))
            && (d == "JPY" <==> !Dollars(k, s) && !Euros(k, s) && !Pounds(k, s) && Yen(k, s))
            && (d == "CHF" <==> !Dollars(k, s) && !Euros(k, s) && !Pounds(k, s) && !Yen(k, s) && Francs(k, s))
            && d in {"", "USD", "EUR", "GBP", "JPY", "CHF"}
  {
    var v := OcrMapped(TrimSpace(s));
    hide Contains, Says, Shows, OcrMapped, TrimSpace;
    NamesSeen(k, s, "EUR", '€');
    NamesSeen(k, s, "USD", '$');
    NamesSeen(k, s, "GBP", '£');
    NamesSeen(k, s, "JPY", '¥');
    NamesSeen(k, s, "CHF", '$');
    LongerNames(k.Upper(v));
    SignStays(k, v);
  }

  // ---- Reading in OCR mode ----------------------------------------------------------------------------

  ghost predicate OcrRead(k: Casing, lenient: bool, format: string) {
    lenient && OcrFormat(k, format)
  }

  lemma LenientParse(k: Casing, s: string, format: string)
    requires OcrFormat(k, format)
    ensures ParseAmount(k, true, s, format) ==
      if TrimSpace(s) == "" then Err(Required)
      else match NormalizeLenient(k, TrimSpace(s)) case Err(e) => Err(e) case Ok(n) => Cents(n)
  {
    hide TrimSpace, NormalizeLenient, Cents;
  }

  lemma NothingNamed(k: Casing, s: string)
    requires TrimSpace(s) == "" && k.Lawful()
    ensures !Dollars(k, s) && !Pounds(k, s) && !Yen(k, s) && !Francs(k, s)
  {
    hide TrimSpace, Casing.Lawful;
    SaysTrimmed(k, s, "USD");
    SaysTrimmed(k, s, "GBP");
    SaysTrimmed(k, s, "JPY");
    SaysTrimmed(k, s, "CHF");
    ShowsTrimmed(s, '$');
    ShowsTrimmed(s, '£');
    ShowsTrimmed(s, '¥');
  }

  lemma ReportedIff(k: Casing, s: string, format: string, currency: string)
    requires OcrFormat(k, format)
    ensures var d := DetectCurrency(k, OcrMapped(TrimSpace(s)));
            ParseAmount(k, true, s, format) == Err(UnsupportedCurrency(currency)) <==>
              TrimSpace(s) != "" && d == currency && d != "" && d != "EUR"
  {
    LenientParse(k, s, format);
    hide DetectCurrency, OcrFormat, ParseAmount, TrimSpace, Numerics, OcrMapped, MatchDecimal, CentsOf, NormalizeSeparators;
  }

  /**
   In OCR mode a currency is reported exactly when it is named, and named first in the order
   dollars, pounds, yen, francs; euros keep all but the dollars from being reported.
   */
  lemma OcrCurrencyIff(k: Casing, s: string, format: string, currency: string)
    requires k.Lawful() && OcrFormat(k, format)
    ensures ParseAmount(k, true, s, format) == Err(UnsupportedCurrency(currency)) <==>
      || (currency == "USD" && Dollars(k, s))
      || (currency == "GBP" && !Dollars(k, s) && !Euros(k, s) && Pounds(k, s))
      || (currency == "JPY" && !Dollars(k, s) && !Euros(k, s) && !Pounds(k, s) && Yen(k, s))
      || (currency == "CHF" && !Dollars(k, s) && !Euros(k, s) && !Pounds(k, s) && !Yen(k, s) && Francs(k, s))
  {
    hide *;
    ReportedIff(k, s, format, currency);
    DetectedIff(k, s);
    if TrimSpace(s) == "" { NothingNamed(k, s); }
  }

  // ---- Reading in the strict modes ---------------------------------------------------------------------

  /** No digit, separator or blank, and in no letter case a part of a marker that the strict readers drop. */
  predicate Strange(k: Casing, c: char) {
    !IsNumeric(c) && !IsSpace(c) && k.upper(c) !in {'E', 'U', 'R', 'O', 'S', 'D', '€', '$'}
  }

  lemma {:induction false} RemoveKeeps(s: string, part: string, i: nat)
    requires part != "" && i < |s| && s[i] !in part
    ensures Shows(RemoveAll(s, part), s[i])
    decreases |s|
  {
    var c := s[i];
    if |s| < |part| {
    } else if s[..|part|] == part {
      assert forall j :: 0 <= j < |part| ==> part[j] == s[j];
      RemoveKeeps(s[|part|..], part, i - |part|);
    } else {
      var r := RemoveAll(s[1..], part);
      assert RemoveAll(s, part) == [s[0]] + r;
      if i == 0 {
        assert RemoveAll(s, part)[0] == c;
      } else {
        RemoveKeeps(s[1..], part, i - 1);
        var j :| 0 <= j < |r| && r[j] == c;
        assert ([s[0]] + r)[j + 1] == c;
      }
    }
  }

  lemma StillShows(s: string, part: string, c: char)
    requires part != "" && Shows(s, c) && c !in part
    ensures Shows(RemoveAll(s, part), c)
  {
    var i :| 0 <= i < |s| && s[i] == c;
    RemoveKeeps(s, part, i);
  }

  lemma CollapseUnfold(s: string, t: string, n: nat, rest: string)
    requires t == TrimLeft(s) && t != "" && n == WordLength(t) > 0 && rest == Collapse(t[n..])
    ensures Collapse(s) == if rest == "" then t[..n] else t[..n] + " " + rest
  {}

  lemma {:induction false} CollapseShows(s: string, c: char)
    requires Shows(s, c) && !IsSpace(c)
    ensures Shows(Collapse(s), c)
    decreases |s|
  {
    hide WordLength, TrimLeft, IsSpace;
    var i := TrimLeftSpan(s);
    var t := TrimLeft(s);
    var p :| 0 <= p < |s| && s[p] == c;
    assert t[p - i] == c;
    TrimLeftShrinks(s);
    WordNotEmpty(t);
    var n := WordLength(t);
    var rest := Collapse(t[n..]);
    CollapseUnfold(s, t, n, rest);
    if p - i < n {
      assert Collapse(s)[p - i] == c;
    } else {
      assert t[n..][p - i - n] == c;
      CollapseShows(t[n..], c);
      var j :| 0 <= j < |rest| && rest[j] == c;
      assert Collapse(s)[n + 1 + j] == c;
    }
  }

  lemma MarkersKeep(u: string, c: char)
    requires Shows(u, c) && c !in {'E', 'U', 'R', 'O', 'S', 'D', '€', '$'}
    ensures Shows(WithoutMarkers(u), c)
  {
    hide RemoveAll, Shows;
    StillShows(u, "EURO", c);
    var u1 := RemoveAll(u, "EURO");
    StillShows(u1, "EUR", c);
    var u2 := RemoveAll(u1, "EUR");
    StillShows(u2, "USD", c);
    var u3 := RemoveAll(u2, "USD");
    StillShows(u3, "€", c);
    StillShows(RemoveAll(u3, "€"), "$", c);
  }

  /** A strange character stays in the text that is matched. */
  lemma StrangeStays(k: Casing, v: string, format: string, c: char)
    requires k.Lawful() && Shows(v, c) && Strange(k, c)
    requires format == "" || format == "auto" || format in PROFILES
    ensures var n := Normalize(k, false, v, format); n.Ok? ==> Shows(n.value.text, k.upper(c))
  {
    hide WithoutMarkers, Collapse, MatchDecimal, MatchGrouped, RemoveAll, Shows, NamesEUR, NamesUSD, TrimSpace;
    var u := k.upper(c);
    assert !IsSpace(u) && !IsNumeric(u);
    UpperShows(k, v, c);
    MarkersKeep(k.Upper(v), u);
    CollapseShows(WithoutMarkers(k.Upper(v)), u);
    var text := Collapse(WithoutMarkers(k.Upper(v)));
    ShowsTrimmed(text, u);
    StillShows(TrimSpace(text), " ", u);
    StillShows(TrimSpace(text), ".", u);
  }

  lemma UpperShows(k: Casing, v: string, c: char)
    requires Shows(v, c)
    ensures Shows(k.Upper(v), k.upper(c))
  {
    var i :| 0 <= i < |v| && v[i] == c;
    assert k.Upper(v)[i] == k.upper(c);
  }

  /** A text with a strange character anywhere is accepted by no strict reader. */
  lemma StrangeRejected(k: Casing, lenient: bool, s: string, format: string, c: char)
    requires k.Lawful() && Shows(s, c) && Strange(k, c) && !OcrRead(k, lenient, format)
    ensures ParseAmount(k, lenient, s, format).Err?
  {
    var v, f := TrimSpace(s), k.Lower(TrimSpace(format));
    ShowsTrimmed(s, c);
    hide TrimSpace, NormalizeByProfile, NormalizeInput, NormalizeLenient, Cents, Shows, Casing.Lawful;
    if f == "" || f == "auto" || f in PROFILES {
      StrangeStays(k, v, f, c);
      StrangeIsBad(Normalize(k, false, v, f), k.upper(c));
    }
  }

  lemma StrangeIsBad(n: Result<Normalized, AmountError>, c: char)
    requires n.Ok? ==> Shows(n.value.text, c)
    requires !IsNumeric(c)
    ensures n.Ok? ==> Cents(n.value).Err?
  {
    if n.Ok? { StrangeIsNoNumber(n.value.text, c); }
  }

  lemma StrangeIsNoNumber(n: string, c: char)
    requires Shows(n, c) && !IsNumeric(c)
    ensures !MatchDecimal(n, EITHER)
  {
    if MatchDecimal(n, EITHER) { DecimalIsNumeric(n); }
  }

  lemma SaidLetter(k: Casing, s: string, word: string)
    requires k.Lawful() && Says(k, s, word) && word != "" && 'A' <= word[0] <= 'Z' && word[0] !in {'E', 'U', 'R', 'O', 'S', 'D'}
    ensures exists c :: Shows(s, c) && Strange(k, c)
  {
    var i :| SaysAt(k, s, word, i);
    var c := s[i + 0];
    assert k.upper(c) == word[0];
    assert Shows(s, c) && Strange(k, c);
  }

  lemma OtherIsStrange(k: Casing, s: string)
    requires k.Lawful() && (Pounds(k, s) || Yen(k, s) || Francs(k, s))
    ensures exists c :: Shows(s, c) && Strange(k, c)
  {
    hide Shows, Says;
    if Says(k, s, "GBP") {
      SaidLetter(k, s, "GBP");
    } else if Says(k, s, "JPY") {
      SaidLetter(k, s, "JPY");
    } else if Says(k, s, "CHF") {
      SaidLetter(k, s, "CHF");
    } else {
      assert Strange(k, '£') && Strange(k, '¥');
    }
  }

  lemma DollarsAre(k: Casing, s: string)
    requires k.Lawful()
    ensures Dollars(k, s) <==> NamesUSD(k, TrimSpace(s))
  {
    hide Says, Shows, Contains, TrimSpace;
    SaysTrimmed(k, s, "USD");
    ShowsTrimmed(s, '$');
    SaysIff(k, TrimSpace(s), "USD");
    ShowsIff(TrimSpace(s), '$');
  }

  lemma ShowsIff(s: string, c: char)
    ensures Shows(s, c) <==> c in s
  {}

  /**
   A text that names dollars is accepted by no reader.  One that names pounds, yen or francs is
   accepted by none either, but that the OCR reader takes it for euros when it names these too.
   */
  lemma ForeignRejected(k: Casing, lenient: bool, s: string, format: string)
    requires k.Lawful()
    requires Dollars(k, s) || ((Pounds(k, s) || Yen(k, s) || Francs(k, s)) && !(OcrRead(k, lenient, format) && Euros(k, s)))
    ensures ParseAmount(k, lenient, s, format).Err?
  {
    hide Dollars, Pounds, Yen, Francs, Euros, ParseAmount, NamesUSD, Strange, OcrFormat;
    if Dollars(k, s) {
      DollarsAre(k, s);
      DollarsRejected(k, lenient, s, format);
    } else if OcrRead(k, lenient, format) {
      var currency := if Pounds(k, s) then "GBP" else if Yen(k, s) then "JPY" else "CHF";
      OcrCurrencyIff(k, s, format, currency);
    } else {
      OtherIsStrange(k, s);
      var c :| Shows(s, c) && Strange(k, c);
      StrangeRejected(k, lenient, s, format, c);
    }
  }

  lemma EurosAre(k: Casing, s: string)
    requires k.Lawful()
    ensures Euros(k, s) <==> NamesEUR(k, TrimSpace(s))
  {
    hide Says, Shows, Contains, TrimSpace;
    SaysTrimmed(k, s, "EUR");
    ShowsTrimmed(s, '€');
    SaysIff(k, TrimSpace(s), "EUR");
    ShowsIff(TrimSpace(s), '€');
    LongerNames(k.Upper(TrimSpace(s)));
  }

  /** The strict readers report no currency but dollars, and not when euros are named as well. */
  lemma StrictReports(k: Casing, lenient: bool, s: string, format: string)
    requires k.Lawful() && StrictFormat(k, format) && !OcrRead(k, lenient, format)
    ensures match ParseAmount(k, lenient, s, format)
            case Ok(_) => !Dollars(k, s)
            case Err(e) =>
              || e == Required
              || e == InvalidAmount
              || (e == UnsupportedCurrency("USD") && Dollars(k, s) && !Euros(k, s))
  {
    DollarsAre(k, s);
    EurosAre(k, s);
    hide *;
    StrictNames(k, TrimSpace(s));
    StrictOutcome(k, lenient, s, format);
  }

  lemma StrictOutcome(k: Casing, lenient: bool, s: string, format: string)
    requires StrictFormat(k, format) && !OcrRead(k, lenient, format)
    ensures var n := NormalizeInput(k, TrimSpace(s));
            match ParseAmount(k, lenient, s, format)
            case Ok(_) => n.Ok? && n.value.currency != "USD"
            case Err(e) =>
              || e == Required
              || e == InvalidAmount
              || (n.Ok? && n.value.currency != "" && n.value.currency != "EUR" && e == UnsupportedCurrency(n.value.currency))
  {
    var v, f := TrimSpace(s), k.Lower(TrimSpace(format));
    StrictErrors(k, v, f);
    ProfileCurrency(k, v, f);
    hide TrimSpace, NormalizeLenient, CentsOf, MatchDecimal, NormalizeByProfile, NormalizeInput;
  }

  lemma ProfileCurrency(k: Casing, v: string, format: string)
    ensures var n := NormalizeByProfile(k, v, format);
            n.Ok? ==> NormalizeInput(k, v).Ok? && n.value.currency == NormalizeInput(k, v).value.currency
  {
    hide NormalizeInput, MatchDecimal, MatchGrouped, TrimSpace, RemoveAll;
  }

  lemma StrictNames(k: Casing, v: string)
    ensures var n := NormalizeInput(k, v);
            n.Ok? ==>
              && n.value.currency == (if NamesUSD(k, v) then "USD" else if NamesEUR(k, v) then "EUR" else "")
              && !(NamesUSD(k, v) && NamesEUR(k, v))
  {
    hide Collapse, WithoutMarkers, NamesEUR, NamesUSD;
  }

  // ---- Blank texts and unknown formats -----------------------------------------------------------------

  /** The formats a reader knows, after trimming and in lower case. */
  ghost predicate Known(lenient: bool, format: string) {
    || format == "" || format == "auto"
    || format == "eur_dot" || format == "eur_comma" || format == "eur_grouped_space_comma" || format == "eur_grouped_dot_comma"
    || (lenient && format == "auto_eur_lenient")
  }

  /** A missing amount and an unknown format are reported exactly when there is one, the amount first. */
  lemma UnreadIff(k: Casing, lenient: bool, s: string, format: string)
    ensures var blank := forall i :: 0 <= i < |s| ==> IsSpace(s[i]);
            && (ParseAmount(k, lenient, s, format) == Err(Required) <==> blank)
            && (ParseAmount(k, lenient, s, format) == Err(UnsupportedFormat) <==>
                  !blank && !Known(lenient, k.Lower(TrimSpace(format))))
  {
    hide TrimSpace, IsSpace, ParseAmount, Known;
    CleanTheorems.BlankIff(s);
    ReadWhenKnown(k, lenient, s, format);
  }

  lemma ReadWhenKnown(k: Casing, lenient: bool, s: string, format: string)
    ensures ParseAmount(k, lenient, s, format) == Err(Required) <==> TrimSpace(s) == ""
    ensures ParseAmount(k, lenient, s, format) == Err(UnsupportedFormat) <==>
      TrimSpace(s) != "" && !Known(lenient, k.Lower(TrimSpace(format)))
  {
    var v, f := TrimSpace(s), k.Lower(TrimSpace(format));
    hide TrimSpace, NormalizeLenient, NormalizeInput, NormalizeByProfile, CentsOf, MatchDecimal;
    LenientErrors(k, v);
    StrictErrors(k, v, f);
  }

  lemma LenientErrors(k: Casing, v: string)
    ensures var r := NormalizeLenient(k, v); r.Err? ==> r.error == InvalidAmount
  {}

  lemma StrictErrors(k: Casing, v: string, format: string)
    ensures NormalizeInput(k, v).Err? ==> NormalizeInput(k, v).error == InvalidAmount
    ensures format in PROFILES && NormalizeByProfile(k, v, format).Err? ==> NormalizeByProfile(k, v, format).error == InvalidAmount
  {
    hide Collapse, WithoutMarkers, NamesEUR, NamesUSD, MatchDecimal, MatchGrouped, TrimSpace;
  }
}
