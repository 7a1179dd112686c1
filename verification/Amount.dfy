/**
 Reading amounts in euro (validate/amount.go): the strict reader, the four profiles and
 the reader that tolerates OCR noise.
 */
module Amount {
  import opened Wrappers
  import opened Text

  datatype AmountError =
    | Required
    | UnsupportedFormat
    | InvalidAmount
    | UnsupportedCurrency(currency: string)

  /** A text reduced to digits and separators, and the currency that was named. */
  datatype Normalized = Normalized(text: string, currency: string)

  // ---- Regular expressions ------------------------------------------------------------

  /** Length of the leading run of digits. */
  function DigitRun(s: string): (k: nat)
    ensures k <= |s| && (forall i :: 0 <= i < k ==> IsDigit(s[i])) && (k < |s| ==> !IsDigit(s[k]))
  {
    if s == [] || !IsDigit(s[0]) then 0 else 1 + DigitRun(s[1..])
  }

  /** `^\d{1,12}([seps]\d{1,2})?$` */
  predicate MatchDecimal(s: string, seps: set<char>) {
    var k := DigitRun(s);
    1 <= k <= 12 && (k == |s| || (s[k] in seps && 2 <= |s| - k <= 3 && IsDigits(s[k + 1..])))
  }

  /** `^([sep]\d{3})*(,\d{1,2})?$` */
  predicate GroupTail(t: string, sep: char) {
    || t == []
    || (|t| >= 4 && t[0] == sep && IsDigits(t[1..4]) && GroupTail(t[4..], sep))
    || (2 <= |t| <= 3 && t[0] == ',' && IsDigits(t[1..]))
  }

  /** `^\d{1,3}([sep]\d{3})*(,\d{1,2})?$` */
  predicate MatchGrouped(s: string, sep: char) {
    var k := DigitRun(s);
    1 <= k <= 3 && GroupTail(s[k..], sep)
  }

  // ---- Strict reading -----------------------------------------------------------------

  predicate NamesEUR(k: Casing, v: string) {
    Contains(k.Upper(v), "EUR") || Contains(k.Upper(v), "EURO") || '€' in v
  }

  predicate NamesUSD(k: Casing, v: string) {
    Contains(k.Upper(v), "USD") || '$' in v
  }

  function WithoutMarkers(upper: string): string {
    RemoveAll(RemoveAll(RemoveAll(RemoveAll(RemoveAll(upper, "EURO"), "EUR"), "USD"), "€"), "$")
  }

  function NormalizeInput(k: Casing, v: string): Result<Normalized, AmountError> {
    var hasEUR, hasUSD := NamesEUR(k, v), NamesUSD(k, v);
    if hasEUR && hasUSD then Err(InvalidAmount)
    else
      var currency := if hasUSD then "USD" else if hasEUR then "EUR" else "";
      var text := Collapse(WithoutMarkers(k.Upper(v)));
      if text == "" then Err(InvalidAmount) else Ok(Normalized(text, currency))
  }

  function NormalizeByProfile(k: Casing, v: string, format: string): Result<Normalized, AmountError> {
    match NormalizeInput(k, v)
    case Err(e) => Err(e)
    case Ok(n) =>
      var text := TrimSpace(n.text);
      if format == "eur_dot" then
        if MatchDecimal(text, {'.'}) then Ok(Normalized(text, n.currency)) else Err(InvalidAmount)
      else if format == "eur_comma" then
        if MatchDecimal(text, {','}) then Ok(Normalized(text, n.currency)) else Err(InvalidAmount)
      else if format == "eur_grouped_space_comma" then
        if '.' in text then Err(InvalidAmount)
        else if (if ' ' in text then MatchGrouped(text, ' ') else MatchDecimal(text, {','})) then
          Ok(Normalized(RemoveAll(text, " "), n.currency))
        else Err(InvalidAmount)
      else if format == "eur_grouped_dot_comma" then
        if (if '.' in text then MatchGrouped(text, '.') else MatchDecimal(text, {','})) then
          Ok(Normalized(RemoveAll(text, "."), n.currency))
        else Err(InvalidAmount)
      else Err(UnsupportedFormat)
  }

  // ---- Reading OCR output ----------------------------------------------------------------

  predicate NumericNeighbor(rs: string, j: int) {
    0 <= j < |rs| && (IsDigit(rs[j]) || IsSep(rs[j]) || IsSpace(rs[j]))
  }

  predicate HasNumericNeighbor(rs: string, i: int) {
    NumericNeighbor(rs, i - 1) || NumericNeighbor(rs, i + 1)
  }

  function OcrChar(rs: string, i: nat): char
    requires i < |rs|
  {
    if (rs[i] == 'O' || rs[i] == 'o') && HasNumericNeighbor(rs, i) then '0'
    else if (rs[i] == 'I' || rs[i] == 'l') && HasNumericNeighbor(rs, i) then '1'
    else rs[i]
  }

  function OcrMapped(rs: string): (r: string)
    ensures |r| == |rs|
  {
    seq(|rs|, i requires 0 <= i < |rs| => OcrChar(rs, i))
  }

  function DetectCurrency(k: Casing, v: string): string {
    var upper := k.Upper(v);
    var dollars := NamesUSD(k, v) || Contains(upper, "US$");
    if NamesEUR(k, v) then
      if dollars then "USD" else "EUR"
    else if dollars then "USD"
    else if '£' in v || Contains(upper, "GBP") then "GBP"
    else if '¥' in v || Contains(upper, "JPY") then "JPY"
    else if Contains(upper, "CHF") then "CHF"
    else ""
  }

  predicate IsNumeric(c: char) {
    IsDigit(c) || IsSep(c)
  }

  function Numerics(s: string): string {
    Keep(s, IsNumeric)
  }

  function Digits(s: string): string {
    Keep(s, IsDigit)
  }

  /** The points at which separator reading gives up, in source order. */
  datatype Guard = NothingLeft | TwoDots | NoWholePart | BadFraction | NothingAtAll

  /** Position of the separator taken as the decimal one, or -1. */
  function DecimalPosition(v: string): (p: int)
    ensures -1 <= p < |v| && (p >= 0 ==> IsSep(v[p]))
  {
    var lastDot, lastComma := LastIndex(v, '.'), LastIndex(v, ',');
    if lastDot >= 0 && lastComma >= 0 then
      if lastDot > lastComma then lastDot else lastComma
    else if lastDot >= 0 then
      if |v| - lastDot - 1 <= 2 then lastDot else -1
    else if lastComma >= 0 then
      if |v| - lastComma - 1 <= 2 then lastComma else -1
    else -1
  }

  /** The first `n` characters with the separator at `decPos` as '.' and the others dropped. */
  function Rebuilt(v: string, decPos: int, n: nat): string
    requires n <= |v|
  {
    if n == 0 then []
    else
      Rebuilt(v, decPos, n - 1) +
      if IsDigit(v[n - 1]) then [v[n - 1]] else if IsSep(v[n - 1]) && n - 1 == decPos then "." else []
  }

  /** The checks after rebuilding. */
  function Checked(rebuilt: string): Result<string, Guard> {
    if rebuilt == "" || rebuilt == "." then Err(NothingLeft)
    else
      var padded := if rebuilt[0] == '.' then "0" + rebuilt else rebuilt;
      var n := if padded[|padded| - 1] == '.' then padded[..|padded| - 1] else padded;
      if CountChar(n, '.') > 1 then Err(TwoDots)
      else
        var dot := IndexOf(n, '.');
        if dot == 0 then Err(NoWholePart)
        else if dot < |n| && (|n| - dot - 1 == 0 || |n| - dot - 1 > 2) then Err(BadFraction)
        else if n == "" || n == "." then Err(NothingAtAll)
        else Ok(n)
  }

  function NormalizeSeparators(v: string): Result<string, Guard> {
    if CountChar(v, '.') + CountChar(v, ',') == 0 then Ok(v)
    else Checked(Rebuilt(v, DecimalPosition(v), |v|))
  }

  function NormalizeLenient(k: Casing, v: string): Result<Normalized, AmountError> {
    var mapped := OcrMapped(v);
    var currency := DetectCurrency(k, mapped);
    if currency != "" && currency != "EUR" then Ok(Normalized("", currency))
    else
      var numeric := Numerics(mapped);
      if numeric == "" then Err(InvalidAmount)
      else
        match NormalizeSeparators(numeric)
        case Err(_) => Err(InvalidAmount)
        case Ok(n) => Ok(Normalized(n, currency))
  }

  // ---- The amount -------------------------------------------------------------------------

  const EITHER: set<char> := {'.', ','}

  /** Cents of a text that is one number with at most two decimals. */
  function CentsOf(n: string): nat
    requires MatchDecimal(n, EITHER)
  {
    var k := DigitRun(n);
    ValueOf(n[..k]) * 100 + if k < |n| then FractionCents(n[k + 1..]) else 0
  }

  function FractionCents(frac: string): nat
    requires IsDigits(frac) && 1 <= |frac| <= 2
  {
    DigitValue(frac[0]) * 10 + if |frac| == 2 then DigitValue(frac[1]) else 0
  }

  function Normalize(k: Casing, lenient: bool, v: string, format: string): Result<Normalized, AmountError> {
    if format == "" || format == "auto" then
      if lenient then NormalizeLenient(k, v) else NormalizeInput(k, v)
    else if format == "auto_eur_lenient" then
      if lenient then NormalizeLenient(k, v) else Err(UnsupportedFormat)
    else if format in {"eur_dot", "eur_comma", "eur_grouped_space_comma", "eur_grouped_dot_comma"} then
      NormalizeByProfile(k, v, format)
    else Err(UnsupportedFormat)
  }

  function Cents(n: Normalized): Result<nat, AmountError> {
    if n.currency != "" && n.currency != "EUR" then Err(UnsupportedCurrency(n.currency))
    else if !MatchDecimal(n.text, EITHER) then Err(InvalidAmount)
    else Ok(CentsOf(n.text))
  }

  function ParseAmount(k: Casing, lenient: bool, s: string, amountFormat: string): Result<nat, AmountError> {
    var v := TrimSpace(s);
    if v == "" then Err(Required)
    else
      match Normalize(k, lenient, v, k.Lower(TrimSpace(amountFormat)))
      case Err(e) => Err(e)
      case Ok(n) => Cents(n)
  }

  // ---- The code ------------------------------------------------------------------------------

  newtype int64 = x: int | -0x8000_0000_0000_0000 <= x < 0x8000_0000_0000_0000

  method MapOCRDigits(v: string) returns (out: string)
    ensures out == OcrMapped(v)
  {
    out := [];
    for i := 0 to |v|
      invariant out == OcrMapped(v)[..i]
    {
      var r := v[i];
      if r == 'O' || r == 'o' {
        if HasNumericNeighbor(v, i) {
          out := out + ['0'];
          continue;
        }
      } else if r == 'I' || r == 'l' {
        if HasNumericNeighbor(v, i) {
          out := out + ['1'];
          continue;
        }
      }
      out := out + [r];
    }
  }

  method NormalizeNumericSeparators(v: string) returns (r: Result<string, Guard>)
    ensures r == NormalizeSeparators(v)
  {
    if CountChar(v, '.') + CountChar(v, ',') == 0 {
      return Ok(v);
    }
    var lastDot, lastComma := LastIndex(v, '.'), LastIndex(v, ',');
    var decSep, decPos := '\0', -1;
    if lastDot >= 0 && lastComma >= 0 {
      if lastDot > lastComma {
        decSep, decPos := '.', lastDot;
      } else {
        decSep, decPos := ',', lastComma;
      }
    } else if lastDot >= 0 {
      if |v| - lastDot - 1 <= 2 {
        decSep, decPos := '.', lastDot;
      }
    } else if lastComma >= 0 {
      if |v| - lastComma - 1 <= 2 {
        decSep, decPos := ',', lastComma;
      }
    }
    assert decPos == DecimalPosition(v) && (decPos >= 0 ==> v[decPos] == decSep);
    var n := [];
    for i := 0 to |v|
      invariant n == Rebuilt(v, decPos, i)
    {
      if IsDigit(v[i]) {
        n := n + [v[i]];
        continue;
      }
      if IsSep(v[i]) && i == decPos && v[i] == decSep {
        n := n + ".";
      }
    }
    r := CheckRebuilt(n);
  }

  lemma DotsCounted(rebuilt: string)
    ensures CountChar("0" + rebuilt, '.') == CountChar(rebuilt, '.')
    ensures rebuilt != "" ==> CountChar(rebuilt[..|rebuilt| - 1], '.') <= CountChar(rebuilt, '.')
  {
    CountAppend("0", rebuilt, '.');
    assert CountChar("0", '.') == 0;
  }

  /** The second half of the same function: the guards on the rebuilt number. */
  method CheckRebuilt(rebuilt: string) returns (r: Result<string, Guard>)
    ensures r == Checked(rebuilt)
    ensures r.Err? ==> r.error != NoWholePart && r.error != NothingAtAll
    ensures r.Err? && CountChar(rebuilt, '.') <= 1 ==> r.error == NothingLeft || r.error == BadFraction
  {
    DotsCounted(rebuilt);
    DotsCounted("0" + rebuilt);
    hide CountChar, IndexOf;
    var n := rebuilt;
    if n == "" || n == "." {
      return Err(NothingLeft);
    }
    if n[0] == '.' {
      n := "0" + n;
    }
    if n[|n| - 1] == '.' {
      n := n[..|n| - 1];
    }
    if CountChar(n, '.') > 1 {
      return Err(TwoDots);
    }
    var dot := IndexOf(n, '.');
    if dot == 0 {
      return Err(NoWholePart);
    }
    if dot < |n| && (|n| - dot - 1 == 0 || |n| - dot - 1 > 2) {
      return Err(BadFraction);
    }
    if n == "" || n == "." {
      return Err(NothingAtAll);
    }
    return Ok(n);
  }

  method NormalizeAmountInputLenient(k: Casing, v: string) returns (r: Result<Normalized, AmountError>)
    ensures r == NormalizeLenient(k, v)
  {
    var mapped := MapOCRDigits(v);
    var currency := DetectCurrency(k, mapped);
    if currency != "" && currency != "EUR" {
      return Ok(Normalized("", currency));
    }
    var numeric := [];
    for i := 0 to |mapped|
      invariant numeric == Numerics(mapped[..i])
    {
      assert mapped[..i + 1][..i] == mapped[..i];
      if IsNumeric(mapped[i]) {
        numeric := numeric + [mapped[i]];
      }
    }
    assert mapped[..|mapped|] == mapped;
    if numeric == "" {
      return Err(InvalidAmount);
    }
    var n := NormalizeNumericSeparators(numeric);
    match n
    case Err(_) => return Err(InvalidAmount);
    case Ok(text) => return Ok(Normalized(text, currency));
  }

  lemma OneSeparator(n: string)
    requires MatchDecimal(n, EITHER)
    ensures var k := DigitRun(n);
            (forall i :: 0 <= i < |n| && i != k ==> IsDigit(n[i])) && (k < |n| ==> n[k] in EITHER)
  {
    var k := DigitRun(n);
    forall i | k < i < |n| ensures IsDigit(n[i]) { assert IsDigit(n[k + 1..][i - k - 1]); }
  }

  lemma DottedParts(n: string)
    requires MatchDecimal(n, EITHER)
    ensures var d, k := ReplaceChar(n, ',', '.'), DigitRun(n);
            IndexOf(d, '.') == k && d[..k] == n[..k] && (k < |n| ==> d[k + 1..] == n[k + 1..])
  {
    hide MatchDecimal, DigitRun;
    OneSeparator(n);
    var k := DigitRun(n);
    DigitsUntouched(n, k);
    IndexOfIs(ReplaceChar(n, ',', '.'), '.', k);
  }

  lemma DigitsUntouched(n: string, k: nat)
    requires k <= |n| && forall i :: 0 <= i < |n| && i != k ==> IsDigit(n[i])
    ensures ReplaceChar(n, ',', '.')[..k] == n[..k]
    ensures k < |n| ==> ReplaceChar(n, ',', '.')[k + 1..] == n[k + 1..]
  {}

  /** The cents of a matching text, computed as the code does, in 64 bits. */
  method AccumulateCents(n: string) returns (cents: int64)
    requires MatchDecimal(n, EITHER)
    ensures cents as int == CentsOf(n)
  {
    DottedParts(n);
    var dotted := ReplaceChar(n, ',', '.');
    var cut := IndexOf(dotted, '.');
    var whole := dotted[..cut];
    var frac := if cut < |dotted| then dotted[cut + 1..] else "";
    if |frac| == 1 {
      frac := frac + "0";
    } else if |frac| == 0 {
      frac := "00";
    }
    cents := AccumulateWhole(whole);
    cents := cents * 100;
    cents := cents + (DigitValue(frac[0]) as int64 * 10 + DigitValue(frac[1]) as int64);
  }

  method AccumulateWhole(whole: string) returns (cents: int64)
    requires IsDigits(whole) && |whole| <= 12
    ensures cents as int == ValueOf(whole) < 1_000_000_000_000
  {
    cents := 0;
    for i := 0 to |whole|
      invariant cents as int == ValueOf(whole[..i])
    {
      ValueSnoc(whole[..i], whole[i]);
      assert whole[..i + 1] == whole[..i] + [whole[i]];
      ValueBelow(whole[..i + 1]);
      cents := cents * 10 + DigitValue(whole[i]) as int64;
    }
    assert whole[..|whole|] == whole;
    ValueBelow(whole);
  }

  lemma ValueBelow(s: string)
    requires IsDigits(s) && |s| <= 12
    ensures ValueOf(s) < 1_000_000_000_000
  {
    ValueBound(s);
    PowerGrows(|s|, 12);
    TwelfthPower();
  }

  lemma {:induction false} PowerGrows(j: nat, k: nat)
    requires j <= k
    ensures PowerOfTen(j) <= PowerOfTen(k)
  {
    if j < k { PowerGrows(j, k - 1); }
  }

  lemma TwelfthPower()
    ensures PowerOfTen(12) == 1_000_000_000_000
  {
    assert PowerOfTen(6) == 1_000_000;
  }

  /** The reader and its process-wide switch for OCR input. */
  class AmountParser {
    const casing: Casing
    var lenientOCR: bool

    constructor (casing: Casing)
      ensures this.casing == casing && !lenientOCR
    {
      this.casing := casing;
      lenientOCR := false;
    }

    method SetAmountLenientOCR(enabled: bool)
      modifies this
      ensures lenientOCR == enabled
    {
      lenientOCR := enabled;
    }

    method ParseAmountEUR(s: string, amountFormat: string) returns (r: Result<int64, AmountError>)
      ensures match ParseAmount(casing, lenientOCR, s, amountFormat)
              case Ok(cents) => r.Ok? && r.value as int == cents
              case Err(e) => r == Err(e)
    {
      var v := TrimSpace(s);
      if v == "" {
        return Err(Required);
      }
      var format := casing.Lower(TrimSpace(amountFormat));
      var n: Result<Normalized, AmountError>;
      if format == "" || format == "auto" {
        if lenientOCR {
          n := NormalizeAmountInputLenient(casing, v);
        } else {
          n := NormalizeInput(casing, v);
        }
      } else if format == "auto_eur_lenient" {
        if !lenientOCR {
          return Err(UnsupportedFormat);
        }
        n := NormalizeAmountInputLenient(casing, v);
      } else if format in {"eur_dot", "eur_comma", "eur_grouped_space_comma", "eur_grouped_dot_comma"} {
        n := NormalizeByProfile(casing, v, format);
      } else {
        return Err(UnsupportedFormat);
      }
      if n.Err? {
        return Err(n.error);
      }
      var Normalized(text, currency) := n.value;
      if currency != "" && currency != "EUR" {
        return Err(UnsupportedCurrency(currency));
      }
      if !MatchDecimal(text, EITHER) {
        return Err(InvalidAmount);
      }
      var cents := AccumulateCents(text);
      return Ok(cents);
    }
  }
}
