/**
 Reading separators: no digit is lost, and it is known when reading fails.
 */
module AmountTheorems {
  import opened Wrappers
  import opened Text
  import opened Amount

  // ---- Separators ---------------------------------------------------------------------

  ghost predicate AllNumeric(s: string) {
    forall i :: 0 <= i < |s| ==> IsNumeric(s[i])
  }

  lemma DigitsSplit(v: string, p: nat)
    requires p < |v| && !IsDigit(v[p])
    ensures Digits(v) == Digits(v[..p]) + Digits(v[p + 1..])
  {
    assert v == (v[..p] + [v[p]]) + v[p + 1..];
    KeepAppend(v[..p] + [v[p]], v[p + 1..], IsDigit);
    assert (v[..p] + [v[p]])[..p] == v[..p];
  }

  lemma DigitsAreDigits(s: string)
    ensures IsDigits(Digits(s)) && (IsDigits(s) ==> Digits(s) == s)
  {
    KeepOnly(s, IsDigit);
    if IsDigits(s) { KeepAll(s, IsDigit); }
  }

  lemma DigitsSnoc(s: string, c: char)
    ensures Digits(s + [c]) == Digits(s) + if IsDigit(c) then [c] else []
  {
    assert (s + [c])[..|s|] == s;
  }

  lemma NoDigits()
    ensures Digits("") == ""
  {}

  /** Rebuilding keeps the digits in order and turns the decimal separator into a dot. */
  lemma {:induction false} RebuiltIs(v: string, p: int, n: nat)
    requires n <= |v| && (0 <= p < |v| ==> IsSep(v[p]))
    ensures Rebuilt(v, p, n) ==
      if 0 <= p < n then Digits(v[..p]) + "." + Digits(v[p + 1..n]) else Digits(v[..n])
  {
    hide Digits;
    NoDigits();
    if n > 0 {
      RebuiltIs(v, p, n - 1);
      assert v[..n] == v[..n - 1] + [v[n - 1]];
      DigitsSnoc(v[..n - 1], v[n - 1]);
      if 0 <= p < n - 1 {
        assert v[p + 1..n] == v[p + 1..n - 1] + [v[n - 1]];
        DigitsSnoc(v[p + 1..n - 1], v[n - 1]);
      } else if p == n - 1 {
        assert v[p + 1..n] == "";
      }
    }
  }

  /** The guards on a number in two parts: the fraction may be too long, nothing else can go wrong. */
  lemma CheckedParts(a: string, b: string)
    requires IsDigits(a) && IsDigits(b)
    ensures Checked(a + "." + b) ==
      if a == "" && b == "" then Err(NothingLeft)
      else if b == "" then Ok(a)
      else if |b| > 2 then Err(BadFraction)
      else Ok((if a == "" then "0" else a) + "." + b)
  {
    var whole := if a == "" then "0" else a;
    var rebuilt := a + "." + b;
    if b == "" {
      assert a != "" ==> rebuilt[..|rebuilt| - 1] == a;
      CountZero(a, '.');
    } else {
      var n := whole + "." + b;
      assert n == if a == "" then "0" + rebuilt else rebuilt;
      assert n[|n| - 1] == b[|b| - 1];
      OneDot(whole, b);
      IndexOfIs(n, '.', |whole|);
    }
  }

  lemma OneDot(a: string, b: string)
    requires IsDigits(a) && IsDigits(b)
    ensures CountChar(a + "." + b, '.') == 1
  {
    CountZero(a, '.');
    CountZero(b, '.');
    CountAppend(a + ".", b, '.');
    CountAppend(a, ".", '.');
  }

  lemma CheckedWhole(a: string)
    requires IsDigits(a)
    ensures Checked(a) == if a == "" then Err(NothingLeft) else Ok(a)
  {
    if a != "" {
      CountZero(a, '.');
      IndexOfIs(a, '.', |a|);
    }
  }

  /** All of separator reading in one equation. */
  function Reading(v: string): Result<string, Guard> {
    var p := DecimalPosition(v);
    if '.' !in v && ',' !in v then Ok(v)
    else if p < 0 then (if Digits(v) == "" then Err(NothingLeft) else Ok(Digits(v)))
    else
      var whole, frac := Digits(v[..p]), Digits(v[p + 1..]);
      if whole == "" && frac == "" then Err(NothingLeft)
      else if frac == "" then Ok(whole)
      else if |frac| > 2 then Err(BadFraction)
      else Ok((if whole == "" then "0" else whole) + "." + frac)
  }

  lemma RebuiltRead(v: string)
    requires AllNumeric(v) && ('.' in v || ',' in v)
    ensures Checked(Rebuilt(v, DecimalPosition(v), |v|)) == Reading(v)
  {
    hide Digits, Rebuilt, Checked, DecimalPosition;
    var p := DecimalPosition(v);
    RebuiltIs(v, p, |v|);
    if p < 0 {
      assert v[..|v|] == v;
      DigitsAreDigits(v);
      CheckedWhole(Digits(v));
    } else {
      assert v[p + 1..|v|] == v[p + 1..];
      DigitsAreDigits(v[..p]);
      DigitsAreDigits(v[p + 1..]);
      CheckedParts(Digits(v[..p]), Digits(v[p + 1..]));
    }
  }

  lemma SeparatorsRead(v: string)
    requires AllNumeric(v)
    ensures NormalizeSeparators(v) == Reading(v)
  {
    CountZero(v, '.');
    CountZero(v, ',');
    if '.' in v || ',' in v { RebuiltRead(v); }
  }

  /** The last separator of either kind, or -1. */
  function LastSep(v: string): (p: int)
    ensures -1 <= p < |v| && (forall j :: p < j < |v| ==> !IsSep(v[j]))
    ensures p >= 0 ==> IsSep(v[p])
  {
    if LastIndex(v, '.') > LastIndex(v, ',') then LastIndex(v, '.') else LastIndex(v, ',')
  }

  lemma AfterLastSep(v: string)
    requires AllNumeric(v)
    ensures IsDigits(v[LastSep(v) + 1..]) && Digits(v[LastSep(v) + 1..]) == v[LastSep(v) + 1..]
  {
    DigitsAreDigits(v[LastSep(v) + 1..]);
  }

  /** One or more digits, then perhaps a dot and one or two digits. */
  predicate IsNumber(n: string) {
    var k := DigitRun(n);
    1 <= k && (k == |n| || (n[k] == '.' && 2 <= |n| - k <= 3 && IsDigits(n[k + 1..])))
  }

  lemma NumberParts(a: string, s: char, b: string)
    requires IsDigits(a) && IsSep(s) && IsDigits(b)
    ensures DigitRun(a + [s] + b) == |a| && (a + [s] + b)[|a| + 1..] == b
    ensures DigitRun(a) == |a|
  {
    var n := a + [s] + b;
    assert n[|a|] == s && n[|a| + 1..] == b;
    RunIs(n, |a|);
    RunIs(a, |a|);
  }

  lemma RunIs(n: string, k: nat)
    requires k <= |n| && (forall i :: 0 <= i < k ==> IsDigit(n[i])) && (k < |n| ==> !IsDigit(n[k]))
    ensures DigitRun(n) == k
  {
    var r := DigitRun(n);
    assert r <= k;
  }

  /** What conservation says of an outcome of separator reading. */
  ghost predicate Conserved(v: string, r: Result<string, Guard>) {
    && (r == Err(NothingLeft) <==> Digits(v) == "")
    && (r == Err(BadFraction) <==> '.' in v && ',' in v && |v| - LastSep(v) - 1 > 2)
    && match r
       case Err(guard) => guard == NothingLeft || guard == BadFraction
       case Ok(n) =>
         var p := DecimalPosition(v);
         var bare := p >= 0 && Digits(v[..p]) == "" && Digits(v[p + 1..]) != "";
         IsNumber(n) && Digits(n) == if bare then "0" + Digits(v) else Digits(v)
  }

  lemma UngroupedConserved(v: string)
    requires AllNumeric(v) && ('.' in v || ',' in v) && DecimalPosition(v) < 0
    ensures Conserved(v, Reading(v))
  {
    SeparatorsPlaced(v);
    AfterLastSep(v);
    DigitsSplit(v, LastSep(v));
    assert Digits(v) != "";
    DigitsAreDigits(v);
    NumberIs(Digits(v), "");
  }

  lemma DecimalConserved(v: string)
    requires AllNumeric(v) && ('.' in v || ',' in v) && DecimalPosition(v) >= 0
    ensures Conserved(v, Reading(v))
  {
    var p := DecimalPosition(v);
    SeparatorsPlaced(v);
    AfterLastSep(v);
    DigitsSplit(v, p);
    DigitsAreDigits(v[..p]);
    PartsConserved(v, p, Digits(v[..p]), Digits(v[p + 1..]));
  }

  lemma PartsConserved(v: string, p: int, whole: string, frac: string)
    requires 0 <= p == DecimalPosition(v) == LastSep(v) && |frac| == |v| - p - 1
    requires (|frac| > 2 ==> '.' in v && ',' in v) && ('.' in v || ',' in v)
    requires IsDigits(whole) && IsDigits(frac) && Digits(v) == whole + frac
    requires Digits(v[..p]) == whole && Digits(v[p + 1..]) == frac
    ensures Conserved(v, Reading(v))
  {
    hide IsNumber, DigitRun, Keep, DecimalPosition, LastSep;
    NumberIs(whole, frac);
    assert frac == "" ==> whole + frac == whole;
  }

  lemma ReadingConserves(v: string)
    requires v != "" && AllNumeric(v)
    ensures Conserved(v, Reading(v))
  {
    if '.' in v || ',' in v {
      if DecimalPosition(v) < 0 { UngroupedConserved(v); } else { DecimalConserved(v); }
    } else {
      assert forall i :: 0 <= i < |v| ==> v[i] in v;
      DigitsAreDigits(v);
      NumberIs(v, "");
      LastIndexIn(v, '.');
      LastIndexIn(v, ',');
    }
  }

  /**
   Separator reading conserves digits.  On any non-empty text of digits, dots and commas it
   fails only when there is no digit at all, or when both separators occur and more than two
   digits follow the last one; the other three guards never fire.  Otherwise it yields one
   number made of the same digits in the same order, with a zero put in front exactly when
   the text has no digit before its decimal separator but some after it.
   */
  lemma SeparatorsConserveDigits(v: string)
    requires v != "" && AllNumeric(v)
    ensures Conserved(v, NormalizeSeparators(v))
  {
    SeparatorsRead(v);
    ReadingConserves(v);
  }

  lemma NumberIs(whole: string, frac: string)
    requires IsDigits(whole) && IsDigits(frac)
    ensures whole != "" ==> IsNumber(whole) && Digits(whole) == whole
    ensures var n := (if whole == "" then "0" else whole) + "." + frac;
            1 <= |frac| <= 2 ==> IsNumber(n) && Digits(n) == if whole == "" then "0" + frac else whole + frac
  {
    var shown := if whole == "" then "0" else whole;
    NumberParts(shown, '.', frac);
    NumberDigits(shown, frac);
    DigitsAreDigits(whole);
    RunIs(whole, |whole|);
  }

  lemma NumberDigits(a: string, b: string)
    requires IsDigits(a) && IsDigits(b)
    ensures Digits(a + "." + b) == a + b
  {
    var n := a + "." + b;
    assert n[..|a|] == a && n[|a| + 1..] == b;
    DigitsSplit(n, |a|);
    DigitsAreDigits(a);
    DigitsAreDigits(b);
  }

  /** The decimal position is the last separator, or -1 for a lone kind with three or more digits behind it. */
  lemma SeparatorsPlaced(v: string)
    requires '.' in v || ',' in v
    ensures LastSep(v) >= 0
    ensures DecimalPosition(v) ==
      if ('.' in v && ',' in v) || |v| - LastSep(v) - 1 <= 2 then LastSep(v) else -1
  {
    LastIndexIn(v, '.');
    LastIndexIn(v, ',');
  }

  lemma LastIndexIn(v: string, c: char)
    ensures LastIndex(v, c) >= 0 <==> c in v
  {
    if c in v {
      var j :| 0 <= j < |v| && v[j] == c;
    }
  }
}
