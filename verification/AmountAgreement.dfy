/**
 The OCR reader extends the strict reader and the four profiles: whatever they accept, it
 reads as the same amount.
 */
module AmountAgreement {
  import opened Wrappers
  import opened Text
  import opened Amount
  import opened AmountTheorems

  /** Digits, separators and blanks only. */
  ghost predicate Plain(s: string) {
    forall i :: 0 <= i < |s| ==> IsNumeric(s[i]) || IsSpace(s[i])
  }

  /** No marker, the word EUR in any letter case, or the euro sign. */
  ghost predicate Marker(k: Casing, m: string) {
    m == "" || k.Upper(m) == "EUR" || m == "€"
  }

  // ---- Blanks -----------------------------------------------------------------------------

  lemma {:induction false} TrimLeftSpan(s: string) returns (i: nat)
    ensures i <= |s| && TrimLeft(s) == s[i..] && forall j :: 0 <= j < i ==> IsSpace(s[j])
  {
    if s != [] && IsSpace(s[0]) {
      i := TrimLeftSpan(s[1..]);
      i := i + 1;
    } else {
      i := 0;
    }
  }

  lemma {:induction false} TrimRightSpan(s: string) returns (i: nat)
    ensures i <= |s| && TrimRight(s) == s[..i] && forall j :: i <= j < |s| ==> IsSpace(s[j])
  {
    if s != [] && IsSpace(s[|s| - 1]) {
      i := TrimRightSpan(s[..|s| - 1]);
    } else {
      i := |s|;
      assert s[..|s|] == s;
    }
  }

  lemma TrimSpan(s: string) returns (i: nat, j: nat)
    ensures i <= j <= |s| && TrimSpace(s) == s[i..j]
    ensures forall p :: 0 <= p < i || j <= p < |s| ==> IsSpace(s[p])
  {
    i := TrimLeftSpan(s);
    var n := TrimRightSpan(s[i..]);
    j := i + n;
    assert s[i..][..n] == s[i..j];
    forall p | j <= p < |s| ensures IsSpace(s[p]) { assert s[i..][p - i] == s[p]; }
  }

  lemma NumericsAppend(a: string, b: string)
    ensures Numerics(a + b) == Numerics(a) + Numerics(b)
  {
    KeepAppend(a, b, IsNumeric);
  }

  lemma NumericsOfSpaces(s: string)
    requires forall i :: 0 <= i < |s| ==> IsSpace(s[i])
    ensures Numerics(s) == []
  {
    KeepNone(s, IsNumeric);
  }

  lemma NumericsTrimmed(s: string)
    ensures Numerics(TrimSpace(s)) == Numerics(s)
  {
    var i, j := TrimSpan(s);
    assert s == s[..i] + s[i..j] + s[j..];
    NumericsAppend(s[..i] + s[i..j], s[j..]);
    NumericsAppend(s[..i], s[i..j]);
    NumericsOfSpaces(s[..i]);
    NumericsOfSpaces(s[j..]);
  }

  lemma WordNotEmpty(t: string)
    requires t != "" && !IsSpace(t[0])
    ensures WordLength(t) > 0
  {}

  lemma {:induction false} NumericsCollapsed(s: string)
    ensures Numerics(Collapse(s)) == Numerics(s)
    decreases |s|
  {
    hide Numerics, TrimLeft, WordLength;
    TrimLeftShrinks(s);
    var i := TrimLeftSpan(s);
    var t := TrimLeft(s);
    assert s == s[..i] + t;
    NumericsAppend(s[..i], t);
    NumericsOfSpaces(s[..i]);
    NumericsOfSpaces([]);
    if t != [] {
      var n := WordLength(t);
      var rest := Collapse(t[n..]);
      WordNotEmpty(t);
      NumericsCollapsed(t[n..]);
      assert t == t[..n] + t[n..];
      NumericsAppend(t[..n], t[n..]);
      NumericsAppend(t[..n], " ");
      NumericsAppend(t[..n] + " ", rest);
      NumericsOfSpaces(" ");
    }
  }

  // ---- Markers ----------------------------------------------------------------------------

  lemma OccurrenceChar(s: string, part: string, i: nat, j: nat)
    requires OccursAt(s, part, i) && j < |part|
    ensures i + |part| <= |s| && s[i + j] == part[j]
  {
    assert s[i..i + |part|][j] == s[i + j];
  }

  lemma {:induction false} RemoveAbsent(s: string, part: string, j: nat)
    requires j < |part| && forall i :: 0 <= i < |s| ==> s[i] != part[j]
    ensures RemoveAll(s, part) == s && !Contains(s, part)
    decreases |s|
  {
    if Contains(s, part) {
      var i :| 0 <= i <= |s| && OccursAt(s, part, i);
      OccurrenceChar(s, part, i, j);
    }
    if |s| >= |part| {
      assert s[..|part|][j] == s[j];
      RemoveAbsent(s[1..], part, j);
    }
  }

  lemma {:induction false} RemoveOne(a: string, part: string, b: string)
    requires part != [] && forall i :: 0 <= i < |a| ==> a[i] != part[0]
    requires forall i :: 0 <= i < |b| ==> b[i] != part[0]
    ensures RemoveAll(a + part + b, part) == a + b
    decreases |a|
  {
    var s := a + part + b;
    if a == [] {
      assert s[..|part|] == part && s[|part|..] == b;
      RemoveAbsent(b, part, 0);
      assert a + b == b;
    } else {
      assert s[..|part|][0] == a[0];
      assert s[1..] == a[1..] + part + b;
      RemoveOne(a[1..], part, b);
      assert a + b == [a[0]] + (a[1..] + b);
    }
  }

  lemma ContainsMiddle(a: string, part: string, b: string)
    ensures Contains(a + part + b, part)
  {
    assert OccursAt(a + part + b, part, |a|);
  }

  lemma MarkerChars(k: Casing, m: string)
    requires k.Lawful() && Marker(k, m)
    ensures forall i :: 0 <= i < |m| ==> !IsNumeric(m[i]) && !IsSpace(m[i]) && m[i] !in {'O', 'o', 'I', 'l', '$'}
    ensures k.Upper(m) == if m == "" then "" else if m == "€" then "€" else "EUR"
  {
    var u := k.Upper(m);
    forall i | 0 <= i < |m| ensures !IsNumeric(m[i]) && !IsSpace(m[i]) && m[i] !in {'O', 'o', 'I', 'l', '$'} {
      assert u[i] == k.upper(m[i]);
      assert m == "€" || u[i] in {'E', 'U', 'R'};
    }
  }

  lemma UpperMarked(k: Casing, a: string, m: string, b: string)
    requires k.Lawful() && Plain(a) && Plain(b)
    ensures k.Upper(a + m + b) == a + k.Upper(m) + b
  {}

  lemma RemovePlain(s: string, part: string)
    requires Plain(s) && part != "" && !IsNumeric(part[0]) && !IsSpace(part[0])
    ensures RemoveAll(s, part) == s
  {
    RemoveAbsent(s, part, 0);
  }

  lemma WithoutNoMarkers(s: string)
    requires Plain(s)
    ensures WithoutMarkers(s) == s
  {
    RemovePlain(s, "EURO");
    RemovePlain(s, "EUR");
    RemovePlain(s, "USD");
    RemovePlain(s, "€");
    RemovePlain(s, "$");
  }

  lemma WithoutWord(a: string, b: string)
    requires Plain(a) && Plain(b)
    ensures WithoutMarkers(a + "EUR" + b) == a + b
  {
    RemoveAbsent(a + "EUR" + b, "EURO", 3);
    RemoveOne(a, "EUR", b);
    assert Plain(a + b);
    RemovePlain(a + b, "USD");
    RemovePlain(a + b, "€");
    RemovePlain(a + b, "$");
  }

  lemma WithoutSign(a: string, b: string)
    requires Plain(a) && Plain(b)
    ensures WithoutMarkers(a + "€" + b) == a + b
  {
    var u := a + "€" + b;
    RemoveAbsent(u, "EURO", 0);
    RemoveAbsent(u, "EUR", 0);
    RemoveAbsent(u, "USD", 0);
    RemoveOne(a, "€", b);
    RemoveAbsent(a + b, "$", 0);
  }

  lemma NoDollars(k: Casing, a: string, m: string, b: string)
    requires k.Lawful() && Plain(a) && Plain(b) && Marker(k, m)
    ensures !NamesUSD(k, a + m + b) && !Contains(k.Upper(a + m + b), "US$")
  {
    MarkerChars(k, m);
    UpperMarked(k, a, m, b);
    var v, u := a + m + b, a + k.Upper(m) + b;
    MarkedLacks(a, m, b, '$');
    MarkedLacks(a, k.Upper(m), b, 'S');
    RemoveAbsent(u, "USD", 1);
    RemoveAbsent(u, "US$", 1);
    assert '$' !in v;
  }

  lemma MarkedLacks(a: string, m: string, b: string, c: char)
    requires Plain(a) && Plain(b) && Lacks(m, c) && !IsNumeric(c) && !IsSpace(c)
    ensures Lacks(a + m + b, c)
  {}

  lemma EuroNamed(k: Casing, a: string, m: string, b: string)
    requires k.Lawful() && Plain(a) && Plain(b) && Marker(k, m)
    ensures NamesEUR(k, a + m + b) <==> m != ""
  {
    MarkerChars(k, m);
    UpperMarked(k, a, m, b);
    var v, u := a + m + b, a + k.Upper(m) + b;
    if m == "" {
      RemoveAbsent(u, "EUR", 0);
      RemoveAbsent(u, "EURO", 0);
    } else if m == "€" {
      assert v[|a|] == '€';
    } else {
      ContainsMiddle(a, "EUR", b);
    }
  }

  lemma TextMarked(k: Casing, a: string, m: string, b: string)
    requires k.Lawful() && Plain(a) && Plain(b) && Marker(k, m)
    ensures WithoutMarkers(k.Upper(a + m + b)) == a + b
  {
    MarkerChars(k, m);
    UpperMarked(k, a, m, b);
    if m == "" {
      assert a + "" + b == a + b;
      WithoutNoMarkers(a + b);
    } else if m == "€" {
      WithoutSign(a, b);
    } else {
      WithoutWord(a, b);
    }
  }

  /** Strict normalisation of a marked text drops the marker and tidies the blanks. */
  lemma StrictMarked(k: Casing, a: string, m: string, b: string)
    requires k.Lawful() && Plain(a) && Plain(b) && Marker(k, m)
    ensures NormalizeInput(k, a + m + b) ==
      if Collapse(a + b) == "" then Err(InvalidAmount)
      else Ok(Normalized(Collapse(a + b), if m == "" then "" else "EUR"))
  {
    NoDollars(k, a, m, b);
    EuroNamed(k, a, m, b);
    TextMarked(k, a, m, b);
  }

  lemma CurrencyMarked(k: Casing, a: string, m: string, b: string)
    requires k.Lawful() && Plain(a) && Plain(b) && Marker(k, m)
    ensures DetectCurrency(k, a + m + b) == if m == "" then "" else "EUR"
  {
    NoDollars(k, a, m, b);
    EuroNamed(k, a, m, b);
    if m == "" {
      UpperMarked(k, a, m, b);
      var u := a + k.Upper(m) + b;
      RemoveAbsent(u, "GBP", 0);
      RemoveAbsent(u, "JPY", 0);
      RemoveAbsent(u, "CHF", 0);
    }
  }

  lemma NumericsMarked(k: Casing, a: string, m: string, b: string)
    requires k.Lawful() && Plain(a) && Plain(b) && Marker(k, m)
    ensures Numerics(a + m + b) == Numerics(a + b)
  {
    MarkerChars(k, m);
    KeepNone(m, IsNumeric);
    assert Numerics(m) == [];
    hide Numerics;
    NumericsAppend(a + m, b);
    NumericsAppend(a, m);
    NumericsAppend(a, b);
  }

  lemma OcrLeaves(k: Casing, a: string, m: string, b: string)
    requires k.Lawful() && Plain(a) && Plain(b) && Marker(k, m)
    ensures OcrMapped(a + m + b) == a + m + b
  {
    MarkerChars(k, m);
    hide HasNumericNeighbor;
    var v := a + m + b;
    forall i | 0 <= i < |v| ensures OcrChar(v, i) == v[i] {
      assert v[i] == if i < |a| then a[i] else if i < |a| + |m| then m[i - |a|] else b[i - |a| - |m|];
    }
  }

  /** OCR normalisation of a marked text looks at its digits and separators only. */
  lemma LenientMarked(k: Casing, a: string, m: string, b: string)
    requires k.Lawful() && Plain(a) && Plain(b) && Marker(k, m)
    ensures NormalizeLenient(k, a + m + b) ==
      if Numerics(a + b) == "" then Err(InvalidAmount)
      else match NormalizeSeparators(Numerics(a + b))
           case Err(_) => Err(InvalidAmount)
           case Ok(n) => Ok(Normalized(n, if m == "" then "" else "EUR"))
  {
    NumericsMarked(k, a, m, b);
    OcrLeaves(k, a, m, b);
    CurrencyMarked(k, a, m, b);
  }

  lemma NumericsPlain(s: string)
    ensures AllNumeric(Numerics(s)) && (AllNumeric(s) ==> Numerics(s) == s)
  {
    KeepOnly(s, IsNumeric);
    if AllNumeric(s) { KeepAll(s, IsNumeric); }
  }

  // ---- Numbers the strict readers accept ------------------------------------------------------

  lemma DecimalIsNumeric(n: string)
    requires MatchDecimal(n, EITHER)
    ensures AllNumeric(n) && n != ""
  {
    var k := DigitRun(n);
    forall i | 0 <= i < |n| ensures IsNumeric(n[i]) {
      if i > k { assert IsDigit(n[k + 1..][i - k - 1]); }
    }
  }

  /** Which separator stands before the cents does not matter. */
  lemma CentsOfParts(a: string, s: char, b: string)
    requires IsDigits(a) && IsSep(s) && IsDigits(b) && 1 <= |a| <= 12 && 1 <= |b| <= 2
    ensures MatchDecimal(a + [s] + b, EITHER)
    ensures CentsOf(a + [s] + b) == ValueOf(a) * 100 + FractionCents(b)
  {
    hide DigitRun, ValueOf;
    var n := a + [s] + b;
    NumberParts(a, s, b);
    assert n[|a|] == s && n[..|a|] == a;
  }

  /** The outcome of separator reading is a number of as many cents as `n`. */
  ghost predicate Means(r: Result<string, Guard>, n: string) {
    && MatchDecimal(n, EITHER)
    && r.Ok? && MatchDecimal(r.value, EITHER) && CentsOf(r.value) == CentsOf(n)
  }

  /** An ungrouped number is read as itself. */
  lemma ReadsDecimal(n: string)
    requires MatchDecimal(n, EITHER)
    ensures Means(Reading(n), n)
  {
    var k := DigitRun(n);
    if k == |n| {
      ReadsDigits(n);
    } else {
      assert n == n[..k] + [n[k]] + n[k + 1..];
      ReadsParts(n[..k], n[k], n[k + 1..]);
    }
  }

  lemma ReadsDigits(n: string)
    requires IsDigits(n)
    ensures Reading(n) == Ok(n)
  {
    assert '.' !in n && ',' !in n;
  }

  lemma ReadsParts(a: string, s: char, b: string)
    requires IsDigits(a) && IsSep(s) && IsDigits(b) && 1 <= |a| <= 12 && 1 <= |b| <= 2
    ensures Reading(a + [s] + b) == Ok(a + "." + b)
    ensures Means(Ok(a + "." + b), a + [s] + b)
  {
    LoneRead(a, s, b);
    CentsOfParts(a, s, b);
    CentsOfParts(a, '.', b);
  }

  lemma LoneRead(a: string, s: char, b: string)
    requires IsDigits(a) && IsSep(s) && IsDigits(b) && 1 <= |a| && 1 <= |b| <= 2
    ensures Reading(a + [s] + b) == Ok(a + "." + b)
  {
    var n := a + [s] + b;
    assert n[..|a|] == a && n[|a| + 1..] == b && n[|a|] == s;
    LoneSeparator(n, |a|);
    DigitsAreDigits(a);
    DigitsAreDigits(b);
  }

  lemma LoneSeparator(n: string, k: nat)
    requires k < |n| && |n| - k - 1 <= 2 && IsSep(n[k])
    requires forall i :: 0 <= i < |n| && i != k ==> IsDigit(n[i])
    ensures DecimalPosition(n) == k
  {
    LastIndexIn(n, '.');
    LastIndexIn(n, ',');
    assert n[k] in n;
  }

  /** Shape of what follows the first group, split at its comma or at its end. */
  lemma {:induction false} GroupShape(t: string, sep: char) returns (c: nat)
    requires GroupTail(t, sep) && sep != ','
    ensures c <= |t| && forall i :: 0 <= i < c ==> IsDigit(t[i]) || t[i] == sep
    ensures c > 0 ==> c >= 4 && t[c - 4] == sep && IsDigit(t[c - 3]) && IsDigit(t[c - 2]) && IsDigit(t[c - 1])
    ensures c < |t| ==> t[c] == ',' && 2 <= |t| - c <= 3 && forall i :: c < i < |t| ==> IsDigit(t[i])
    decreases |t|
  {
    c := 0;
    if t != "" && t[0] == sep {
      assert IsDigit(t[1..4][0]) && IsDigit(t[1..4][1]) && IsDigit(t[1..4][2]);
      var rest := t[4..];
      c := GroupShape(rest, sep);
      assert forall i :: 4 <= i < |t| ==> t[i] == rest[i - 4];
      c := c + 4;
    } else if t != "" {
      assert forall i :: 1 <= i < |t| ==> t[i] == t[1..][i - 1];
    }
  }

  lemma {:induction false} RemoveCharAppend(a: string, b: string, c: char)
    ensures RemoveAll(a + b, [c]) == RemoveAll(a, [c]) + RemoveAll(b, [c])
    decreases |a|
  {
    if a == [] {
      assert a + b == b;
    } else {
      assert (a + b)[1..] == a[1..] + b;
      assert (a + b)[..1] == a[..1];
      RemoveCharAppend(a[1..], b, c);
    }
  }

  lemma {:induction false} RemoveSeps(s: string, sep: char)
    requires !IsDigit(sep) && forall i :: 0 <= i < |s| ==> IsDigit(s[i]) || s[i] == sep
    ensures RemoveAll(s, [sep]) == Digits(s)
    decreases |s|
  {
    if s != [] {
      RemoveSeps(s[1..], sep);
      KeepAppend([s[0]], s[1..], IsDigit);
      assert s == [s[0]] + s[1..];
    }
  }

  lemma RemoveNoSeps(s: string, sep: char)
    requires forall i :: 0 <= i < |s| ==> s[i] != sep
    ensures RemoveAll(s, [sep]) == s
  {
    RemoveAbsent(s, [sep], 0);
  }

  /** Split of a grouped number at its comma, or at its end. */
  lemma GroupedShape(n: string) returns (p: nat)
    requires MatchGrouped(n, '.') && '.' in n
    ensures 4 <= p <= |n| && forall i :: 0 <= i < p ==> IsDigit(n[i]) || n[i] == '.'
    ensures n[p - 4] == '.' && IsDigit(n[p - 3]) && IsDigit(n[p - 2]) && IsDigit(n[p - 1])
    ensures p < |n| ==> n[p] == ',' && 2 <= |n| - p <= 3 && forall i :: p < i < |n| ==> IsDigit(n[i])
  {
    var k := DigitRun(n);
    var t := n[k..];
    var c := GroupShape(t, '.');
    p := k + c;
    assert forall i :: k <= i < |n| ==> n[i] == t[i - k];
  }

  lemma GroupedIsNumeric(n: string)
    requires MatchGrouped(n, '.') && '.' in n
    ensures AllNumeric(n)
  {
    var p := GroupedShape(n);
  }

  /** A number grouped with dots: what the profile makes of it is what separator reading makes of it. */
  lemma ReadsGrouped(n: string)
    requires MatchGrouped(n, '.') && '.' in n && MatchDecimal(RemoveAll(n, "."), EITHER)
    ensures Means(Reading(n), RemoveAll(n, "."))
  {
    var p := GroupedShape(n);
    if p == |n| {
      RemoveSeps(n, '.');
      GroupedWhole(n);
    } else {
      assert n == n[..p] + "," + n[p + 1..];
      GroupedDecimal(n[..p], n[p + 1..], p - 4);
    }
  }

  lemma GroupedDecimal(head: string, frac: string, dot: nat)
    requires dot < |head| && head[dot] == '.' && forall i :: 0 <= i < |head| ==> IsDigit(head[i]) || head[i] == '.'
    requires IsDigits(frac) && 1 <= |frac| <= 2
    requires MatchDecimal(RemoveAll(head + "," + frac, "."), EITHER)
    ensures Means(Reading(head + "," + frac), RemoveAll(head + "," + frac, "."))
  {
    var whole := Digits(head);
    var stripped, read := whole + ("," + frac), whole + "." + frac;
    assert RemoveAll(head + "," + frac, ".") == stripped && IsDigits(whole) by { GroupedStripped(head, '.', frac); }
    WholePart(whole, frac);
    assert Reading(head + "," + frac) == Ok(read) by { GroupedRead(head, frac, dot); }
    assert Means(Ok(read), stripped);
  }

  lemma GroupedStripped(head: string, sep: char, frac: string)
    requires !IsDigit(sep) && sep != ',' && forall i :: 0 <= i < |head| ==> IsDigit(head[i]) || head[i] == sep
    requires IsDigits(frac)
    ensures RemoveAll(head + "," + frac, [sep]) == Digits(head) + ("," + frac)
    ensures IsDigits(Digits(head))
  {
    hide RemoveAll, Keep;
    assert head + "," + frac == head + ("," + frac);
    RemoveCharAppend(head, "," + frac, sep);
    RemoveNoSeps("," + frac, sep);
    RemoveSeps(head, sep);
    DigitsAreDigits(head);
  }

  lemma GroupedRead(head: string, frac: string, dot: nat)
    requires dot < |head| && head[dot] == '.' && Digits(head) != ""
    requires IsDigits(frac) && 1 <= |frac| <= 2
    ensures Reading(head + "," + frac) == Ok(Digits(head) + "." + frac)
  {
    var n := head + "," + frac;
    hide Keep, DecimalPosition;
    assert n[|head|] == ',' && n[..|head|] == head && n[|head| + 1..] == frac && n[dot] == '.';
    LastCommaDecides(n, |head|);
    DigitsAreDigits(frac);
  }

  lemma GroupedWhole(n: string)
    requires |n| >= 4 && n[|n| - 4] == '.' && forall i :: 0 <= i < |n| ==> IsDigit(n[i]) || n[i] == '.'
    requires IsDigit(n[|n| - 3]) && IsDigit(n[|n| - 2]) && IsDigit(n[|n| - 1])
    requires MatchDecimal(Digits(n), EITHER)
    ensures Reading(n) == Ok(Digits(n))
  {
    LastIndexIn(n, ',');
    assert LastIndex(n, '.') == |n| - 4;
    assert n[|n| - 4] in n;
  }

  lemma LastCommaDecides(n: string, p: nat)
    requires p < |n| && n[p] == ',' && '.' in n && forall i :: p < i < |n| ==> IsDigit(n[i])
    ensures DecimalPosition(n) == p
  {
    LastIndexIn(n, '.');
    LastIndexIn(n, ',');
    assert n[p] in n;
  }

  lemma WholePart(whole: string, frac: string)
    requires IsDigits(whole) && IsDigits(frac) && 1 <= |frac| <= 2
    requires MatchDecimal(whole + ("," + frac), EITHER)
    ensures whole != "" && MatchDecimal(whole + "." + frac, EITHER)
    ensures CentsOf(whole + "." + frac) == CentsOf(whole + ("," + frac))
  {
    NumberParts(whole, ',', frac);
    assert whole + ("," + frac) == whole + "," + frac;
    CentsOfParts(whole, ',', frac);
    CentsOfParts(whole, '.', frac);
  }

  // ---- Agreement -------------------------------------------------------------------------------

  const PROFILES: set<string> := {"eur_dot", "eur_comma", "eur_grouped_space_comma", "eur_grouped_dot_comma"}

  lemma {:induction false} NumericsWithoutBlanks(s: string)
    ensures Numerics(RemoveAll(s, " ")) == Numerics(s)
    decreases |s|
  {
    if s != [] {
      NumericsWithoutBlanks(s[1..]);
      NumericsAppend([s[0]], s[1..]);
      NumericsAppend([s[0]], RemoveAll(s[1..], " "));
      NumericsOfSpaces(" ");
      assert s == [s[0]] + s[1..];
    }
  }

  /** Whatever a profile makes of a tidied text, separator reading of its digits and separators agrees. */
  lemma ProfileReads(k: Casing, v: string, format: string)
    requires format in PROFILES
    requires var r := NormalizeByProfile(k, v, format); r.Ok? && MatchDecimal(r.value.text, EITHER)
    ensures var r, n := NormalizeByProfile(k, v, format), NormalizeInput(k, v);
            n.Ok? && r.value.currency == n.value.currency && Means(Reading(Numerics(n.value.text)), r.value.text)
  {
    var tidy := NormalizeInput(k, v).value.text;
    var text, out := TrimSpace(tidy), NormalizeByProfile(k, v, format).value.text;
    NumericsTrimmed(tidy);
    if format == "eur_grouped_dot_comma" && '.' in text {
      GroupedIsNumeric(text);
      NumericsPlain(text);
      ReadsGrouped(text);
    } else {
      if format == "eur_grouped_space_comma" {
        NumericsWithoutBlanks(text);
      } else if format == "eur_grouped_dot_comma" {
        assert '.' !in text;
        RemoveNoSeps(text, '.');
      }
      DecimalIsNumeric(out);
      NumericsPlain(out);
      ReadsDecimal(out);
    }
  }

  /** The strict readers: automatic and the four profiles. */
  ghost predicate StrictFormat(k: Casing, amountFormat: string) {
    var format := k.Lower(TrimSpace(amountFormat));
    format == "" || format == "auto" || format in PROFILES
  }

  ghost predicate OcrFormat(k: Casing, amountFormat: string) {
    var format := k.Lower(TrimSpace(amountFormat));
    format == "" || format == "auto" || format == "auto_eur_lenient"
  }

  lemma SliceOfThree(a: string, m: string, b: string, i: nat, j: nat)
    requires i <= |a| && |a| + |m| <= j <= |a| + |m| + |b|
    ensures (a + m + b)[i..j] == a[i..] + m + b[..j - |a| - |m|]
  {}

  /** Trimming a marked text leaves a marked text with the same digits and separators. */
  lemma TrimMarked(k: Casing, a: string, m: string, b: string) returns (a': string, b': string)
    requires k.Lawful() && Plain(a) && Plain(b) && Marker(k, m)
    ensures Plain(a') && Plain(b') && TrimSpace(a + m + b) == a' + m + b'
  {
    var v := a + m + b;
    var i, j := TrimSpan(v);
    MarkerChars(k, m);
    if m == "" {
      a', b' := v[i..j], "";
      assert v == a + b;
      assert a' == a' + m + b';
    } else {
      assert v[|a|] == m[0] && v[|a| + |m| - 1] == m[|m| - 1];
      assert i <= |a| && |a| + |m| <= j;
      a', b' := a[i..], b[..j - |a| - |m|];
      SliceOfThree(a, m, b, i, j);
    }
  }

  /**
   On texts of digits, separators and blanks with at most one euro marker anywhere, whatever
   the strict reader accepts in automatic mode or under any profile, the OCR reader accepts
   with the same cents.
   */
  lemma LenientExtendsStrict(k: Casing, a: string, m: string, b: string, strict: string, ocr: string)
    requires k.Lawful() && Plain(a) && Plain(b) && Marker(k, m)
    requires StrictFormat(k, strict) && OcrFormat(k, ocr)
    requires ParseAmount(k, false, a + m + b, strict).Ok?
    ensures ParseAmount(k, true, a + m + b, ocr) == ParseAmount(k, false, a + m + b, strict)
  {
    var a', b' := TrimMarked(k, a, m, b);
    AgreeTrimmed(k, a', m, b', k.Lower(TrimSpace(strict)));
  }

  lemma StrictReads(k: Casing, v: string, format: string)
    requires format == "" || format == "auto" || format in PROFILES
    requires var n := Normalize(k, false, v, format); n.Ok? && MatchDecimal(n.value.text, EITHER)
    ensures var n, base := Normalize(k, false, v, format).value, NormalizeInput(k, v);
            base.Ok? && n.currency == base.value.currency && Means(Reading(Numerics(base.value.text)), n.text)
  {
    if format in PROFILES {
      ProfileReads(k, v, format);
    } else {
      var text := NormalizeInput(k, v).value.text;
      DecimalIsNumeric(text);
      NumericsPlain(text);
      ReadsDecimal(text);
    }
  }

  lemma AgreeTrimmed(k: Casing, a: string, m: string, b: string, format: string)
    requires k.Lawful() && Plain(a) && Plain(b) && Marker(k, m)
    requires format == "" || format == "auto" || format in PROFILES
    requires var n := Normalize(k, false, a + m + b, format); n.Ok? && Cents(n.value).Ok?
    ensures var n := NormalizeLenient(k, a + m + b);
            n.Ok? && Cents(n.value) == Cents(Normalize(k, false, a + m + b, format).value)
  {
    StrictReads(k, a + m + b, format);
    StrictMarked(k, a, m, b);
    NumericsCollapsed(a + b);
    var numeric := Numerics(a + b);
    assert numeric != "" by { assert Reading("") == Ok(""); }
    NumericsPlain(a + b);
    SeparatorsRead(numeric);
    LenientMarked(k, a, m, b);
  }

  /**
   Hence no such text has two meanings: any two ways of reading it that accept it, strict or
   OCR, with the switch on or off, agree on the cents.
   */
  lemma NoTwoMeanings(k: Casing, a: string, m: string, b: string,
                      lenient1: bool, format1: string, lenient2: bool, format2: string)
    requires k.Lawful() && Plain(a) && Plain(b) && Marker(k, m)
    requires ParseAmount(k, lenient1, a + m + b, format1).Ok? && ParseAmount(k, lenient2, a + m + b, format2).Ok?
    ensures ParseAmount(k, lenient1, a + m + b, format1) == ParseAmount(k, lenient2, a + m + b, format2)
  {
    AsLenient(k, a, m, b, lenient1, format1);
    AsLenient(k, a, m, b, lenient2, format2);
  }

  /** Any accepted reading is the OCR reading. */
  lemma AsLenient(k: Casing, a: string, m: string, b: string, lenient: bool, format: string)
    requires k.Lawful() && Plain(a) && Plain(b) && Marker(k, m)
    requires ParseAmount(k, lenient, a + m + b, format).Ok?
    ensures ParseAmount(k, lenient, a + m + b, format) == ParseAmount(k, true, a + m + b, "")
  {
    hide NormalizeLenient, NormalizeByProfile, NormalizeInput, Cents, Marker, Plain;
    assert k.Lower(TrimSpace("")) == "";
    var f := k.Lower(TrimSpace(format));
    if f in PROFILES {
      LenientExtendsStrict(k, a, m, b, format, "");
    } else if !lenient {
      LenientExtendsStrict(k, a, m, b, format, "");
    }
  }

  // ---- Dollars ------------------------------------------------------------------------------------

  lemma OcrKeepsLetters(k: Casing, v: string, i: nat)
    requires k.Lawful() && i < |v| && k.upper(v[i]) in {'U', 'S', 'D', '$'}
    ensures k.Upper(OcrMapped(v))[i] == k.Upper(v)[i] && (v[i] == '$' ==> OcrMapped(v)[i] == '$')
  {}

  lemma ThreeChars(w: string, i: nat, part: string)
    requires |part| == 3 && i + 3 <= |w| && w[i] == part[0] && w[i + 1] == part[1] && w[i + 2] == part[2]
    ensures OccursAt(w, part, i)
  {}

  lemma OcrKeepsDollars(k: Casing, v: string)
    requires k.Lawful() && NamesUSD(k, v)
    ensures NamesUSD(k, OcrMapped(v))
  {
    hide OcrMapped, OccursAt;
    if '$' in v {
      var i :| 0 <= i < |v| && v[i] == '$';
      OcrKeepsLetters(k, v, i);
    } else {
      var u, w := k.Upper(v), k.Upper(OcrMapped(v));
      var i :| 0 <= i <= |u| && OccursAt(u, "USD", i);
      OccurrenceChar(u, "USD", i, 0);
      OccurrenceChar(u, "USD", i, 1);
      OccurrenceChar(u, "USD", i, 2);
      OcrKeepsLetters(k, v, i);
      OcrKeepsLetters(k, v, i + 1);
      OcrKeepsLetters(k, v, i + 2);
      ThreeChars(w, i, "USD");
    }
  }

  /** A text that names dollars is never accepted, in any mode, even if it names euros as well. */
  lemma DollarsRejected(k: Casing, lenient: bool, s: string, format: string)
    requires k.Lawful() && NamesUSD(k, TrimSpace(s))
    ensures ParseAmount(k, lenient, s, format).Err?
  {
    hide Collapse, WithoutMarkers, NamesEUR, NamesUSD, Contains, MatchDecimal, MatchGrouped, RemoveAll, TrimSpace;
    OcrKeepsDollars(k, TrimSpace(s));
  }
}
