/**
 Every way the repository prints an amount is read back as the same cents.
 */
module AmountPrinting {
  import opened Wrappers
  import opened Text
  import opened Amount
  import opened AmountTheorems
  import opened AmountAgreement
  import opened Epc

  /** Groups of three digits, each with the separator in front. */
  function Groups(digits: string, sep: char): string
    requires |digits| % 3 == 0
  {
    if digits == "" then "" else [sep] + digits[..3] + Groups(digits[3..], sep)
  }

  /** Thousands separated: the first group has one to three digits. */
  function Grouped(digits: string, sep: char): string
    requires digits != ""
  {
    var h := 1 + (|digits| - 1) % 3;
    digits[..h] + Groups(digits[h..], sep)
  }

  function PrintedGrouped(whole: nat, cents: nat, sep: char): string
    requires cents < 100
  {
    Grouped(Printed(whole), sep) + "," + TwoDigits(cents)
  }

  lemma PrintedFits(whole: nat)
    requires whole < 1_000_000_000_000
    ensures 1 <= |Printed(whole)| <= 12
  {
    TwelfthPower();
    PrintedLength(whole, 12);
  }

  /** A printed amount matches and means what was printed, whichever separator is used. */
  lemma PrintedMeans(whole: nat, cents: nat, s: char)
    requires whole < 1_000_000_000_000 && cents < 100 && (s == '.' || s == ',')
    ensures var n := PrintedAmount(whole, cents, s);
            MatchDecimal(n, EITHER) && MatchDecimal(n, {s}) && CentsOf(n) == whole * 100 + cents
  {
    var a, b := Printed(whole), TwoDigits(cents);
    hide Printed, ValueOf;
    PrintedFits(whole);
    PrintedValue(whole);
    CentsOfParts(a, s, b);
    NumberParts(a, s, b);
    assert (a + [s] + b)[|a|] == s;
  }

  // ---- Texts the tidying steps leave alone ----------------------------------------------------

  lemma TrimNothing(s: string)
    requires s != "" && !IsSpace(s[0]) && !IsSpace(s[|s| - 1])
    ensures TrimSpace(s) == s
  {}

  lemma {:induction false} WordIs(s: string, n: nat)
    requires n <= |s| && (forall i :: 0 <= i < n ==> !IsSpace(s[i])) && (n < |s| ==> IsSpace(s[n]))
    ensures WordLength(s) == n
  {
    if n > 0 { WordIs(s[1..], n - 1); }
  }

  lemma CollapseWord(s: string)
    requires forall i :: 0 <= i < |s| ==> !IsSpace(s[i])
    ensures Collapse(s) == s
  {
    if s != "" {
      WordIs(s, |s|);
      assert s[|s|..] == [] && s[..|s|] == s;
      assert Collapse("") == "";
    }
  }

  lemma CollapseStep(s: string, n: nat, rest: string)
    requires 0 < n <= |s| && (forall i :: 0 <= i < n ==> !IsSpace(s[i])) && (n < |s| ==> IsSpace(s[n]))
    requires Collapse(s[n..]) == rest
    ensures Collapse(s) == if rest == [] then s[..n] else s[..n] + " " + rest
  {
    WordIs(s, n);
  }

  /** A word, one blank and a tidy rest are tidy. */
  lemma CollapseWords(s: string, n: nat)
    requires 0 < n && n + 1 < |s| && s[n] == ' ' && !IsSpace(s[n + 1])
    requires (forall i :: 0 <= i < n ==> !IsSpace(s[i])) && Collapse(s[n + 1..]) == s[n + 1..]
    ensures Collapse(s) == s
  {
    hide Collapse;
    assert s[n..][1..] == s[n + 1..];
    CollapseAfterBlank(s[n..]);
    CollapseStep(s, n, s[n + 1..]);
    assert s[..n] + " " + s[n + 1..] == s;
  }

  lemma CollapseAfterBlank(t: string)
    requires |t| >= 2 && t[0] == ' ' && !IsSpace(t[1])
    ensures Collapse(t) == Collapse(t[1..])
  {
    assert TrimLeft(t) == t[1..] == TrimLeft(t[1..]);
  }

  /** A text without blanks is read by the strict reader as it stands. */
  lemma StrictReadsPrinted(k: Casing, n: string)
    requires k.Lawful() && n != "" && AllNumeric(n)
    ensures TrimSpace(n) == n && NormalizeInput(k, n) == Ok(Normalized(n, ""))
  {
    TrimNothing(n);
    assert n + "" + "" == n && n + "" == n;
    StrictMarked(k, n, "", "");
    CollapseWord(n);
  }

  // ---- Round trips --------------------------------------------------------------------------------

  lemma FormatStands(k: Casing, format: string)
    requires k.Lawful() && format in PROFILES + {"", "auto"}
    ensures k.Lower(TrimSpace(format)) == format
  {
    assert forall i :: 0 <= i < |format| ==> k.lower(format[i]) == format[i];
    if format != "" { TrimNothing(format); }
  }

  lemma ParseTrimmed(k: Casing, lenient: bool, v: string, format: string, n: Normalized)
    requires k.Lawful() && format in PROFILES + {""} && v != "" && TrimSpace(v) == v
    requires Normalize(k, lenient, v, format) == Ok(n)
    ensures ParseAmount(k, lenient, v, format) == Cents(n)
  {
    FormatStands(k, format);
  }

  lemma PlainProfileAccepts(k: Casing, lenient: bool, n: string, s: char, format: string)
    requires k.Lawful() && ((s == '.' && format == "eur_dot") || (s == ',' && format == "eur_comma"))
    requires MatchDecimal(n, {s}) && MatchDecimal(n, EITHER)
    ensures ParseAmount(k, lenient, n, format) == Ok(CentsOf(n))
  {
    DecimalIsNumeric(n);
    StrictReadsPrinted(k, n);
    assert NormalizeByProfile(k, n, format) == Ok(Normalized(n, ""));
    ParseTrimmed(k, lenient, n, format, Normalized(n, ""));
  }

  lemma ProfileRoundTrip(k: Casing, lenient: bool, whole: nat, cents: nat, s: char, format: string)
    requires k.Lawful() && whole < 1_000_000_000_000 && cents < 100
    requires (s == '.' && format == "eur_dot") || (s == ',' && format == "eur_comma")
    ensures ParseAmount(k, lenient, PrintedAmount(whole, cents, s), format) == Ok(whole * 100 + cents)
  {
    hide *;
    PrintedMeans(whole, cents, s);
    PlainProfileAccepts(k, lenient, PrintedAmount(whole, cents, s), s, format);
  }

  /** "%d.%02d" under eur_dot and "%d,%02d" under eur_comma. */
  lemma DecimalRoundTrip(k: Casing, lenient: bool, whole: nat, cents: nat)
    requires k.Lawful() && whole < 1_000_000_000_000 && cents < 100
    ensures ParseAmount(k, lenient, PrintedAmount(whole, cents, '.'), "eur_dot") == Ok(whole * 100 + cents)
    ensures ParseAmount(k, lenient, PrintedAmount(whole, cents, ','), "eur_comma") == Ok(whole * 100 + cents)
  {
    hide *;
    ProfileRoundTrip(k, lenient, whole, cents, '.', "eur_dot");
    ProfileRoundTrip(k, lenient, whole, cents, ',', "eur_comma");
  }

  /** A number, with or without "EUR" in front, in strict automatic mode. */
  lemma StrictAutomatic(k: Casing, m: string, n: string)
    requires k.Lawful() && MatchDecimal(n, EITHER) && (m == "" || m == "EUR")
    ensures ParseAmount(k, false, "" + m + n, "") == Ok(CentsOf(n)) && AllNumeric(n)
  {
    hide NormalizeInput, TrimSpace, Collapse, MatchDecimal, ParseAmount, CentsOf, NormalizeLenient;
    DecimalIsNumeric(n);
    UpperWord(k);
    StrictMarked(k, "", m, n);
    CollapseWord(n);
    assert "" + n == n;
    var v := "" + m + n;
    assert v[|v| - 1] == n[|n| - 1] && v[0] == if m == "" then n[0] else 'E';
    TrimNothing(v);
    ParseTrimmed(k, false, v, "", Normalized(n, m));
  }

  lemma UpperWord(k: Casing)
    requires k.Lawful()
    ensures k.Upper("EUR") == "EUR"
  {}

  /** What the payload carries, and the same without "EUR", in automatic mode, strict or OCR. */
  lemma AutomaticRoundTrip(k: Casing, lenient: bool, whole: nat, cents: nat)
    requires k.Lawful() && whole < 1_000_000_000_000 && cents < 100
    ensures ParseAmount(k, lenient, PrintedAmount(whole, cents, '.'), "") == Ok(whole * 100 + cents)
    ensures ParseAmount(k, lenient, "EUR" + PrintedAmount(whole, cents, '.'), "") == Ok(whole * 100 + cents)
  {
    hide *;
    PrintedMeans(whole, cents, '.');
    AutomaticAccepts(k, lenient, PrintedAmount(whole, cents, '.'));
  }

  lemma AutomaticAccepts(k: Casing, lenient: bool, n: string)
    requires k.Lawful() && MatchDecimal(n, EITHER)
    ensures ParseAmount(k, lenient, n, "") == Ok(CentsOf(n))
    ensures ParseAmount(k, lenient, "EUR" + n, "") == Ok(CentsOf(n))
  {
    hide ParseAmount, MatchDecimal, CentsOf;
    assert "" + "" + n == n && "" + "EUR" + n == "EUR" + n;
    StrictAutomatic(k, "", n);
    StrictAutomatic(k, "EUR", n);
    if lenient {
      UpperWord(k);
      FormatStands(k, "");
      LenientExtendsStrict(k, "", "", n, "", "");
      LenientExtendsStrict(k, "", "EUR", n, "", "");
    }
  }

  // ---- Grouped printings -----------------------------------------------------------------------

  lemma GroupTailMore(group: string, rest: string, sep: char)
    requires |group| == 3 && IsDigits(group) && GroupTail(rest, sep)
    ensures GroupTail([sep] + group + rest, sep)
  {
    var t := [sep] + group + rest;
    assert t[1..4] == group && t[4..] == rest;
  }

  lemma StripMore(group: string, rest: string, sep: char)
    requires IsDigits(group) && !IsDigit(sep)
    ensures RemoveAll([sep] + group + rest, [sep]) == group + RemoveAll(rest, [sep])
  {
    RemoveCharAppend([sep] + group, rest, sep);
    RemoveCharAppend([sep], group, sep);
    RemoveAbsent(group, [sep], 0);
  }

  lemma GroupsUnfold(digits: string, sep: char)
    requires |digits| % 3 == 0 && digits != ""
    ensures Groups(digits, sep) == [sep] + digits[..3] + Groups(digits[3..], sep)
  {}

  lemma Regroup(all: string, a: string, b: string, c: string)
    requires all == a + b
    ensures all + c == a + (b + c)
  {
    assert (a + b) + c == a + (b + c);
  }

  lemma NoGroups(sep: char, tail: string)
    ensures Groups("", sep) + tail == tail
  {}

  lemma {:induction false} GroupsMatch(digits: string, sep: char, tail: string)
    requires |digits| % 3 == 0 && IsDigits(digits) && (sep == '.' || sep == ' ')
    requires GroupTail(tail, sep) && forall i :: 0 <= i < |tail| ==> tail[i] != sep
    ensures GroupTail(Groups(digits, sep) + tail, sep)
    ensures RemoveAll(Groups(digits, sep) + tail, [sep]) == digits + tail
    decreases |digits|
  {
    hide RemoveAll, GroupTail, Groups;
    if digits == "" {
      NoGroups(sep, tail);
      assert digits + tail == tail;
      RemoveAbsent(tail, [sep], 0);
    } else {
      var group, more := digits[..3], digits[3..];
      var rest := Groups(more, sep) + tail;
      GroupsMatch(more, sep, tail);
      GroupsUnfold(digits, sep);
      Regroup(Groups(digits, sep), [sep] + group, Groups(more, sep), tail);
      GroupTailMore(group, rest, sep);
      StripMore(group, rest, sep);
      assert digits + tail == group + (more + tail);
    }
  }

  lemma {:induction false} GroupsShape(digits: string, sep: char)
    requires |digits| % 3 == 0 && IsDigits(digits)
    ensures forall i :: 0 <= i < |Groups(digits, sep)| ==> IsDigit(Groups(digits, sep)[i]) || Groups(digits, sep)[i] == sep
    ensures if digits == "" then Groups(digits, sep) == "" else Groups(digits, sep) != "" && Groups(digits, sep)[0] == sep
    decreases |digits|
  {
    if digits != "" { GroupsShape(digits[3..], sep); }
  }

  lemma {:induction false} BlanksStay(w: string, digits: string, tail: string)
    requires w != "" && IsDigits(w) && |digits| % 3 == 0 && IsDigits(digits) && AllNumeric(tail)
    ensures Collapse(w + (Groups(digits, ' ') + tail)) == w + (Groups(digits, ' ') + tail)
    decreases |digits|
  {
    hide Collapse;
    if digits == "" {
      assert "" + tail == tail;
      CollapseWord(w + tail);
    } else {
      var head, g := digits[..3], Groups(digits[3..], ' ');
      assert Groups(digits, ' ') == [' '] + head + g;
      hide Groups;
      BlanksStay(head, digits[3..], tail);
      var s := w + (Groups(digits, ' ') + tail);
      assert s[|w| + 1..] == head + (g + tail);
      CollapseWords(s, |w|);
    }
  }

  /** A grouped number: first group `w`, further groups of `digits`, then a comma and two decimals. */
  lemma GroupedNumber(w: string, digits: string, sep: char, b: string)
    requires 1 <= |w| <= 3 && IsDigits(w) && |digits| % 3 == 0 && IsDigits(digits) && IsDigits(b) && |b| == 2
    requires sep == '.' || sep == ' '
    ensures var n := w + (Groups(digits, sep) + ("," + b));
            MatchGrouped(n, sep) && RemoveAll(n, [sep]) == w + (digits + ("," + b))
  {
    hide RemoveAll, Groups;
    var tail := "," + b;
    var rest := Groups(digits, sep) + tail;
    var n := w + rest;
    assert tail[1..] == b;
    GroupsMatch(digits, sep, tail);
    GroupsShape(digits, sep);
    RunIs(n, |w|);
    assert n[|w|..] == rest;
    RemoveCharAppend(w, rest, sep);
    RemoveAbsent(w, [sep], 0);
  }

  lemma GroupedChars(w: string, digits: string, sep: char, b: string)
    requires 1 <= |w| <= 3 && IsDigits(w) && |digits| % 3 == 0 && IsDigits(digits) && IsDigits(b) && |b| == 2
    requires sep == '.' || sep == ' '
    ensures var n := w + (Groups(digits, sep) + ("," + b));
            && (forall i :: 0 <= i < |n| ==> IsNumeric(n[i]) || n[i] == sep)
            && IsDigit(n[0]) && IsDigit(n[|n| - 1]) && (sep == ' ' ==> '.' !in n)
            && (if digits == "" then n == w + (digits + ("," + b)) && sep !in n else sep in n)
  {
    hide Groups;
    var n := w + (Groups(digits, sep) + ("," + b));
    GroupsShape(digits, sep);
    if digits != "" { assert n[|w|] == sep; }
  }

  /** The strict reader sees a grouped number as it stands. */
  lemma StrictReadsGrouped(k: Casing, w: string, digits: string, sep: char, b: string)
    requires k.Lawful() && 1 <= |w| <= 3 && IsDigits(w) && |digits| % 3 == 0 && IsDigits(digits)
    requires IsDigits(b) && |b| == 2 && (sep == '.' || sep == ' ')
    ensures var n := w + (Groups(digits, sep) + ("," + b));
            TrimSpace(n) == n && NormalizeInput(k, n) == Ok(Normalized(n, ""))
  {
    hide NormalizeInput, Collapse, TrimSpace, Groups, RemoveAll, MatchGrouped;
    var n := w + (Groups(digits, sep) + ("," + b));
    GroupedChars(w, digits, sep, b);
    TrimNothing(n);
    assert n + "" + "" == n && n + "" == n;
    StrictMarked(k, n, "", "");
    if sep == ' ' {
      BlanksStay(w, digits, "," + b);
    } else {
      CollapseWord(n);
    }
  }

  lemma GroupedProfileAccepts(k: Casing, lenient: bool, n: string, sep: char, format: string, out: string)
    requires k.Lawful() && n != "" && TrimSpace(n) == n && NormalizeInput(k, n) == Ok(Normalized(n, ""))
    requires (sep == ' ' && format == "eur_grouped_space_comma") || (sep == '.' && format == "eur_grouped_dot_comma")
    requires MatchGrouped(n, sep) && RemoveAll(n, [sep]) == out && (sep == ' ' ==> '.' !in n)
    requires MatchDecimal(out, {','}) && MatchDecimal(out, EITHER) && (sep !in n ==> n == out)
    ensures ParseAmount(k, lenient, n, format) == Ok(CentsOf(out))
  {
    hide NormalizeInput, TrimSpace, MatchGrouped, RemoveAll, DigitRun, ParseAmount, CentsOf, NormalizeLenient;
    assert NormalizeByProfile(k, n, format) == Ok(Normalized(out, ""));
    ParseTrimmed(k, lenient, n, format, Normalized(out, ""));
  }

  lemma GroupedAccepts(k: Casing, lenient: bool, w: string, digits: string, sep: char, b: string, format: string)
    requires k.Lawful() && 1 <= |w| <= 3 && IsDigits(w) && |digits| % 3 == 0 && IsDigits(digits)
    requires IsDigits(b) && |b| == 2
    requires (sep == ' ' && format == "eur_grouped_space_comma") || (sep == '.' && format == "eur_grouped_dot_comma")
    requires MatchDecimal(w + (digits + ("," + b)), {','}) && MatchDecimal(w + (digits + ("," + b)), EITHER)
    ensures ParseAmount(k, lenient, w + (Groups(digits, sep) + ("," + b)), format)
         == Ok(CentsOf(w + (digits + ("," + b))))
  {
    GroupedNumber(w, digits, sep, b);
    GroupedChars(w, digits, sep, b);
    StrictReadsGrouped(k, w, digits, sep, b);
    var n, out := w + (Groups(digits, sep) + ("," + b)), w + (digits + ("," + b));
    assert n != "";
    hide *;
    GroupedProfileAccepts(k, lenient, n, sep, format, out);
  }

  lemma PrintedInGroups(digits: string, sep: char, tail: string)
    requires digits != ""
    ensures var h := 1 + (|digits| - 1) % 3;
            && 1 <= h <= 3 && h <= |digits| && |digits[h..]| % 3 == 0
            && Grouped(digits, sep) + tail == digits[..h] + (Groups(digits[h..], sep) + tail)
            && digits + tail == digits[..h] + (digits[h..] + tail)
  {
    hide Groups;
    var h := 1 + (|digits| - 1) % 3;
    assert digits == digits[..h] + digits[h..];
  }

  lemma OneGroupedRoundTrip(k: Casing, lenient: bool, whole: nat, cents: nat, sep: char, format: string)
    requires k.Lawful() && whole < 1_000_000_000_000 && cents < 100
    requires (sep == ' ' && format == "eur_grouped_space_comma") || (sep == '.' && format == "eur_grouped_dot_comma")
    ensures ParseAmount(k, lenient, PrintedGrouped(whole, cents, sep), format) == Ok(whole * 100 + cents)
  {
    hide MatchDecimal, ParseAmount, CentsOf, Printed, TwoDigits, Grouped, Groups;
    var digits, b := Printed(whole), TwoDigits(cents);
    var h := 1 + (|digits| - 1) % 3;
    PrintedMeans(whole, cents, ',');
    PrintedInGroups(digits, sep, "," + b);
    assert PrintedAmount(whole, cents, ',') == digits + ("," + b);
    assert PrintedGrouped(whole, cents, sep) == Grouped(digits, sep) + ("," + b);
    GroupedAccepts(k, lenient, digits[..h], digits[h..], sep, b, format);
  }

  /** Space- and dot-grouped printings under their own profiles. */
  lemma GroupedRoundTrip(k: Casing, lenient: bool, whole: nat, cents: nat)
    requires k.Lawful() && whole < 1_000_000_000_000 && cents < 100
    ensures ParseAmount(k, lenient, PrintedGrouped(whole, cents, ' '), "eur_grouped_space_comma") == Ok(whole * 100 + cents)
    ensures ParseAmount(k, lenient, PrintedGrouped(whole, cents, '.'), "eur_grouped_dot_comma") == Ok(whole * 100 + cents)
  {
    hide *;
    OneGroupedRoundTrip(k, lenient, whole, cents, ' ', "eur_grouped_space_comma");
    OneGroupedRoundTrip(k, lenient, whole, cents, '.', "eur_grouped_dot_comma");
  }
}
