/**
 The payload for any arguments (qr/epc.go): when it is built, what its lines are, and how numbers
 are printed.
 */
module Payloads {
  import opened Wrappers
  import opened Text
  import opened Epc
  import AmountEuro

  // ---- Printed numbers --------------------------------------------------------------------------

  /** Digits without a zero in front, but for zero itself. */
  predicate Numeral(s: string) {
    s != "" && IsDigits(s) && (s[0] == '0' ==> s == "0")
  }

  lemma {:induction false} NumeralPositive(s: string)
    requires Numeral(s)
    ensures ValueOf(s) == 0 <==> s == "0"
  {
    AmountEuro.ZerosAreZero(s);
  }

  lemma {:induction false} PrintedIs(s: string)
    requires Numeral(s)
    ensures Printed(ValueOf(s)) == s
  {
    hide Printed;
    if |s| == 1 {
      OneDigit(s);
    } else {
      var t, c := s[..|s| - 1], s[|s| - 1];
      assert s == t + [c];
      PrintedIs(t);
      NumeralPositive(t);
      ValueSnoc(t, c);
      assert t[0] == s[0];
      PrintedStep(ValueOf(t), DigitValue(c));
      DigitBack(c);
    }
  }

  lemma DigitBack(c: char)
    requires IsDigit(c)
    ensures DigitChar(DigitValue(c)) == c
  {}

  lemma PrintedDigit(d: nat)
    requires d < 10
    ensures Printed(d) == [DigitChar(d)]
  {}

  lemma OneDigit(s: string)
    requires IsDigits(s) && |s| == 1
    ensures Printed(ValueOf(s)) == s
  {
    hide Printed, ValueOf;
    AmountEuro.ZeroValue();
    ValueSnoc("", s[0]);
    assert "" + [s[0]] == s;
    DigitBack(s[0]);
    PrintedDigit(DigitValue(s[0]));
  }

  lemma PrintedStep(n: nat, d: nat)
    requires n > 0 && d < 10
    ensures Printed(n * 10 + d) == Printed(n) + [DigitChar(d)]
  {}

  lemma {:induction false} PrintedNumeral(n: nat)
    ensures Numeral(Printed(n)) && (Printed(n) == "0" <==> n == 0)
  {
    hide Printed;
    if n < 10 {
      PrintedDigit(n);
    } else {
      PrintedNumeral(n / 10);
      PrintedStep(n / 10, n % 10);
      assert n == n / 10 * 10 + n % 10;
      assert Printed(n)[0] == Printed(n / 10)[0] && |Printed(n)| > 1;
    }
  }

  /** A number is printed as the one numeral that has its value. */
  lemma PrintedIff(n: nat, s: string)
    ensures s == Printed(n) <==> Numeral(s) && ValueOf(s) == n
  {
    hide Printed, ValueOf;
    PrintedNumeral(n);
    PrintedValue(n);
    if Numeral(s) { PrintedIs(s); }
  }

  // ---- The payload --------------------------------------------------------------------------------

  /** "EUR", euros, a point and two digits of cents. */
  ghost predicate AmountText(line: string, cents: nat) {
    exists whole, frac ::
      && line == "EUR" + whole + "." + frac && Numeral(whole) && IsDigits(frac) && |frac| == 2
      && ValueOf(whole) * 100 + ValueOf(frac) == cents
  }

  lemma AmountLineIs(cents: nat)
    ensures AmountText(AmountLine(cents), cents)
  {
    var whole, frac := Printed(cents / 100), TwoDigits(cents % 100);
    hide Printed, TwoDigits, ValueOf;
    PrintedIff(cents / 100, whole);
    TwoDigitsValue(cents % 100);
    assert AmountLine(cents) == "EUR" + whole + "." + frac;
  }

  lemma TwoDigitsValue(n: nat)
    requires n < 100
    ensures ValueOf(TwoDigits(n)) == n
  {
    AmountEuro.TwoDigitValue(TwoDigits(n));
  }

  /** The parts stand one after the other with `sep` between any two. */
  predicate LaidOut(text: string, parts: seq<string>, sep: char) {
    if parts == [] then text == ""
    else if |parts| == 1 then text == parts[0]
    else parts[0] + [sep] <= text && LaidOut(text[|parts[0]| + 1..], parts[1..], sep)
  }

  lemma {:induction false} LaidOutIff(text: string, parts: seq<string>, sep: char)
    ensures LaidOut(text, parts, sep) <==> text == Join(parts, [sep])
    decreases |parts|
  {
    if |parts| > 1 {
      var head, rest := parts[0] + [sep], Join(parts[1..], [sep]);
      LaidOutIff(text[if |head| <= |text| then |head| else |text|..], parts[1..], sep);
      if head <= text { assert text == head + text[|head|..]; }
      if text == head + rest { assert text[|head|..] == rest; }
    }
  }

  /**
   For any arguments: a payload is refused exactly for a missing field or an amount of nothing or
   less, and then for two kinds of remittance; otherwise it is these twelve lines, whatever
   characters they contain.
   */
  lemma BuildsIff(name: string, iban: string, bic: string, cents: int, purpose: string, ref: string, text: string, info: string)
    ensures var r := BuildEPCPayload(name, iban, bic, cents, purpose, ref, text, info);
            var complete := |name| > 0 && |iban| > 0 && |bic| > 0 && cents >= 1;
            && (r == Err(MissingFields) <==> !complete)
            && (r == Err(BuildError.RemittanceExclusive) <==> complete && |ref| > 0 && |text| > 0)
            && (r.Ok? <==> complete && (|ref| == 0 || |text| == 0))
            && (r.Ok? ==> exists amount ::
                  && AmountText(amount, cents)
                  && LaidOut(r.value, ["BCD", "001", "1", "SCT", bic, name, iban, amount, purpose, ref, text, info], '\n'))
  {
    hide Join, AmountLine, AmountText, LaidOut;
    if cents >= 1 {
      AmountLineIs(cents);
      var lines := ["BCD", "001", "1", "SCT", bic, name, iban, AmountLine(cents), purpose, ref, text, info];
      LaidOutIff(Join(lines, "\n"), lines, '\n');
    }
  }

}
