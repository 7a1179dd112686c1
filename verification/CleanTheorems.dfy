/**
 What cleaning guarantees to the rest of the program: it settles after one pass, and what
 it accepts always builds a payload.
 */
module CleanTheorems {
  import opened Wrappers
  import opened Text
  import opened Validate
  import opened Epc
  import opened AmountPrinting
  import Amount
  import AmountAgreement
  import Iban

  // ---- Trimmed texts ---------------------------------------------------------------------

  /** No blank in front. */
  ghost predicate Tidy(s: string) {
    s == "" || !IsSpace(s[0])
  }

  lemma {:induction false} TrimRightTidies(s: string)
    ensures TrimRight(s) <= s
    ensures TrimRight(s) != "" ==> !IsSpace(TrimRight(s)[|TrimRight(s)| - 1])
    ensures s != "" && Tidy(s) ==> TrimRight(s) != ""
  {
    if s != "" && IsSpace(s[|s| - 1]) { TrimRightTidies(s[..|s| - 1]); }
  }

  lemma TrimSpaceTidies(s: string)
    ensures Tidy(TrimSpace(s))
  {
    TrimLeftShrinks(s);
    TrimRightTidies(TrimLeft(s));
  }

  lemma {:induction false} BlankRight(s: string)
    ensures TrimRight(s) == "" <==> forall i :: 0 <= i < |s| ==> IsSpace(s[i])
  {
    if s != "" { BlankRight(s[..|s| - 1]); }
  }

  /** Trimming leaves nothing exactly of texts of blanks. */
  lemma {:induction false} BlankIff(s: string)
    ensures TrimSpace(s) == "" <==> forall i :: 0 <= i < |s| ==> IsSpace(s[i])
  {
    if s != "" && IsSpace(s[0]) {
      BlankIff(s[1..]);
      assert forall i :: 0 < i < |s| ==> s[i] == s[1..][i - 1];
    } else {
      BlankRight(s);
    }
  }

  lemma TrimTidy(s: string)
    requires Tidy(s)
    ensures TrimSpace(s) == TrimRight(s) && Tidy(TrimRight(s))
    ensures TrimSpace(TrimRight(s)) == TrimRight(s)
    ensures TrimRight(s) == "" <==> s == ""
  {
    TrimRightTidies(s);
  }

  // ---- What an accepted request looks like --------------------------------------------------

  ghost predicate Stable(k: Casing, c: Clean) {
    && c.scheme == "epc_sct"
    && c.name != "" && Tidy(c.name) && |c.name| <= 70
    && Iban.Valid(c.iban) && MatchBic(c.bic)
    && 1 <= c.amountCents <= MAX_CENTS
    && c.purpose != "" && Tidy(c.purpose) && |c.purpose| <= 4 && k.Upper(c.purpose) == c.purpose
    && Tidy(c.remittanceReference) && |c.remittanceReference| <= 25
    && Tidy(c.remittanceText) && |c.remittanceText| <= 140
    && Tidy(c.information) && |c.information| <= 70
    && (c.remittanceReference == "" || c.remittanceText == "")
  }

  lemma TruncatedTidy(s: string, max: nat)
    requires Tidy(s)
    ensures Tidy(TruncateRunes(s, max)) && (max > 0 ==> (TruncateRunes(s, max) == "" <==> s == ""))
  {}

  lemma UpperTwice(k: Casing, s: string)
    requires k.Lawful()
    ensures k.Upper(k.Upper(s)) == k.Upper(s) && (Tidy(s) ==> Tidy(k.Upper(s)))
  {}

  lemma AcceptedIsStable(k: Casing, lenient: bool, input: Input)
    requires k.Lawful() && CleanAndValidate(k, lenient, input).Ok?
    ensures Stable(k, CleanAndValidate(k, lenient, input).value)
  {
    hide TrimSpace, RemoveAll, Amount.ParseAmount, Iban.Valid, MatchBic;
    TrimSpaceTidies(input.name);
    TrimSpaceTidies(input.remittanceReference);
    TrimSpaceTidies(input.remittanceText);
    TrimSpaceTidies(input.information);
    TrimSpaceTidies(input.purpose);
    TruncatedTidy(TrimSpace(input.name), 70);
    var purpose := TrimSpace(input.purpose);
    var shown := TruncateRunes(if purpose == "" then "GDDS" else purpose, 4);
    TruncatedTidy(if purpose == "" then "GDDS" else purpose, 4);
    UpperTwice(k, shown);
  }

  /** Nothing to trim at the end, unless the text was cut off there. */
  predicate Clipped(s: string, max: nat) {
    TrimRight(s) == s || |s| == max
  }

  predicate AllClipped(c: Clean) {
    && Clipped(c.name, 70) && Clipped(c.purpose, 4) && Clipped(c.remittanceReference, 25)
    && Clipped(c.remittanceText, 140) && Clipped(c.information, 70)
  }

  lemma TruncatedClipped(s: string, max: nat)
    ensures Clipped(TruncateRunes(TrimSpace(s), max), max)
  {
    TrimSpaceTidies(s);
    TrimRightTidies(TrimLeft(s));
  }

  lemma UpperClipped(k: Casing, s: string, max: nat)
    requires k.Lawful() && Clipped(s, max)
    ensures Clipped(k.Upper(s), max)
  {
    if |s| != max && s != "" {
      TrimRightTidies(s);
      assert k.Upper(s)[|s| - 1] == k.upper(s[|s| - 1]);
    }
  }

  lemma AcceptedIsClipped(k: Casing, lenient: bool, input: Input)
    requires k.Lawful() && CleanAndValidate(k, lenient, input).Ok?
    ensures AllClipped(CleanAndValidate(k, lenient, input).value)
  {
    hide TrimSpace, TrimRight, RemoveAll, Amount.ParseAmount, Iban.Valid, MatchBic, Clipped, TruncateRunes;
    TruncatedClipped(input.name, 70);
    TruncatedClipped(input.remittanceReference, 25);
    TruncatedClipped(input.remittanceText, 140);
    TruncatedClipped(input.information, 70);
    TruncatedClipped(input.purpose, 4);
    DefaultClipped();
    var purpose := TrimSpace(input.purpose);
    UpperClipped(k, TruncateRunes(if purpose == "" then "GDDS" else purpose, 4), 4);
  }

  lemma DefaultClipped()
    ensures Clipped(TruncateRunes("GDDS", 4), 4)
  {}

  /** A text that is trimmed and truncated to `s`. */
  function Unclipped(s: string): string {
    if TrimRight(s) == s then s else s + "X"
  }

  lemma UnclippedCleans(s: string, max: nat)
    requires Tidy(s) && |s| <= max && Clipped(s, max)
    ensures TruncateRunes(TrimSpace(Unclipped(s)), max) == s && (TrimSpace(Unclipped(s)) == "" <==> s == "")
  {
    if TrimRight(s) == s {
      assert TrimSpace(s) == s;
    } else {
      var t := s + "X";
      assert TrimRight(t) == t && TrimSpace(t) == t && t[..max] == s;
    }
  }

  /** A request that is cleaned to `c`. */
  function Source(c: Clean): Input {
    Input(c.scheme, Unclipped(c.name), c.iban, c.bic, PrintedAmount(c.amountCents / 100, c.amountCents % 100, '.'), "",
          Unclipped(c.purpose), Unclipped(c.remittanceReference), Unclipped(c.remittanceText), Unclipped(c.information))
  }

  lemma SourceCleans(k: Casing, lenient: bool, c: Clean)
    requires k.Lawful() && Stable(k, c) && AllClipped(c)
    ensures CleanAndValidate(k, lenient, Source(c)) == Ok(c)
  {
    hide TrimSpace, TrimRight, RemoveAll, Amount.ParseAmount, PrintedAmount, Iban.Valid, Clipped, Unclipped, TruncateRunes;
    SchemeStands(k);
    ValidIsCode(c.iban);
    CodeStands(k, c.iban);
    CodeStands(k, c.bic);
    AmountStands(k, lenient, c.amountCents);
    UnclippedCleans(c.name, 70);
    UnclippedCleans(c.purpose, 4);
    UnclippedCleans(c.remittanceReference, 25);
    UnclippedCleans(c.remittanceText, 140);
    UnclippedCleans(c.information, 70);
  }

  /**
   What cleaning can produce, exactly: stable results whose texts end in a blank only where
   they were cut off.
   */
  lemma ResultsIff(k: Casing, lenient: bool, c: Clean)
    requires k.Lawful()
    ensures (exists input :: CleanAndValidate(k, lenient, input) == Ok(c)) <==> Stable(k, c) && AllClipped(c)
  {
    hide CleanAndValidate, Stable, AllClipped;
    if input :| CleanAndValidate(k, lenient, input) == Ok(c) {
      AcceptedIsStable(k, lenient, input);
      AcceptedIsClipped(k, lenient, input);
    }
    if Stable(k, c) && AllClipped(c) { SourceCleans(k, lenient, c); }
  }

  // ---- Cleaning settles ----------------------------------------------------------------------

  /** The cleaned request offered again, with the amount printed. */
  function Feedback(c: Clean): Input {
    Input(c.scheme, c.name, c.iban, c.bic, PrintedAmount(c.amountCents / 100, c.amountCents % 100, '.'), "",
          c.purpose, c.remittanceReference, c.remittanceText, c.information)
  }

  /** Blanks left at the end of a truncated field are dropped. */
  function Settled(c: Clean): Clean {
    c.(name := TrimRight(c.name), purpose := TrimRight(c.purpose),
       remittanceReference := TrimRight(c.remittanceReference),
       remittanceText := TrimRight(c.remittanceText), information := TrimRight(c.information))
  }

  lemma UpperPrefix(k: Casing, s: string, p: string)
    requires k.Upper(s) == s && p <= s
    ensures k.Upper(p) == p
  {
    assert forall i :: 0 <= i < |p| ==> k.Upper(s)[i] == k.upper(s[i]) && p[i] == s[i];
  }

  lemma CodeStands(k: Casing, s: string)
    requires k.Lawful() && s != "" && forall i :: 0 <= i < |s| ==> Iban.IsLetter(s[i]) || IsDigit(s[i])
    ensures TrimSpace(s) == s && RemoveAll(s, " ") == s && k.Upper(s) == s
  {
    TrimNothing(s);
    AmountAgreement.RemoveAbsent(s, " ", 0);
  }

  lemma SchemeStands(k: Casing)
    requires k.Lawful()
    ensures k.Lower(TrimSpace("epc_sct")) == "epc_sct"
  {
    TrimNothing("epc_sct");
  }

  lemma AmountStands(k: Casing, lenient: bool, cents: nat)
    requires k.Lawful() && cents <= MAX_CENTS
    ensures Amount.ParseAmount(k, lenient, PrintedAmount(cents / 100, cents % 100, '.'), "") == Ok(cents)
    ensures Amount.ParseAmount(k, lenient, AmountLine(cents), "") == Ok(cents)
  {
    hide Amount.ParseAmount;
    AutomaticRoundTrip(k, lenient, cents / 100, cents % 100);
  }

  /** Cleaning a stable request again only drops trailing blanks. */
  lemma StableRecleans(k: Casing, lenient: bool, c: Clean)
    requires k.Lawful() && Stable(k, c)
    ensures CleanAndValidate(k, lenient, Feedback(c)) == Ok(Settled(c))
  {
    hide TrimSpace, TrimRight, RemoveAll, Amount.ParseAmount, PrintedAmount, Iban.Valid;
    SchemeStands(k);
    ValidIsCode(c.iban);
    CodeStands(k, c.iban);
    CodeStands(k, c.bic);
    AmountStands(k, lenient, c.amountCents);
    FieldSettles(c.name, 70);
    FieldSettles(c.purpose, 4);
    FieldSettles(c.remittanceReference, 25);
    FieldSettles(c.remittanceText, 140);
    FieldSettles(c.information, 70);
    UpperPrefix(k, c.purpose, TrimRight(c.purpose));
  }

  lemma ValidIsCode(s: string)
    requires Iban.Valid(s)
    ensures 15 <= |s| <= 34 && forall i :: 0 <= i < |s| ==> Iban.IsLetter(s[i]) || IsDigit(s[i])
  {}

  lemma FieldSettles(s: string, max: nat)
    requires Tidy(s) && |s| <= max
    ensures TruncateRunes(TrimSpace(s), max) == TrimRight(s) && TrimRight(s) <= s && Tidy(TrimRight(s))
    ensures TrimSpace(s) == TrimRight(s) && TrimRight(TrimRight(s)) == TrimRight(s)
    ensures TrimRight(s) == "" <==> s == ""
  {
    TrimTidy(s);
    TrimTidy(TrimRight(s));
    TrimRightTidies(s);
  }

  lemma SettledIsStable(k: Casing, c: Clean)
    requires Stable(k, c)
    ensures Stable(k, Settled(c)) && Settled(Settled(c)) == Settled(c)
  {
    hide TrimSpace, TrimRight, Iban.Valid, MatchBic;
    FieldSettles(c.name, 70);
    FieldSettles(c.purpose, 4);
    FieldSettles(c.remittanceReference, 25);
    FieldSettles(c.remittanceText, 140);
    FieldSettles(c.information, 70);
    UpperPrefix(k, c.purpose, TrimRight(c.purpose));
  }

  /**
   Cleaning stabilises: an accepted request offered again, its amount reprinted, is always
   accepted, whichever way amounts are read; only blanks left behind by truncation go, and
   a third pass changes nothing.
   */
  lemma CleaningStabilises(k: Casing, lenient: bool, input: Input, lenient2: bool, lenient3: bool)
    requires k.Lawful() && CleanAndValidate(k, lenient, input).Ok?
    ensures var c := CleanAndValidate(k, lenient, input).value;
            && CleanAndValidate(k, lenient2, Feedback(c)) == Ok(Settled(c))
            && CleanAndValidate(k, lenient3, Feedback(Settled(c))) == Ok(Settled(c))
  {
    hide CleanAndValidate, Stable, Settled;
    var c := CleanAndValidate(k, lenient, input).value;
    AcceptedIsStable(k, lenient, input);
    StableRecleans(k, lenient2, c);
    SettledIsStable(k, c);
    StableRecleans(k, lenient3, Settled(c));
  }

  // ---- Accepted requests build ------------------------------------------------------------------

  function PayloadLines(c: Clean): (l: seq<string>)
    ensures |l| == 12
  {
    Lines(c.name, c.iban, c.bic, c.amountCents, c.purpose, c.remittanceReference, c.remittanceText, c.information)
  }

  ghost predicate OneLiners(c: Clean) {
    && Lacks(c.name, '\n') && Lacks(c.purpose, '\n') && Lacks(c.remittanceReference, '\n')
    && Lacks(c.remittanceText, '\n') && Lacks(c.information, '\n')
  }

  lemma AmountLineShape(cents: nat)
    requires 1 <= cents <= MAX_CENTS
    ensures |AmountLine(cents)| <= 15 && Lacks(AmountLine(cents), '\n')
  {
    PrintedLength(cents / 100, 9) by { assert PowerOfTen(9) == 1_000_000_000; }
  }

  lemma LengthStep(l: seq<string>, i: nat)
    requires i < |l|
    ensures TotalLength(l[i..]) == |l[i]| + TotalLength(l[i + 1..])
  {
    assert l[i..][1..] == l[i + 1..];
  }

  lemma TwelveLengths(l: seq<string>)
    requires |l| == 12
    ensures TotalLength(l) == |l[0]| + |l[1]| + |l[2]| + |l[3]| + |l[4]| + |l[5]| + |l[6]| + |l[7]| + |l[8]| + |l[9]| + |l[10]| + |l[11]|
  {
    hide TotalLength;
    assert l[0..] == l && l[12..] == [];
    LengthStep(l, 0); LengthStep(l, 1); LengthStep(l, 2); LengthStep(l, 3);
    LengthStep(l, 4); LengthStep(l, 5); LengthStep(l, 6); LengthStep(l, 7);
    LengthStep(l, 8); LengthStep(l, 9); LengthStep(l, 10); LengthStep(l, 11);
    NothingLong();
  }

  lemma NothingLong()
    ensures TotalLength([]) == 0
  {}

  lemma StableLength(k: Casing, c: Clean)
    requires Stable(k, c)
    ensures |Join(PayloadLines(c), "\n")| <= 365
  {
    hide Join, TotalLength, AmountLine;
    JoinLength(PayloadLines(c), "\n");
    TwelveLengths(PayloadLines(c));
    AmountLineShape(c.amountCents);
    ValidIsCode(c.iban);
  }

  lemma OneLinersIff(k: Casing, c: Clean)
    requires Stable(k, c)
    ensures OneLiners(c) <==> forall i :: 0 <= i < 12 ==> Lacks(PayloadLines(c)[i], '\n')
  {
    hide AmountLine, Iban.Valid;
    AmountLineShape(c.amountCents);
    ValidIsCode(c.iban);
    var l := PayloadLines(c);
    assert l[4] == c.bic && l[5] == c.name && l[6] == c.iban && l[7] == AmountLine(c.amountCents);
    assert l[8] == c.purpose && l[9] == c.remittanceReference && l[10] == c.remittanceText && l[11] == c.information;
  }

  /**
   Whatever cleaning accepts builds: the build never fails, the payload has at most 365
   characters, and it splits into twelve lines exactly when no field contains a line feed;
   then the lines give back every field and the amount line reads back as the cents.
   */
  lemma AcceptedBuilds(k: Casing, lenient: bool, input: Input, reader: bool)
    requires k.Lawful() && CleanAndValidate(k, lenient, input).Ok?
    ensures var c := CleanAndValidate(k, lenient, input).value;
            && Build(c).Ok? && |Build(c).value| <= 365
            && (|Split(Build(c).value, '\n')| == 12 <==> OneLiners(c))
            && (OneLiners(c) ==>
                  var l := Split(Build(c).value, '\n');
                  && l[0] == "BCD" && l[1] == "001" && l[2] == "1" && l[3] == "SCT"
                  && l[4] == c.bic && l[5] == c.name && l[6] == c.iban && l[8] == c.purpose
                  && l[9] == c.remittanceReference && l[10] == c.remittanceText && l[11] == c.information
                  && Amount.ParseAmount(k, reader, l[7], "") == Ok(c.amountCents))
  {
    AcceptedIsStable(k, lenient, input);
    StableBuilds(k, CleanAndValidate(k, lenient, input).value, reader) by { hide CleanAndValidate; }
  }

  lemma StableBuilds(k: Casing, c: Clean, reader: bool)
    requires k.Lawful() && Stable(k, c)
    ensures Build(c).Ok? && |Build(c).value| <= 365
    ensures |Split(Build(c).value, '\n')| == 12 <==> OneLiners(c)
    ensures OneLiners(c) ==>
      var l := Split(Build(c).value, '\n');
      && l[0] == "BCD" && l[1] == "001" && l[2] == "1" && l[3] == "SCT"
      && l[4] == c.bic && l[5] == c.name && l[6] == c.iban && l[8] == c.purpose
      && l[9] == c.remittanceReference && l[10] == c.remittanceText && l[11] == c.information
      && Amount.ParseAmount(k, reader, l[7], "") == Ok(c.amountCents)
  {
    hide Join, Split, AmountLine, Amount.ParseAmount, Iban.Valid, OneLiners, Lacks;
    ValidIsCode(c.iban);
    StableLength(k, c);
    OneLinersIff(k, c);
    SplitsBackIff(PayloadLines(c), '\n');
    AmountStands(k, reader, c.amountCents);
  }

  // ---- Examples -------------------------------------------------------------------------------------

  const EXAMPLE_BBAN := "86011117947"

  /** A Norwegian account with its prescribed check digits. */
  function ExampleIban(): string
    requires Iban.Bban(EXAMPLE_BBAN)
  {
    "NO" + TwoDigits(Iban.CheckPair("NO", EXAMPLE_BBAN)) + EXAMPLE_BBAN
  }

  lemma ExampleIbanValid()
    ensures Iban.Bban(EXAMPLE_BBAN) && Iban.Valid(ExampleIban())
  {
    Iban.CheckPairUnique("NO", EXAMPLE_BBAN, Iban.CheckPair("NO", EXAMPLE_BBAN));
  }

  /** A cleaned request of one euro with the given texts. */
  function Example(name: string, text: string, info: string): Clean
    requires Iban.Bban(EXAMPLE_BBAN)
  {
    Clean("epc_sct", name, ExampleIban(), "INGDDEFFXXX", 100, "GDDS", "", text, info)
  }

  lemma ExampleAccepted(k: Casing, lenient: bool, name: string, text: string, info: string)
    requires k.Lawful() && name != "" && |name| <= 70 && |text| <= 140 && |info| <= 70
    requires TrimSpace(name) == name && TrimSpace(text) == text && TrimSpace(info) == info
    ensures Iban.Bban(EXAMPLE_BBAN)
    ensures CleanAndValidate(k, lenient, Feedback(Example(name, text, info))) == Ok(Example(name, text, info))
  {
    hide *;
    ExampleIbanValid();
    ExampleStable(k, name, text, info);
    ExampleSettled(name, text, info);
    StableRecleans(k, lenient, Example(name, text, info));
  }

  lemma ExampleStable(k: Casing, name: string, text: string, info: string)
    requires k.Lawful() && name != "" && |name| <= 70 && |text| <= 140 && |info| <= 70
    requires TrimSpace(name) == name && TrimSpace(text) == text && TrimSpace(info) == info
    requires Iban.Bban(EXAMPLE_BBAN) && Iban.Valid(ExampleIban())
    ensures Stable(k, Example(name, text, info))
  {
    TrimSpaceTidies(name);
    TrimSpaceTidies(text);
    TrimSpaceTidies(info);
    hide TrimSpace, Iban.Valid, ExampleIban;
    assert k.Upper("GDDS") == "GDDS";
  }

  lemma ExampleSettled(name: string, text: string, info: string)
    requires Iban.Bban(EXAMPLE_BBAN)
    requires TrimSpace(name) == name && TrimSpace(text) == text && TrimSpace(info) == info
    ensures Settled(Example(name, text, info)) == Example(name, text, info)
  {
    TrimmedStands(name);
    TrimmedStands(text);
    TrimmedStands(info);
    assert TrimRight("GDDS") == "GDDS" && TrimRight("") == "";
  }

  lemma TrimmedStands(s: string)
    requires TrimSpace(s) == s
    ensures TrimRight(s) == s
  {
    TrimSpaceTidies(s);
    TrimTidy(s);
  }

  /** An accepted request whose payload is not twelve lines: a line feed inside the name. */
  lemma LineFeedAccepted(k: Casing, lenient: bool)
    requires k.Lawful()
    ensures Iban.Bban(EXAMPLE_BBAN)
    ensures var c := Example("A\nB", "", "");
            && CleanAndValidate(k, lenient, Feedback(c)) == Ok(c)
            && Build(c).Ok? && |Split(Build(c).value, '\n')| != 12
  {
    TrimNothing("A\nB");
    ExampleAccepted(k, lenient, "A\nB", "", "");
    var c := Example("A\nB", "", "");
    AcceptedIsStable(k, lenient, Feedback(c));
    assert c.name[1] == '\n';
    assert !OneLiners(c);
    StableBuilds(k, c, lenient);
  }
}
