/**
 Which requests are cleaned to what, and which are refused for what, in terms of the fields as
 they were sent (validate/validate.go).
 */
module CleanInputs {
  import opened Wrappers
  import opened Text
  import opened Validate
  import opened CleanTheorems
  import Amount
  import AmountAgreement
  import Iban

  // ---- Fields as they are sent -----------------------------------------------------------------

  predicate AllBlank(s: string) {
    forall i :: 0 <= i < |s| ==> IsSpace(s[i])
  }

  /** `raw` is `core` with blanks around, and `core` starts and ends with something else. */
  ghost predicate Around(raw: string, core: string) {
    && (core != "" ==> !IsSpace(core[0]) && !IsSpace(core[|core| - 1]))
    && exists i, j ::
         && 0 <= i <= j <= |raw| && raw[i..j] == core
         && (forall p :: 0 <= p < i ==> IsSpace(raw[p])) && (forall p :: j <= p < |raw| ==> IsSpace(raw[p]))
  }

  /** `raw` spells `code` in any letter case, with any number of spaces between the characters. */
  predicate Spells(k: Casing, raw: string, code: string) {
    if raw == "" then code == ""
    else if raw[0] == ' ' then Spells(k, raw[1..], code)
    else code != "" && k.upper(raw[0]) == code[0] && Spells(k, raw[1..], code[1..])
  }

  /** `raw` is `code` in any letter case. */
  predicate UpperIs(k: Casing, raw: string, code: string) {
    |raw| == |code| && forall i :: 0 <= i < |raw| ==> k.upper(raw[i]) == code[i]
  }

  predicate LowerIs(k: Casing, raw: string, word: string) {
    |raw| == |word| && forall i :: 0 <= i < |raw| ==> k.lower(raw[i]) == word[i]
  }

  /** `out` is what at most `max` characters leave of `core`. */
  predicate Cut(core: string, out: string, max: nat) {
    out <= core && |out| <= max && (|out| == max || out == core)
  }

  lemma AroundIff(raw: string, core: string)
    ensures Around(raw, core) <==> TrimSpace(raw) == core
  {
    var a, b := AmountAgreement.TrimSpan(raw);
    var t := raw[a..b];
    TrimSpaceTidies(raw);
    TrimRightTidies(TrimLeft(raw));
    hide TrimSpace, TrimRight, TrimLeft;
    if Around(raw, core) {
      var i, j :| 0 <= i <= j <= |raw| && raw[i..j] == core
        && (forall p :: 0 <= p < i ==> IsSpace(raw[p])) && (forall p :: j <= p < |raw| ==> IsSpace(raw[p]));
      if t != "" {
        assert t[0] == raw[a] && t[|t| - 1] == raw[b - 1];
        assert i <= a && b <= j;
      }
      if core != "" {
        assert core[0] == raw[i] && core[|core| - 1] == raw[j - 1];
        assert a <= i && j <= b;
      }
    }
  }

  lemma {:induction false} SpellsIff(k: Casing, raw: string, code: string)
    ensures Spells(k, raw, code) <==> k.Upper(RemoveAll(raw, " ")) == code
    decreases |raw|
  {
    if raw != "" {
      var rest := RemoveAll(raw[1..], " ");
      assert raw[..1] == [raw[0]];
      if raw[0] == ' ' {
        SpellsIff(k, raw[1..], code);
      } else {
        assert k.Upper([raw[0]] + rest) == [k.upper(raw[0])] + k.Upper(rest);
        if code != "" {
          SpellsIff(k, raw[1..], code[1..]);
          assert code == [code[0]] + code[1..];
        }
      }
    }
  }

  lemma UpperIff(k: Casing, raw: string, code: string)
    ensures UpperIs(k, raw, code) <==> k.Upper(raw) == code
  {}

  lemma LowerIff(k: Casing, raw: string, word: string)
    ensures LowerIs(k, raw, word) <==> k.Lower(raw) == word
  {}

  lemma CutIff(core: string, out: string, max: nat)
    ensures Cut(core, out, max) <==> TruncateRunes(core, max) == out
  {
    if Cut(core, out, max) { assert out == core[..|out|]; }
  }

  // ---- Fields that fit ---------------------------------------------------------------------------

  /** No scheme, or the only one in any letter case. */
  ghost predicate SchemeFits(k: Casing, raw: string) {
    AllBlank(raw) || exists core :: Around(raw, core) && LowerIs(k, core, "epc_sct")
  }

  ghost predicate IbanFits(k: Casing, raw: string, iban: string) {
    Iban.Valid(iban) && exists core :: Around(raw, core) && Spells(k, core, iban)
  }

  ghost predicate BicFits(k: Casing, raw: string, bic: string) {
    MatchBic(bic) && exists core :: Around(raw, core) && UpperIs(k, core, bic)
  }

  ghost predicate TextFits(raw: string, out: string, max: nat) {
    exists core :: Around(raw, core) && Cut(core, out, max)
  }

  /** GDDS when nothing was sent, otherwise the first four characters in capitals. */
  ghost predicate PurposeFits(k: Casing, raw: string, purpose: string) {
    if AllBlank(raw) then purpose == "GDDS"
    else exists core, cut :: Around(raw, core) && Cut(core, cut, 4) && UpperIs(k, cut, purpose)
  }

  ghost predicate AmountFits(k: Casing, lenient: bool, input: Input, cents: int) {
    Amount.ParseAmount(k, lenient, input.amount, input.amountFormat) == Ok(cents) && 1 <= cents <= 99_999_999_999
  }

  lemma SchemeFitsIff(k: Casing, raw: string)
    requires k.Lawful()
    ensures SchemeFits(k, raw) <==> k.Lower(TrimSpace(raw)) == "" || k.Lower(TrimSpace(raw)) == "epc_sct"
  {
    hide Around, TrimSpace, LowerIs;
    BlankIff(raw);
    AroundIff(raw, TrimSpace(raw));
    LowerIff(k, TrimSpace(raw), "epc_sct");
    forall core | Around(raw, core) ensures core == TrimSpace(raw) { AroundIff(raw, core); }
  }

  lemma TextFitsIff(raw: string, out: string, max: nat)
    ensures TextFits(raw, out, max) <==> TruncateRunes(TrimSpace(raw), max) == out
  {
    hide Around, TrimSpace, Cut, TruncateRunes;
    AroundIff(raw, TrimSpace(raw));
    CutIff(TrimSpace(raw), out, max);
    forall core | Around(raw, core) ensures core == TrimSpace(raw) { AroundIff(raw, core); }
  }

  lemma IbanFitsIff(k: Casing, raw: string, iban: string)
    ensures IbanFits(k, raw, iban) <==> Iban.Valid(iban) && k.Upper(RemoveAll(TrimSpace(raw), " ")) == iban
  {
    hide Around, TrimSpace, Spells, RemoveAll, Iban.Valid;
    AroundIff(raw, TrimSpace(raw));
    SpellsIff(k, TrimSpace(raw), iban);
    forall core | Around(raw, core) ensures core == TrimSpace(raw) { AroundIff(raw, core); }
  }

  lemma BicFitsIff(k: Casing, raw: string, bic: string)
    ensures BicFits(k, raw, bic) <==> MatchBic(bic) && k.Upper(TrimSpace(raw)) == bic
  {
    hide Around, TrimSpace, UpperIs, MatchBic;
    AroundIff(raw, TrimSpace(raw));
    UpperIff(k, TrimSpace(raw), bic);
    forall core | Around(raw, core) ensures core == TrimSpace(raw) { AroundIff(raw, core); }
  }

  lemma PurposeFitsIff(k: Casing, raw: string, purpose: string)
    requires k.Lawful()
    ensures var sent := TrimSpace(raw);
            PurposeFits(k, raw, purpose) <==> k.Upper(TruncateRunes(if sent == "" then "GDDS" else sent, 4)) == purpose
  {
    hide Around, TrimSpace, UpperIs, Cut, TruncateRunes;
    BlankIff(raw);
    var sent := TrimSpace(raw);
    if sent == "" {
      DefaultPurpose(k);
    } else {
      var cut := TruncateRunes(sent, 4);
      AroundIff(raw, sent);
      CutIff(sent, cut, 4);
      UpperIff(k, cut, purpose);
      forall core, c | Around(raw, core) && Cut(core, c, 4) ensures core == sent && c == cut {
        AroundIff(raw, core);
        CutIff(core, c, 4);
      }
    }
  }

  lemma DefaultPurpose(k: Casing)
    requires k.Lawful()
    ensures k.Upper(TruncateRunes("GDDS", 4)) == "GDDS"
  {
    assert TruncateRunes("GDDS", 4) == "GDDS";
  }

  // ---- What is cleaned to what ---------------------------------------------------------------------

  /** Every field of the result, from the field that was sent. */
  ghost predicate CleansTo(k: Casing, lenient: bool, input: Input, c: Clean) {
    && SchemeFits(k, input.scheme) && c.scheme == "epc_sct"
    && !AllBlank(input.name) && TextFits(input.name, c.name, 70)
    && IbanFits(k, input.iban, c.iban)
    && BicFits(k, input.bic, c.bic)
    && AmountFits(k, lenient, input, c.amountCents)
    && PurposeFits(k, input.purpose, c.purpose)
    && TextFits(input.remittanceReference, c.remittanceReference, 25)
    && TextFits(input.remittanceText, c.remittanceText, 140)
    && TextFits(input.information, c.information, 70)
    && (c.remittanceReference == "" || c.remittanceText == "")
  }

  lemma UpperOfNothing(k: Casing, s: string)
    ensures k.Upper(s) == "" <==> s == ""
    ensures k.Lower(s) == "" <==> s == ""
  {}

  /** The IBAN is not missing, as a text of spaces has no characters left after trimming. */
  lemma IbanMissing(k: Casing, raw: string)
    ensures k.Upper(RemoveAll(TrimSpace(raw), " ")) == "" <==> AllBlank(raw)
  {
    BlankIff(raw);
    TrimSpaceTidies(raw);
    var t := TrimSpace(raw);
    UpperOfNothing(k, RemoveAll(t, " "));
    hide TrimSpace;
    if t != "" { assert t[..1] == [t[0]]; }
  }

  /** An accepted request is cleaned to `c` exactly when every field of `c` follows from what was sent. */
  lemma CleansToIff(k: Casing, lenient: bool, input: Input, c: Clean)
    requires k.Lawful()
    ensures CleanAndValidate(k, lenient, input) == Ok(c) <==> CleansTo(k, lenient, input, c)
  {
    hide TrimSpace, RemoveAll, Amount.ParseAmount, Iban.Valid, MatchBic, TruncateRunes,
         SchemeFits, TextFits, IbanFits, BicFits, PurposeFits, AllBlank;
    SchemeFitsIff(k, input.scheme);
    BlankIs(input.name);
    TextFitsIff(input.name, c.name, 70);
    IbanFitsIff(k, input.iban, c.iban);
    IbanMissing(k, input.iban);
    ValidIsLong(c.iban);
    BicFitsIff(k, input.bic, c.bic);
    BicIsLong(c.bic);
    PurposeFitsIff(k, input.purpose, c.purpose);
    TextFitsIff(input.remittanceReference, c.remittanceReference, 25);
    TextFitsIff(input.remittanceText, c.remittanceText, 140);
    TextFitsIff(input.information, c.information, 70);
  }

  lemma BlankIs(raw: string)
    ensures AllBlank(raw) <==> TrimSpace(raw) == ""
  {
    BlankIff(raw);
  }

  lemma ValidIsLong(iban: string)
    ensures Iban.Valid(iban) ==> iban != ""
  {}

  lemma BicIsLong(bic: string)
    ensures MatchBic(bic) ==> bic != ""
  {}

  // ---- What is refused for what ----------------------------------------------------------------------

  /**
   Fields are judged in the order scheme, name, IBAN, BIC, amount, remittance: a request is
   refused for the first of them that does not fit, whatever follows.
   */
  lemma RefusedIff(k: Casing, lenient: bool, input: Input)
    requires k.Lawful()
    ensures var r := CleanAndValidate(k, lenient, input);
            var amount := Amount.ParseAmount(k, lenient, input.amount, input.amountFormat);
            var scheme, name := SchemeFits(k, input.scheme), !AllBlank(input.name);
            var iban := exists code :: IbanFits(k, input.iban, code);
            var bic := exists code :: BicFits(k, input.bic, code);
            var upToBic := scheme && name && iban && bic;
            && (r == Err(UnsupportedScheme) <==> !scheme)
            && (r == Err(NameRequired) <==> scheme && !name)
            && (r == Err(IbanRequired) <==> scheme && name && AllBlank(input.iban))
            && (r == Err(InvalidIban) <==> scheme && name && !AllBlank(input.iban) && !iban)
            && (r == Err(BicRequired) <==> scheme && name && iban && AllBlank(input.bic))
            && (r == Err(InvalidBic) <==> scheme && name && iban && !AllBlank(input.bic) && !bic)
            && (forall e :: r == Err(BadAmount(e)) <==> upToBic && amount == Err(e))
            && (r == Err(AmountNotPositive) <==> upToBic && amount == Ok(0))
            && (r == Err(AmountTooLarge) <==> upToBic && amount.Ok? && amount.value > 99_999_999_999)
            && (r == Err(RemittanceExclusive) <==>
                  && upToBic && amount.Ok? && 1 <= amount.value <= 99_999_999_999
                  && !AllBlank(input.remittanceReference) && !AllBlank(input.remittanceText))
  {
    hide TrimSpace, RemoveAll, Amount.ParseAmount, Iban.Valid, MatchBic, TruncateRunes,
         SchemeFits, IbanFits, BicFits, AllBlank;
    SchemeFitsIff(k, input.scheme);
    BlankIs(input.name);
    BlankIs(input.remittanceReference);
    BlankIs(input.remittanceText);
    CutToNothing(TrimSpace(input.remittanceReference), 25);
    CutToNothing(TrimSpace(input.remittanceText), 140);
    IbanMissing(k, input.iban);
    BicMissing(k, input.bic);
    IbanExists(k, input.iban);
    BicExists(k, input.bic);
  }

  lemma CutToNothing(s: string, max: nat)
    requires max > 0
    ensures TruncateRunes(s, max) == "" <==> s == ""
  {}

  lemma BicMissing(k: Casing, raw: string)
    ensures k.Upper(TrimSpace(raw)) == "" <==> AllBlank(raw)
  {
    BlankIs(raw);
    UpperOfNothing(k, TrimSpace(raw));
  }

  lemma IbanExists(k: Casing, raw: string)
    ensures (exists code :: IbanFits(k, raw, code)) <==> Iban.Valid(k.Upper(RemoveAll(TrimSpace(raw), " ")))
    ensures AllBlank(raw) ==> !Iban.Valid(k.Upper(RemoveAll(TrimSpace(raw), " ")))
  {
    hide TrimSpace, RemoveAll, Iban.Valid, IbanFits, AllBlank;
    var code := k.Upper(RemoveAll(TrimSpace(raw), " "));
    IbanFitsIff(k, raw, code);
    IbanMissing(k, raw);
    ValidIsLong(code);
    forall other | IbanFits(k, raw, other) ensures other == code { IbanFitsIff(k, raw, other); }
  }

  lemma BicExists(k: Casing, raw: string)
    ensures (exists code :: BicFits(k, raw, code)) <==> MatchBic(k.Upper(TrimSpace(raw)))
    ensures AllBlank(raw) ==> !MatchBic(k.Upper(TrimSpace(raw)))
  {
    hide TrimSpace, MatchBic, BicFits, AllBlank;
    var code := k.Upper(TrimSpace(raw));
    BicFitsIff(k, raw, code);
    BicMissing(k, raw);
    BicIsLong(code);
    forall other | BicFits(k, raw, other) ensures other == code { BicFitsIff(k, raw, other); }
  }
}
