/**
 Cleaning and checking of the request fields (validate/validate.go).
 */
module Validate {
  import opened Wrappers
  import opened Text
  import Amount
  import Iban

  datatype Input = Input(
    scheme: string, name: string, iban: string, bic: string, amount: string, amountFormat: string,
    purpose: string, remittanceReference: string, remittanceText: string, information: string)

  datatype Clean = Clean(
    scheme: string, name: string, iban: string, bic: string, amountCents: nat,
    purpose: string, remittanceReference: string, remittanceText: string, information: string)

  datatype Rejection =
    | UnsupportedScheme
    | NameRequired
    | IbanRequired
    | InvalidIban
    | BicRequired
    | InvalidBic
    | BadAmount(error: Amount.AmountError)
    | AmountNotPositive
    | AmountTooLarge
    | RemittanceExclusive

  /** `^[A-Z]{4}[A-Z]{2}[A-Z0-9]{2}([A-Z0-9]{3})?$` */
  predicate MatchBic(s: string) {
    && (|s| == 8 || |s| == 11)
    && (forall i :: 0 <= i < 6 ==> Iban.IsLetter(s[i]))
    && (forall i :: 6 <= i < |s| ==> Iban.IsLetter(s[i]) || IsDigit(s[i]))
  }

  function TruncateRunes(s: string, max: nat): (r: string)
    ensures |r| <= max && r <= s
  {
    if |s| <= max then s else s[..max]
  }

  const MAX_CENTS: nat := 99_999_999_999

  function CleanAndValidate(k: Casing, lenient: bool, input: Input): Result<Clean, Rejection> {
    var scheme := k.Lower(TrimSpace(input.scheme));
    var name := TrimSpace(input.name);
    var purpose := TrimSpace(input.purpose);
    var ref := TrimSpace(input.remittanceReference);
    var text := TrimSpace(input.remittanceText);
    var info := TrimSpace(input.information);
    var iban := k.Upper(RemoveAll(TrimSpace(input.iban), " "));
    var bic := k.Upper(TrimSpace(input.bic));
    var scheme' := if scheme == "" then "epc_sct" else scheme;
    if scheme' != "epc_sct" then Err(UnsupportedScheme)
    else if name == "" then Err(NameRequired)
    else if iban == "" then Err(IbanRequired)
    else if !Iban.Valid(iban) then Err(InvalidIban)
    else if bic == "" then Err(BicRequired)
    else if !MatchBic(bic) then Err(InvalidBic)
    else
      match Amount.ParseAmount(k, lenient, input.amount, input.amountFormat)
      case Err(e) => Err(BadAmount(e))
      case Ok(cents) =>
        if cents <= 0 then Err(AmountNotPositive)
        else if cents > MAX_CENTS then Err(AmountTooLarge)
        else
          var ref' := TruncateRunes(ref, 25);
          var text' := TruncateRunes(text, 140);
          if ref' != "" && text' != "" then Err(RemittanceExclusive)
          else
            Ok(Clean(scheme', TruncateRunes(name, 70), iban, bic, cents,
                     k.Upper(TruncateRunes(if purpose == "" then "GDDS" else purpose, 4)),
                     ref', text', TruncateRunes(info, 70)))
  }
}
