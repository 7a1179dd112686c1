/**
 The twelve-line EPC069-12 payload (qr/epc.go).
 */
module Epc {
  import opened Wrappers
  import opened Text
  import opened Validate

  datatype BuildError = MissingFields | RemittanceExclusive

  function Join(lines: seq<string>, sep: string): string {
    if lines == [] then ""
    else if |lines| == 1 then lines[0]
    else lines[0] + sep + Join(lines[1..], sep)
  }

  /** strings.Split at one character. */
  function Split(s: string, sep: char): (lines: seq<string>)
    ensures lines != []
    decreases |s|
  {
    var i := IndexOf(s, sep);
    if i == |s| then [s] else [s[..i]] + Split(s[i + 1..], sep)
  }

  /** "%d.%02d", or with a comma. */
  function PrintedAmount(whole: nat, cents: nat, s: char): string
    requires cents < 100
  {
    Printed(whole) + [s] + TwoDigits(cents)
  }

  function AmountLine(cents: nat): string {
    "EUR" + PrintedAmount(cents / 100, cents % 100, '.')
  }

  function Lines(name: string, iban: string, bic: string, amountCents: nat, purpose: string,
                 remittanceRef: string, remittanceText: string, info: string): (l: seq<string>)
    ensures |l| == 12
  {
    ["BCD", "001", "1", "SCT", bic, name, iban, AmountLine(amountCents), purpose, remittanceRef, remittanceText, info]
  }

  function BuildEPCPayload(name: string, iban: string, bic: string, amountCents: int, purpose: string,
                           remittanceRef: string, remittanceText: string, info: string): Result<string, BuildError> {
    if name == "" || iban == "" || bic == "" || amountCents <= 0 then Err(MissingFields)
    else if remittanceRef != "" && remittanceText != "" then Err(BuildError.RemittanceExclusive)
    else Ok(Join(Lines(name, iban, bic, amountCents, purpose, remittanceRef, remittanceText, info), "\n"))
  }

  /** The payload of a cleaned request. */
  function Build(c: Clean): Result<string, BuildError> {
    BuildEPCPayload(c.name, c.iban, c.bic, c.amountCents, c.purpose,
                    c.remittanceReference, c.remittanceText, c.information)
  }

  // ---- Joining and splitting ------------------------------------------------------------

  lemma {:induction false} JoinConcat(a: seq<string>, b: seq<string>, sep: string)
    requires a != [] && b != []
    ensures Join(a + b, sep) == Join(a, sep) + sep + Join(b, sep)
  {
    if |a| == 1 {
      assert (a + b)[1..] == b;
    } else {
      JoinConcat(a[1..], b, sep);
      assert (a + b)[1..] == a[1..] + b;
      assert a[0] + sep + (Join(a[1..], sep) + sep + Join(b, sep)) == (a[0] + sep + Join(a[1..], sep)) + sep + Join(b, sep);
    }
  }

  lemma SplitHead(line: string, rest: string, sep: char)
    requires Lacks(line, sep)
    ensures Split(line + [sep] + rest, sep) == [line] + Split(rest, sep)
  {
    var s := line + [sep] + rest;
    assert s[|line|] == sep && s[..|line|] == line && s[|line| + 1..] == rest;
    IndexOfIs(s, sep, |line|);
  }

  /** Splitting a join gives the lines back when none contains the separator. */
  lemma {:induction false} SplitJoin(lines: seq<string>, sep: char)
    requires lines != [] && forall i :: 0 <= i < |lines| ==> Lacks(lines[i], sep)
    ensures Split(Join(lines, [sep]), sep) == lines
  {
    if |lines| == 1 {
      IndexOfIs(lines[0], sep, |lines[0]|);
    } else {
      hide Split;
      SplitJoin(lines[1..], sep);
      SplitHead(lines[0], Join(lines[1..], [sep]), sep);
      assert lines == [lines[0]] + lines[1..];
    }
  }

  /** A text has one line more than separators. */
  lemma {:induction false} SplitCount(s: string, sep: char)
    ensures |Split(s, sep)| == CountChar(s, sep) + 1
    decreases |s|
  {
    var i := IndexOf(s, sep);
    CountZero(s[..i], sep);
    if i < |s| {
      SplitCount(s[i + 1..], sep);
      assert s == s[..i] + [sep] + s[i + 1..];
      CountAppend(s[..i] + [sep], s[i + 1..], sep);
      CountAppend(s[..i], [sep], sep);
      assert [sep][..0] == [];
    } else {
      assert s[..i] == s;
    }
  }

  function TotalCount(lines: seq<string>, c: char): nat {
    if lines == [] then 0 else CountChar(lines[0], c) + TotalCount(lines[1..], c)
  }

  lemma {:induction false} JoinCount(lines: seq<string>, sep: char)
    requires lines != []
    ensures CountChar(Join(lines, [sep]), sep) == TotalCount(lines, sep) + |lines| - 1
  {
    if |lines| > 1 {
      JoinCount(lines[1..], sep);
      CountAppend(lines[0] + [sep], Join(lines[1..], [sep]), sep);
      CountAppend(lines[0], [sep], sep);
      assert [sep][..0] == [];
    }
  }

  lemma {:induction false} TotalZero(lines: seq<string>, c: char)
    ensures TotalCount(lines, c) == 0 <==> forall i :: 0 <= i < |lines| ==> Lacks(lines[i], c)
  {
    if lines != [] {
      TotalZero(lines[1..], c);
      CountZero(lines[0], c);
      assert forall i :: 0 < i < |lines| ==> lines[i] == lines[1..][i - 1];
    }
  }

  /** A join splits into as many lines as were joined exactly when no line contains the separator. */
  lemma SplitsBackIff(lines: seq<string>, sep: char)
    requires lines != []
    ensures |Split(Join(lines, [sep]), sep)| == |lines| <==> forall i :: 0 <= i < |lines| ==> Lacks(lines[i], sep)
    ensures (forall i :: 0 <= i < |lines| ==> Lacks(lines[i], sep)) ==> Split(Join(lines, [sep]), sep) == lines
  {
    SplitCount(Join(lines, [sep]), sep);
    JoinCount(lines, sep);
    TotalZero(lines, sep);
    if forall i :: 0 <= i < |lines| ==> Lacks(lines[i], sep) { SplitJoin(lines, sep); }
  }

  function TotalLength(lines: seq<string>): nat {
    if lines == [] then 0 else |lines[0]| + TotalLength(lines[1..])
  }

  lemma {:induction false} JoinLength(lines: seq<string>, sep: string)
    requires lines != []
    ensures |Join(lines, sep)| == TotalLength(lines) + (|lines| - 1) * |sep|
  {
    if |lines| > 1 { JoinLength(lines[1..], sep); }
  }
}
