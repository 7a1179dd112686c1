/**
 The regular expressions of the validators (validate/amount.go, validate/validate.go), with the
 meaning of regular expressions, and the predicates that stand for them elsewhere.
 */
module Patterns {
  import opened Text
  import opened Amount
  import opened AmountTheorems
  import opened Validate
  import Iban

  /** Anchored patterns: one character of a set, one after the other, and repetition. */
  datatype Pattern =
    | One(chars: seq<(char, char)>)
    | Then(first: Pattern, next: Pattern)
    | Times(item: Pattern, least: nat, most: nat)
    | Many(item: Pattern)

  predicate InRanges(c: char, ranges: seq<(char, char)>) {
    exists i :: 0 <= i < |ranges| && ranges[i].0 <= c <= ranges[i].1
  }

  /** The whole text matches. */
  ghost predicate Matches(p: Pattern, s: string)
    decreases p, |s|, 0
  {
    match p
    case One(ranges) => |s| == 1 && InRanges(s[0], ranges)
    case Then(a, b) => exists i :: 0 <= i <= |s| && Matches(a, s[..i]) && Matches(b, s[i..])
    case Times(a, least, most) => Repeated(a, least, most, s)
    case Many(a) => s == "" || exists i :: 0 < i <= |s| && Matches(a, s[..i]) && Matches(p, s[i..])
  }

  /** Between `least` and `most` matches of `a`, one after the other. */
  ghost predicate Repeated(a: Pattern, least: nat, most: nat, s: string)
    decreases a, |s|, most + 1
  {
    || (least == 0 && s == "")
    || (most > 0 && exists i :: 0 <= i <= |s| && Matches(a, s[..i]) && Repeated(a, if least == 0 then 0 else least - 1, most - 1, s[i..]))
  }

  // ---- The patterns ----------------------------------------------------------------------------

  const DIGIT := One([('0', '9')])

  const CAPITAL := One([('A', 'Z')])

  const CAPITAL_OR_DIGIT := One([('A', 'Z'), ('0', '9')])

  function Maybe(p: Pattern): Pattern {
    Times(p, 0, 1)
  }

  /** A separator and one or two digits. */
  function Decimals(seps: seq<(char, char)>): Pattern {
    Then(One(seps), Times(DIGIT, 1, 2))
  }

  /** `^\d{1,12}([seps]\d{1,2})?$` */
  function Decimal(seps: seq<(char, char)>): Pattern {
    Then(Times(DIGIT, 1, 12), Maybe(Decimals(seps)))
  }

  function Group(sep: char): Pattern {
    Then(One([(sep, sep)]), Times(DIGIT, 3, 3))
  }

  /** `^\d{1,3}(sep\d{3})*(,\d{1,2})?$` */
  function Grouped(sep: char): Pattern {
    Then(Times(DIGIT, 1, 3), Then(Many(Group(sep)), Maybe(Decimals([(',', ',')]))))
  }

  /** `^[A-Z]{4}[A-Z]{2}[A-Z0-9]{2}([A-Z0-9]{3})?$` */
  const BIC :=
    Then(Times(CAPITAL, 4, 4), Then(Times(CAPITAL, 2, 2), Then(Times(CAPITAL_OR_DIGIT, 2, 2), Maybe(Times(CAPITAL_OR_DIGIT, 3, 3)))))

  // ---- Simple patterns ---------------------------------------------------------------------------

  ghost predicate AllIn(s: string, ranges: seq<(char, char)>) {
    forall i :: 0 <= i < |s| ==> InRanges(s[i], ranges)
  }

  /** A repeated character set is a text of that set of a suitable length. */
  lemma {:induction false} RepeatedIff(ranges: seq<(char, char)>, least: nat, most: nat, s: string)
    requires least <= most
    ensures Repeated(One(ranges), least, most, s) <==> least <= |s| <= most && AllIn(s, ranges)
    decreases most
  {
    var rest := if least == 0 then 0 else least - 1;
    if most > 0 {
      forall i | 0 <= i <= |s|
        ensures Repeated(One(ranges), rest, most - 1, s[i..]) <==> rest <= |s[i..]| <= most - 1 && AllIn(s[i..], ranges)
      {
        RepeatedIff(ranges, rest, most - 1, s[i..]);
      }
      if s != "" {
        assert s[..1] == [s[0]];
        assert forall i :: 0 < i < |s| ==> s[i] == s[1..][i - 1];
        assert Matches(One(ranges), s[..1]) <==> InRanges(s[0], ranges);
      }
      assert forall i :: 0 <= i <= |s| && Matches(One(ranges), s[..i]) ==> i == 1;
    }
  }

  lemma TimesIff(ranges: seq<(char, char)>, least: nat, most: nat, s: string)
    requires least <= most
    ensures Matches(Times(One(ranges), least, most), s) <==> least <= |s| <= most && AllIn(s, ranges)
  {
    RepeatedIff(ranges, least, most, s);
  }

  lemma MaybeIff(p: Pattern, s: string)
    ensures Matches(Maybe(p), s) <==> s == "" || Matches(p, s)
  {
    assert s[..|s|] == s && s[|s|..] == "";
    assert Repeated(p, 0, 0, "");
    assert forall i :: 0 <= i <= |s| && Repeated(p, 0, 0, s[i..]) ==> i == |s|;
  }

  lemma DigitsIff(s: string)
    ensures AllIn(s, DIGIT.chars) <==> IsDigits(s)
  {
    assert forall c :: InRanges(c, DIGIT.chars) <==> '0' <= c <= '9' by {
      forall c ensures InRanges(c, DIGIT.chars) <==> '0' <= c <= '9' {
        assert DIGIT.chars[0] == ('0', '9');
      }
    }
  }

  lemma DecimalsIff(seps: seq<(char, char)>, s: string)
    ensures Matches(Decimals(seps), s) <==> 2 <= |s| <= 3 && InRanges(s[0], seps) && IsDigits(s[1..])
  {
    forall i | 0 <= i <= |s| ensures Matches(Times(DIGIT, 1, 2), s[i..]) <==> 1 <= |s[i..]| <= 2 && IsDigits(s[i..]) {
      TimesIff(DIGIT.chars, 1, 2, s[i..]);
      DigitsIff(s[i..]);
    }
    if s != "" { assert s[..1] == [s[0]]; }
    assert forall i :: 0 <= i <= |s| && Matches(One(seps), s[..i]) ==> i == 1;
  }

  // ---- Decimal numbers ------------------------------------------------------------------------------

  /** `MatchDecimal` stands for the pattern. */
  lemma DecimalIff(s: string, seps: set<char>, ranges: seq<(char, char)>)
    requires forall c :: c in seps <==> InRanges(c, ranges)
    requires forall c :: c in seps ==> !IsDigit(c)
    ensures MatchDecimal(s, seps) <==> Matches(Decimal(ranges), s)
  {
    hide Matches, InRanges, DigitRun, Repeated;
    ThenIff(Times(DIGIT, 1, 12), Maybe(Decimals(ranges)), s);
    forall i | 0 <= i <= |s|
      ensures Matches(Times(DIGIT, 1, 12), s[..i]) && Matches(Maybe(Decimals(ranges)), s[i..])
        <==> SplitsAt(s, seps, i)
    {
      DecimalAt(s, seps, ranges, i);
    }
    var k := DigitRun(s);
    assert SplitsAt(s, seps, k) <==> MatchDecimal(s, seps);
    forall i | 0 <= i <= |s| && SplitsAt(s, seps, i) ensures i == k {
      assert forall j :: 0 <= j < i ==> s[..i][j] == s[j];
      RunIs(s, i);
    }
  }

  /** The digits before the separator end at `i`. */
  predicate SplitsAt(s: string, seps: set<char>, i: nat) {
    && 1 <= i <= 12 && i <= |s| && IsDigits(s[..i])
    && (i == |s| || (2 <= |s| - i <= 3 && s[i] in seps && IsDigits(s[i + 1..])))
  }

  lemma DecimalAt(s: string, seps: set<char>, ranges: seq<(char, char)>, i: nat)
    requires i <= |s| && forall c :: c in seps <==> InRanges(c, ranges)
    ensures Matches(Times(DIGIT, 1, 12), s[..i]) && Matches(Maybe(Decimals(ranges)), s[i..]) <==> SplitsAt(s, seps, i)
  {
    hide Matches, InRanges;
    TimesIff(DIGIT.chars, 1, 12, s[..i]);
    DigitsIff(s[..i]);
    MaybeIff(Decimals(ranges), s[i..]);
    DecimalsIff(ranges, s[i..]);
    if i < |s| { assert s[i..][1..] == s[i + 1..]; }
  }

  lemma ThenIff(a: Pattern, b: Pattern, s: string)
    ensures Matches(Then(a, b), s) <==> exists i :: 0 <= i <= |s| && Matches(a, s[..i]) && Matches(b, s[i..])
  {}

  // ---- Grouped numbers ----------------------------------------------------------------------------------

  lemma GroupIff(sep: char, s: string)
    ensures Matches(Group(sep), s) <==> |s| == 4 && s[0] == sep && IsDigits(s[1..4])
  {
    forall i | 0 <= i <= |s| ensures Matches(Times(DIGIT, 3, 3), s[i..]) <==> |s[i..]| == 3 && IsDigits(s[i..]) {
      TimesIff(DIGIT.chars, 3, 3, s[i..]);
      DigitsIff(s[i..]);
    }
    SingleIff(sep);
    if s != "" { assert s[..1] == [s[0]]; }
    if |s| == 4 { assert s[1..4] == s[1..]; }
    assert forall i :: 0 <= i <= |s| && Matches(One([(sep, sep)]), s[..i]) ==> i == 1;
  }

  lemma SingleIff(sep: char)
    ensures forall c :: InRanges(c, [(sep, sep)]) <==> c == sep
  {
    forall c ensures InRanges(c, [(sep, sep)]) <==> c == sep {
      assert [(sep, sep)][0] == (sep, sep);
    }
  }

  function GroupsAndDecimals(sep: char): Pattern {
    Then(Many(Group(sep)), Maybe(Decimals([(',', ',')])))
  }

  lemma CommaDecimals(s: string)
    ensures Matches(Maybe(Decimals([(',', ',')])), s) <==> s == "" || (2 <= |s| <= 3 && s[0] == ',' && IsDigits(s[1..]))
  {
    MaybeIff(Decimals([(',', ',')]), s);
    DecimalsIff([(',', ',')], s);
    SingleIff(',');
  }

  lemma ManyIff(p: Pattern, s: string)
    ensures Matches(Many(p), s) <==> s == "" || exists i :: 0 < i <= |s| && Matches(p, s[..i]) && Matches(Many(p), s[i..])
  {}

  /** Groups from the front: one group and the rest, or none. */
  lemma {:induction false} GroupTailIff(sep: char, t: string)
    requires sep != ',' && !IsDigit(sep)
    ensures GroupTail(t, sep) <==> Matches(GroupsAndDecimals(sep), t)
    decreases |t|
  {
    hide Matches;
    var many, end := Many(Group(sep)), Maybe(Decimals([(',', ',')]));
    ThenIff(many, end, t);
    CommaDecimals(t);
    assert t[..0] == "" && t[0..] == t;
    ManyIff(Group(sep), "");
    if |t| >= 4 && t[0] == sep && IsDigits(t[1..4]) {
      var rest := t[4..];
      GroupTailIff(sep, rest);
      ThenIff(many, end, rest);
      GroupIff(sep, t[..4]);
      assert t[..4][1..4] == t[1..4];
      if i :| 0 <= i <= |rest| && Matches(many, rest[..i]) && Matches(end, rest[i..]) {
        assert t[..i + 4][4..] == rest[..i] && t[i + 4..] == rest[i..];
        ManyMore(sep, t, i + 4);
      }
    }
    if i :| 0 <= i <= |t| && Matches(many, t[..i]) && Matches(end, t[i..]) {
      if i > 0 {
        ManyFirst(sep, t, i);
        assert t[4..][..i - 4] == t[..i][4..] && t[4..][i - 4..] == t[i..];
      }
    }
  }

  lemma ManyMore(sep: char, t: string, i: nat)
    requires 4 <= i <= |t| && Matches(Group(sep), t[..4]) && Matches(Many(Group(sep)), t[..i][4..])
    ensures Matches(Many(Group(sep)), t[..i])
  {
    assert t[..i][..4] == t[..4];
    ManyIff(Group(sep), t[..i]);
  }

  lemma ManyFirst(sep: char, t: string, i: nat)
    requires 0 < i <= |t| && Matches(Many(Group(sep)), t[..i])
    ensures 4 <= i && t[0] == sep && IsDigits(t[1..4]) && Matches(Many(Group(sep)), t[..i][4..])
  {
    hide Matches;
    ManyIff(Group(sep), t[..i]);
    var j :| 0 < j <= i && Matches(Group(sep), t[..i][..j]) && Matches(Many(Group(sep)), t[..i][j..]);
    GroupIff(sep, t[..i][..j]);
    assert t[..i][..j][1..4] == t[1..4];
  }

  /** `MatchGrouped` stands for the pattern. */
  lemma GroupedIff(s: string, sep: char)
    requires sep != ',' && !IsDigit(sep)
    ensures MatchGrouped(s, sep) <==> Matches(Grouped(sep), s)
  {
    hide Matches, GroupTail;
    forall i | 0 <= i <= |s|
      ensures Matches(Times(DIGIT, 1, 3), s[..i]) <==> 1 <= i <= 3 && IsDigits(s[..i])
      ensures Matches(GroupsAndDecimals(sep), s[i..]) <==> GroupTail(s[i..], sep)
    {
      TimesIff(DIGIT.chars, 1, 3, s[..i]);
      DigitsIff(s[..i]);
      GroupTailIff(sep, s[i..]);
    }
    ThenIff(Times(DIGIT, 1, 3), GroupsAndDecimals(sep), s);
    var k := DigitRun(s);
    assert IsDigits(s[..k]);
    forall i | 0 <= i <= |s| && IsDigits(s[..i]) && GroupTail(s[i..], sep) ensures i == k {
      TailStart(s[i..], sep);
      assert forall j :: 0 <= j < i ==> s[..i][j] == s[j];
      RunIs(s, i);
    }
  }

  lemma TailStart(t: string, sep: char)
    requires GroupTail(t, sep) && !IsDigit(sep)
    ensures t != "" ==> !IsDigit(t[0])
  {}

  // ---- BIC -----------------------------------------------------------------------------------------------

  lemma CapitalsIff(s: string)
    ensures AllIn(s, CAPITAL.chars) <==> forall i :: 0 <= i < |s| ==> Iban.IsLetter(s[i])
  {
    forall c ensures InRanges(c, CAPITAL.chars) <==> Iban.IsLetter(c) { assert CAPITAL.chars[0] == ('A', 'Z'); }
  }

  lemma CapitalsOrDigitsIff(s: string)
    ensures AllIn(s, CAPITAL_OR_DIGIT.chars) <==> forall i :: 0 <= i < |s| ==> Iban.IsLetter(s[i]) || IsDigit(s[i])
  {
    forall c ensures InRanges(c, CAPITAL_OR_DIGIT.chars) <==> Iban.IsLetter(c) || IsDigit(c) {
      assert CAPITAL_OR_DIGIT.chars[0] == ('A', 'Z') && CAPITAL_OR_DIGIT.chars[1] == ('0', '9');
    }
  }

  /** A fixed number of characters of a set, and then something else. */
  lemma FixedThen(ranges: seq<(char, char)>, n: nat, p: Pattern, s: string)
    ensures Matches(Then(Times(One(ranges), n, n), p), s) <==> |s| >= n && AllIn(s[..n], ranges) && Matches(p, s[n..])
  {
    ThenIff(Times(One(ranges), n, n), p, s);
    forall i | 0 <= i <= |s| ensures Matches(Times(One(ranges), n, n), s[..i]) <==> i == n && AllIn(s[..i], ranges) {
      TimesIff(ranges, n, n, s[..i]);
    }
    hide Matches;
  }

  /** `MatchBic` stands for the pattern. */
  lemma BicIff(s: string)
    ensures MatchBic(s) <==> Matches(BIC, s)
  {
    hide Matches, AllIn;
    var end := Maybe(Times(CAPITAL_OR_DIGIT, 3, 3));
    FixedThen(CAPITAL.chars, 4, Then(Times(CAPITAL, 2, 2), Then(Times(CAPITAL_OR_DIGIT, 2, 2), end)), s);
    if |s| >= 4 {
      var t := s[4..];
      CapitalsIff(s[..4]);
      FixedThen(CAPITAL.chars, 2, Then(Times(CAPITAL_OR_DIGIT, 2, 2), end), t);
      if |t| >= 2 {
        var u := t[2..];
        CapitalsIff(t[..2]);
        FixedThen(CAPITAL_OR_DIGIT.chars, 2, end, u);
        if |u| >= 2 {
          var v := u[2..];
          CapitalsOrDigitsIff(u[..2]);
          MaybeIff(Times(CAPITAL_OR_DIGIT, 3, 3), v);
          TimesIff(CAPITAL_OR_DIGIT.chars, 3, 3, v);
          CapitalsOrDigitsIff(v);
          BicInParts(s);
        }
      }
    }
  }

  lemma BicInParts(s: string)
    requires |s| >= 8
    ensures MatchBic(s) <==>
      && (forall i :: 0 <= i < 4 ==> Iban.IsLetter(s[..4][i]))
      && (forall i :: 0 <= i < 2 ==> Iban.IsLetter(s[4..][..2][i]))
      && (forall i :: 0 <= i < 2 ==> Iban.IsLetter(s[4..][2..][..2][i]) || IsDigit(s[4..][2..][..2][i]))
      && (|s| == 8 || |s| == 11)
      && (forall i :: 0 <= i < |s| - 8 ==> Iban.IsLetter(s[4..][2..][2..][i]) || IsDigit(s[4..][2..][2..][i]))
  {
    hide Iban.IsLetter, IsDigit;
    var t, u, v := s[..4], s[4..][..2], s[4..][2..][..2];
    var w := s[4..][2..][2..];
    assert t[0] == s[0] && t[1] == s[1] && t[2] == s[2] && t[3] == s[3];
    assert u[0] == s[4] && u[1] == s[5] && v[0] == s[6] && v[1] == s[7];
    assert forall i :: 8 <= i < |s| ==> s[i] == w[i - 8];
    assert forall i :: 0 <= i < |w| ==> w[i] == s[i + 8];
  }
}
