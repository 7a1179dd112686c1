/**
 Which texts the strict reader accepts, in automatic mode and under each profile, and as how many
 cents: in terms of the words of the text and of the regular expressions.
 */
module StrictAmounts {
  import opened Wrappers
  import opened Text
  import opened Amount
  import opened AmountTheorems
  import opened AmountAgreement
  import opened Patterns
  import opened CleanInputs
  import opened Epc
  import AmountEuro
  import AmountPrinting
  import Currencies

  // ---- Words ---------------------------------------------------------------------------------------

  ghost predicate Word(w: string) {
    w != "" && forall i :: 0 <= i < |w| ==> !IsSpace(w[i])
  }

  ghost predicate Words(ws: seq<string>) {
    forall i :: 0 <= i < |ws| ==> Word(ws[i])
  }

  /** The first word stands at `i`, behind blanks, and a blank follows it unless it is the last. */
  ghost predicate FirstAt(s: string, ws: seq<string>, i: nat)
    requires ws != []
  {
    && i + |ws[0]| <= |s| && AllBlank(s[..i]) && s[i..i + |ws[0]|] == ws[0]
    && (|ws| > 1 ==> i + |ws[0]| < |s| && IsSpace(s[i + |ws[0]|]))
  }

  /** `s` is these words with blanks between them, and perhaps around them. */
  ghost predicate Spaced(s: string, ws: seq<string>)
    decreases |ws|
  {
    if ws == [] then AllBlank(s)
    else exists i: nat :: FirstAt(s, ws, i) && Spaced(s[i + |ws[0]|..], ws[1..])
  }

  lemma {:induction false} TrimLeftIs(s: string, i: nat)
    requires i <= |s| && AllBlank(s[..i]) && (i < |s| ==> !IsSpace(s[i]))
    ensures TrimLeft(s) == s[i..]
  {
    if i > 0 {
      assert s[..i][0] == s[0];
      assert s[1..][..i - 1] == s[..i][1..];
      TrimLeftIs(s[1..], i - 1);
    }
  }

  lemma CollapseFrom(s: string, i: nat, n: nat)
    requires i + n <= |s| && n > 0 && AllBlank(s[..i]) && Word(s[i..i + n]) && (i + n < |s| ==> IsSpace(s[i + n]))
    ensures var w, rest := s[i..i + n], Collapse(s[i + n..]);
            Collapse(s) == if rest == "" then w else w + " " + rest
  {
    var t := s[i..];
    assert forall j :: 0 <= j < n ==> t[j] == s[i..i + n][j];
    assert t[0] == s[i];
    TrimLeftIs(s, i);
    AmountPrinting.WordIs(t, n);
    assert t[..n] == s[i..i + n] && t[n..] == s[i + n..];
  }

  lemma BlankSuffix(s: string, i: nat)
    requires i <= |s|
    ensures AllBlank(s[i..]) ==> i < |s| ==> IsSpace(s[i])
  {
    if i < |s| { assert s[i..][0] == s[i]; }
  }

  lemma JoinFirst(ws: seq<string>)
    requires ws != []
    ensures Join(ws, " ") == if |ws| == 1 then ws[0] else ws[0] + " " + Join(ws[1..], " ")
  {}

  lemma FirstCollapsed(s: string, ws: seq<string>, i: nat)
    requires ws != [] && Word(ws[0]) && FirstAt(s, ws, i) && (|ws| == 1 ==> AllBlank(s[i + |ws[0]|..]))
    ensures var rest := Collapse(s[i + |ws[0]|..]);
            Collapse(s) == if rest == "" then ws[0] else ws[0] + " " + rest
  {
    hide Collapse;
    BlankSuffix(s, i + |ws[0]|);
    CollapseFrom(s, i, |ws[0]|);
  }

  /** Collapsing leaves the words, with one blank between any two. */
  lemma {:induction false} CollapsedWords(s: string, ws: seq<string>)
    requires Words(ws) && Spaced(s, ws)
    ensures Collapse(s) == Join(ws, " ") && (ws != [] ==> Join(ws, " ") != "")
    decreases |ws|
  {
    if ws == [] {
      assert s[..|s|] == s;
      TrimLeftIs(s, |s|);
    } else {
      hide Collapse, Join, AllBlank;
      var i: nat :| FirstAt(s, ws, i) && Spaced(s[i + |ws[0]|..], ws[1..]);
      FirstCollapsed(s, ws, i);
      CollapsedWords(s[i + |ws[0]|..], ws[1..]);
      JoinFirst(ws);
    }
  }

  lemma NoWords(ws: seq<string>)
    requires Words(ws) && Spaced("", ws)
    ensures ws == []
  {}

  lemma OneMore(s: string, i: nat, n: nat, more: seq<string>)
    requires i + n <= |s| && AllBlank(s[..i]) && Word(s[i..i + n]) && (i + n < |s| ==> IsSpace(s[i + n]))
    requires Words(more) && Spaced(s[i + n..], more)
    ensures Words([s[i..i + n]] + more) && Spaced(s, [s[i..i + n]] + more)
  {
    var w := s[i..i + n];
    var ws := [w] + more;
    if i + n == |s| {
      assert s[i + n..] == "";
      NoWords(more) by { hide *; }
    }
    assert Words(ws) by { hide Word; }
    assert ws[1..] == more && ws[0] == w && |w| == n;
    assert FirstAt(s, ws, i) by { hide AllBlank, IsSpace, Spaced; }
    hide *;
    SpacedStep(s, ws, i);
  }

  /** Every text is made of words. */
  lemma {:induction false} WordsExist(s: string) returns (ws: seq<string>)
    ensures Words(ws) && Spaced(s, ws)
    decreases |s|
  {
    hide TrimLeft, IsSpace, Spaced, Words, WordLength;
    var i := TrimLeftSpan(s);
    TrimLeftShrinks(s);
    if i == |s| {
      assert AllBlank(s);
      ws := [];
      Nothing(s);
    } else {
      var t := s[i..];
      WordNotEmpty(t);
      var n := WordLength(t);
      ws := WordsExist(s[i + n..]);
      FirstWord(s, i, n);
      OneMore(s, i, n, ws);
      ws := [s[i..i + n]] + ws;
    }
  }

  lemma Nothing(s: string)
    requires AllBlank(s)
    ensures Words([]) && Spaced(s, [])
  {}

  lemma FirstWord(s: string, i: nat, n: nat)
    requires i <= |s| && n == WordLength(s[i..]) > 0 && forall j :: 0 <= j < i ==> IsSpace(s[j])
    ensures i + n <= |s| && AllBlank(s[..i]) && Word(s[i..i + n]) && (i + n < |s| ==> IsSpace(s[i + n]))
  {
    var t := s[i..];
    assert forall j :: 0 <= j < n ==> s[i..i + n][j] == t[j];
    assert i + n < |s| ==> s[i + n] == t[n];
  }

  // ---- Blanks around ---------------------------------------------------------------------------------

  lemma SlicesBefore(s: string, y: string, i: nat, n: nat)
    requires i + n <= |s|
    ensures (s + y)[i + n..] == s[i + n..] + y && (s + y)[..i] == s[..i] && (s + y)[i..i + n] == s[i..i + n]
  {}

  lemma SlicesAfter(x: string, s: string, i: nat, n: nat)
    requires i + n <= |s|
    ensures var j := |x| + i;
            (x + s)[j + n..] == s[i + n..] && (x + s)[..j] == x + s[..i] && (x + s)[j..j + n] == s[i..i + n]
  {}

  lemma SpacedStep(s: string, ws: seq<string>, i: nat)
    requires ws != [] && FirstAt(s, ws, i) && Spaced(s[i + |ws[0]|..], ws[1..])
    ensures Spaced(s, ws)
  {}

  lemma BlanksTogether(x: string, y: string)
    requires AllBlank(x) && AllBlank(y)
    ensures AllBlank(x + y)
  {}

  lemma FirstBefore(s: string, y: string, ws: seq<string>, i: nat)
    requires ws != [] && FirstAt(s, ws, i)
    ensures i + |ws[0]| <= |s| && FirstAt(s + y, ws, i) && (s + y)[i + |ws[0]|..] == s[i + |ws[0]|..] + y
  {
    hide AllBlank, IsSpace;
    SlicesBefore(s, y, i, |ws[0]|);
  }

  lemma FirstAfter(x: string, s: string, ws: seq<string>, i: nat)
    requires ws != [] && FirstAt(s, ws, i) && AllBlank(x)
    ensures i + |ws[0]| <= |s| && FirstAt(x + s, ws, |x| + i) && (x + s)[|x| + i + |ws[0]|..] == s[i + |ws[0]|..]
  {
    hide AllBlank, IsSpace;
    SlicesAfter(x, s, i, |ws[0]|);
    BlanksTogether(x, s[..i]);
  }

  lemma {:induction false} SpacedBefore(s: string, y: string, ws: seq<string>)
    requires Spaced(s, ws) && AllBlank(y)
    ensures Spaced(s + y, ws)
    decreases |ws|
  {
    if ws == [] {
      BlanksTogether(s, y);
    } else {
      var i: nat :| FirstAt(s, ws, i) && Spaced(s[i + |ws[0]|..], ws[1..]);
      hide *;
      FirstBefore(s, y, ws, i);
      SpacedBefore(s[i + |ws[0]|..], y, ws[1..]);
      SpacedStep(s + y, ws, i);
    }
  }

  lemma SpacedAfter(x: string, s: string, ws: seq<string>)
    requires Spaced(s, ws) && AllBlank(x)
    ensures Spaced(x + s, ws)
  {
    if ws == [] {
      BlanksTogether(x, s);
    } else {
      var i: nat :| FirstAt(s, ws, i) && Spaced(s[i + |ws[0]|..], ws[1..]);
      hide *;
      FirstAfter(x, s, ws, i);
      SpacedStep(x + s, ws, |x| + i);
    }
  }

  lemma CollapseAround(x: string, s: string, y: string)
    requires AllBlank(x) && AllBlank(y)
    ensures Collapse(x + s + y) == Collapse(s)
  {
    hide *;
    var ws := WordsExist(s);
    SpacedAfter(x, s, ws);
    SpacedBefore(x + s, y, ws);
    CollapsedWords(s, ws);
    CollapsedWords(x + s + y, ws);
  }

  lemma {:induction false} JoinEnds(ws: seq<string>)
    requires Words(ws) && ws != []
    ensures var t := Join(ws, " "); t != "" && !IsSpace(t[0]) && !IsSpace(t[|t| - 1])
  {
    var t := Join(ws, " ");
    if |ws| > 1 {
      var u := Join(ws[1..], " ");
      JoinEnds(ws[1..]);
      assert t == ws[0] + " " + u;
      assert t[|t| - 1] == u[|u| - 1] && t[0] == ws[0][0];
    }
  }

  /** What is left has no blanks around it. */
  lemma CollapseTidies(s: string)
    ensures TrimSpace(Collapse(s)) == Collapse(s)
  {
    hide Collapse, Words, Spaced, Join, IsSpace;
    var ws := WordsExist(s);
    CollapsedWords(s, ws);
    if ws != [] {
      JoinEnds(ws);
      AmountPrinting.TrimNothing(Collapse(s));
    } else {
      CollapsedNothing();
    }
  }

  lemma CollapsedNothing()
    ensures Join([], " ") == "" && TrimSpace("") == "" && Collapse("") == ""
  {}

  // ---- Numbers as they are written -----------------------------------------------------------------------

  function Zeros(n: nat): (z: string)
    ensures |z| == n && IsDigits(z)
  {
    seq(n, _ => '0')
  }

  /** The digits before the decimal point and behind it, behind it filled up with zeros to two. */
  function CentsWritten(whole: string, frac: string): nat
    requires IsDigits(whole) && IsDigits(frac) && |frac| <= 2
  {
    ValueOf(whole + frac + Zeros(2 - |frac|))
  }

  /** The digits of `t` before the only character of `point` and behind it. */
  ghost predicate Parts(t: string, point: set<char>, whole: string, frac: string) {
    || ((forall i :: 0 <= i < |t| ==> t[i] !in point) && whole == Digits(t) && frac == "")
    || (exists p :: PartsAt(t, point, p, whole, frac))
  }

  ghost predicate PartsAt(t: string, point: set<char>, p: int, whole: string, frac: string) {
    && 0 <= p < |t| && t[p] in point && (forall i :: 0 <= i < |t| && i != p ==> t[i] !in point)
    && whole == Digits(t[..p]) && frac == Digits(t[p + 1..])
  }

  lemma CentsAgree(whole: string, frac: string)
    requires IsDigits(whole) && IsDigits(frac) && |frac| <= 2
    ensures CentsWritten(whole, frac) == AmountEuro.CentsIn(whole, frac)
  {
    hide ValueOf;
    var behind := frac + Zeros(2 - |frac|);
    assert whole + frac + Zeros(2 - |frac|) == whole + behind;
    AmountEuro.ValueAppend(whole, behind);
    assert PowerOfTen(2) == 100;
    BehindIs(frac);
  }

  lemma BehindIs(frac: string)
    requires IsDigits(frac) && |frac| <= 2
    ensures ValueOf(frac + Zeros(2 - |frac|)) == if frac == "" then 0 else FractionCents(frac)
  {
    hide ValueOf;
    var behind := frac + Zeros(2 - |frac|);
    AmountEuro.TwoDigitValue(behind);
    assert behind[0] == (if frac == "" then '0' else frac[0]) && behind[1] == if |frac| < 2 then '0' else frac[1];
  }

  // ---- What each format asks for ---------------------------------------------------------------------

  const DOT := [('.', '.')]

  const COMMA := [(',', ',')]

  const DOT_OR_COMMA := [('.', '.'), (',', ',')]

  ghost predicate Follows(format: string, t: string) {
    || ((format == "" || format == "auto") && Matches(Decimal(DOT_OR_COMMA), t))
    || (format == "eur_dot" && Matches(Decimal(DOT), t))
    || (format == "eur_comma" && Matches(Decimal(COMMA), t))
    || (format == "eur_grouped_space_comma" && (Matches(Grouped(' '), t) || Matches(Decimal(COMMA), t)))
    || (format == "eur_grouped_dot_comma" && (Matches(Grouped('.'), t) || Matches(Decimal(COMMA), t)))
  }

  function Point(format: string): set<char> {
    if format == "" || format == "auto" then {'.', ','} else if format == "eur_dot" then {'.'} else {','}
  }

  /** A text of these parts has so many cents. */
  ghost predicate Worth(t: string, point: set<char>, cents: int) {
    exists whole, frac ::
      && Parts(t, point, whole, frac)
      && IsDigits(whole) && 1 <= |whole| <= 12 && IsDigits(frac) && |frac| <= 2
      && cents == CentsWritten(whole, frac)
  }

  lemma RangesAre()
    ensures forall c :: InRanges(c, DOT) <==> c in {'.'}
    ensures forall c :: InRanges(c, COMMA) <==> c in {','}
    ensures forall c :: InRanges(c, DOT_OR_COMMA) <==> c in {'.', ','}
  {
    SingleIff('.');
    SingleIff(',');
    forall c ensures InRanges(c, DOT_OR_COMMA) <==> c in {'.', ','} {
      assert DOT_OR_COMMA[0] == ('.', '.') && DOT_OR_COMMA[1] == (',', ',');
    }
  }

  /** The same with the predicates that stand for the patterns. */
  lemma FollowsIff(format: string, t: string)
    ensures Follows(format, t) <==>
      || ((format == "" || format == "auto") && MatchDecimal(t, EITHER))
      || (format == "eur_dot" && MatchDecimal(t, {'.'}))
      || (format == "eur_comma" && MatchDecimal(t, {','}))
      || (format == "eur_grouped_space_comma" && (MatchGrouped(t, ' ') || MatchDecimal(t, {','})))
      || (format == "eur_grouped_dot_comma" && (MatchGrouped(t, '.') || MatchDecimal(t, {','})))
  {
    RangesAre();
    hide Matches, InRanges, MatchDecimal, MatchGrouped;
    DecimalIff(t, EITHER, DOT_OR_COMMA);
    DecimalIff(t, {'.'}, DOT);
    DecimalIff(t, {','}, COMMA);
    GroupedIff(t, ' ');
    GroupedIff(t, '.');
  }

  // ---- Decimal texts ------------------------------------------------------------------------------------

  lemma WorthOf(t: string, point: set<char>, whole: string, frac: string)
    requires Parts(t, point, whole, frac) && IsDigits(whole) && IsDigits(frac) && |frac| <= 2
    ensures forall cents :: Worth(t, point, cents) <==> 1 <= |whole| <= 12 && cents == CentsWritten(whole, frac)
  {
    forall w, f | Parts(t, point, w, f) ensures w == whole && f == frac { PartsUnique(t, point, w, f, whole, frac); }
  }

  lemma PartsUnique(t: string, point: set<char>, w: string, f: string, whole: string, frac: string)
    requires Parts(t, point, w, f) && Parts(t, point, whole, frac)
    ensures w == whole && f == frac
  {}

  lemma DecimalWorth(t: string, point: set<char>, cents: int)
    requires MatchDecimal(t, point) && point <= EITHER
    ensures MatchDecimal(t, EITHER) && (Worth(t, point, cents) <==> cents == CentsOf(t))
  {
    hide ValueOf, Digits, Worth;
    var k := DigitRun(t);
    OneSeparator(t);
    var whole, frac := t[..k], if k < |t| then t[k + 1..] else "";
    DigitsAreDigits(whole);
    DigitsAreDigits(frac);
    CentsAgree(whole, frac);
    if k == |t| {
      assert t[..k] == t;
    } else {
      assert PartsAt(t, point, k, whole, frac);
    }
    WorthOf(t, point, whole, frac);
  }

  // ---- Grouped texts --------------------------------------------------------------------------------------

  /** Split of a grouped number at its comma, or at its end. */
  lemma GroupedSplit(t: string, sep: char) returns (p: nat)
    requires MatchGrouped(t, sep) && (sep == ' ' || sep == '.')
    ensures 1 <= p <= |t| && IsDigit(t[0]) && forall i :: 0 <= i < p ==> IsDigit(t[i]) || t[i] == sep
    ensures p < |t| ==> t[p] == ',' && 2 <= |t| - p <= 3 && IsDigits(t[p + 1..])
  {
    var k := DigitRun(t);
    var u := t[k..];
    var c := GroupShape(u, sep);
    p := k + c;
    assert forall i :: k <= i < |t| ==> t[i] == u[i - k];
  }

  lemma WholeWorth(t: string, sep: char, cents: int)
    requires t != "" && IsDigit(t[0]) && (sep == ' ' || sep == '.') && forall i :: 0 <= i < |t| ==> IsDigit(t[i]) || t[i] == sep
    ensures var out := RemoveAll(t, [sep]);
            Worth(t, {','}, cents) <==> MatchDecimal(out, EITHER) && cents == CentsOf(out)
  {
    var whole := Digits(t);
    DigitsAreDigits(t);
    RemoveSeps(t, sep);
    AmountEuro.AmountOfDigits(whole);
    CentsAgree(whole, "");
    assert Parts(t, {','}, whole, "");
    WorthOf(t, {','}, whole, "") by { hide *; }
    hide *;
  }

  lemma CommaWorth(head: string, sep: char, frac: string, cents: int)
    requires head != "" && (sep == ' ' || sep == '.') && forall i :: 0 <= i < |head| ==> IsDigit(head[i]) || head[i] == sep
    requires IsDigits(frac) && 1 <= |frac| <= 2
    ensures var t := head + "," + frac;
            var out := RemoveAll(t, [sep]);
            Worth(t, {','}, cents) <==> MatchDecimal(out, EITHER) && cents == CentsOf(out)
  {
    var t, whole := head + "," + frac, Digits(head);
    GroupedStripped(head, sep, frac);
    CommaParts(head, frac);
    hide *;
    CentsAgree(whole, frac);
    CommaNumber(whole, frac);
    WorthOf(t, {','}, whole, frac);
    CentsInIs(whole, frac);
  }

  lemma CentsInIs(whole: string, frac: string)
    requires IsDigits(whole) && IsDigits(frac) && 1 <= |frac| <= 2
    ensures AmountEuro.CentsIn(whole, frac) == ValueOf(whole) * 100 + FractionCents(frac)
  {
    hide ValueOf, FractionCents;
  }

  lemma CommaParts(head: string, frac: string)
    requires forall i :: 0 <= i < |head| ==> head[i] != ','
    requires IsDigits(frac)
    ensures Parts(head + "," + frac, {','}, Digits(head), frac)
  {
    var t := head + "," + frac;
    assert t[..|head|] == head && t[|head| + 1..] == frac;
    DigitsAreDigits(frac);
    hide Digits;
    assert forall i :: |head| < i < |t| ==> t[i] == frac[i - |head| - 1];
    assert PartsAt(t, {','}, |head|, Digits(head), frac);
  }

  lemma GroupedWorth(t: string, sep: char, cents: int)
    requires MatchGrouped(t, sep) && (sep == ' ' || sep == '.')
    ensures var out := RemoveAll(t, [sep]);
            Worth(t, {','}, cents) <==> MatchDecimal(out, EITHER) && cents == CentsOf(out)
  {
    var p := GroupedSplit(t, sep);
    hide *;
    if p == |t| {
      WholeWorth(t, sep, cents);
    } else {
      var head, frac := t[..p], t[p + 1..];
      assert t == head + "," + frac;
      CommaWorth(head, sep, frac, cents);
    }
  }

  lemma CommaNumber(whole: string, frac: string)
    requires IsDigits(whole) && IsDigits(frac) && 1 <= |frac| <= 2
    ensures var n := whole + ("," + frac);
            && (MatchDecimal(n, EITHER) <==> 1 <= |whole| <= 12)
            && (MatchDecimal(n, EITHER) ==> CentsOf(n) == ValueOf(whole) * 100 + FractionCents(frac))
  {
    hide ValueOf, FractionCents, DigitRun;
    var n := whole + "," + frac;
    assert whole + ("," + frac) == n && n[|whole|] == ',';
    NumberParts(whole, ',', frac);
    if 1 <= |whole| <= 12 { CentsOfParts(whole, ',', frac) by { hide *; } }
  }

  lemma PlainGroup(t: string, sep: char)
    requires MatchGrouped(t, sep) && sep !in t
    ensures MatchDecimal(t, {','})
  {
    var k := DigitRun(t);
    var u := t[k..];
    if u != "" {
      assert u[0] == t[k] && t[k] in t;
      assert t[k + 1..] == u[1..];
    }
  }

  lemma CommaChars(t: string)
    requires MatchDecimal(t, {','})
    ensures ' ' !in t && '.' !in t
  {
    var k := DigitRun(t);
    forall i | 0 <= i < |t| ensures t[i] != ' ' && t[i] != '.' {
      if i > k { assert IsDigit(t[k + 1..][i - k - 1]); }
    }
  }

  lemma GroupedChars(t: string, sep: char, c: char)
    requires MatchGrouped(t, sep) && (sep == ' ' || sep == '.') && c != sep && c != ',' && !IsDigit(c)
    ensures c !in t
  {
    var p := GroupedSplit(t, sep);
    hide MatchGrouped;
    if p < |t| { assert forall i :: p < i < |t| ==> t[i] == t[p + 1..][i - p - 1]; }
  }

  /** A grouped text or a comma text: what a profile with groups tests, in fewer words. */
  lemma GroupsOrNot(t: string, sep: char)
    requires sep == ' ' || sep == '.'
    ensures (if sep in t then MatchGrouped(t, sep) else MatchDecimal(t, {','})) <==> MatchGrouped(t, sep) || MatchDecimal(t, {','})
    ensures sep == ' ' && (MatchGrouped(t, sep) || MatchDecimal(t, {','})) ==> '.' !in t
  {
    hide MatchGrouped, MatchDecimal;
    if MatchGrouped(t, sep) {
      if sep !in t { PlainGroup(t, sep); }
      if sep == ' ' { GroupedChars(t, sep, '.'); }
    }
    if MatchDecimal(t, {','}) { CommaChars(t); }
  }

  lemma GroupsWorth(t: string, sep: char, cents: int)
    requires (sep == ' ' || sep == '.') && (MatchGrouped(t, sep) || MatchDecimal(t, {','}))
    ensures var out := RemoveAll(t, [sep]);
            Worth(t, {','}, cents) <==> MatchDecimal(out, EITHER) && cents == CentsOf(out)
  {
    hide MatchGrouped, MatchDecimal, Worth, CentsOf;
    if MatchGrouped(t, sep) {
      GroupedWorth(t, sep, cents);
    } else {
      CommaChars(t);
      assert forall i :: 0 <= i < |t| ==> t[i] in t;
      RemoveNoSeps(t, sep);
      DecimalWorth(t, {','}, cents);
    }
  }

  // ---- The strict reader -------------------------------------------------------------------------------

  /** No marker, EUR or EURO in any letter case, or the euro sign. */
  ghost predicate EuroMarker(k: Casing, m: string) {
    Marker(k, m) || AmountEuro.EuroWord(k, m)
  }

  lemma EuroMarkerChars(k: Casing, m: string)
    requires k.Lawful() && EuroMarker(k, m)
    ensures forall i :: 0 <= i < |m| ==> !IsNumeric(m[i]) && !IsSpace(m[i])
  {
    if Marker(k, m) { MarkerChars(k, m); } else { AmountEuro.WordChars(k, m); }
  }

  lemma StrictText(k: Casing, a: string, m: string, b: string)
    requires k.Lawful() && Plain(a) && Plain(b) && EuroMarker(k, m)
    ensures NormalizeInput(k, a + m + b) ==
      if Collapse(a + b) == "" then Err(InvalidAmount)
      else Ok(Normalized(Collapse(a + b), if m == "" then "" else "EUR"))
  {
    hide NormalizeInput, Collapse;
    if Marker(k, m) { StrictMarked(k, a, m, b); } else { AmountEuro.StrictEuro(k, a, m, b); }
  }

  lemma TrimAll(s: string)
    requires Plain(s)
    ensures Plain(TrimSpace(s)) && Collapse(TrimSpace(s)) == Collapse(s)
  {
    var i, j := TrimSpan(s);
    hide TrimSpace, Collapse;
    assert s == s[..i] + s[i..j] + s[j..];
    CollapseAround(s[..i], s[i..j], s[j..]);
  }

  /** Trimming does not reach the marker. */
  lemma TrimToMarker(a: string, m: string, b: string) returns (i: nat, q: nat)
    requires m != "" && !IsSpace(m[0]) && !IsSpace(m[|m| - 1])
    ensures i <= |a| && q <= |b| && AllBlank(a[..i]) && AllBlank(b[q..]) && TrimSpace(a + m + b) == a[i..] + m + b[..q]
  {
    var v := a + m + b;
    var n, j := TrimSpan(v);
    hide TrimSpace, IsSpace;
    assert v[|a|] == m[0] && v[|a| + |m| - 1] == m[|m| - 1];
    i, q := n, j - |a| - |m|;
    SliceOfThree(a, m, b, n, j);
    assert forall x :: 0 <= x < i ==> a[x] == v[x];
    assert forall x :: q <= x < |b| ==> b[x] == v[|a| + |m| + x];
  }

  lemma PartsPlain(a: string, i: nat, b: string, q: nat)
    requires Plain(a) && Plain(b) && i <= |a| && q <= |b|
    ensures Plain(a[i..]) && Plain(b[..q])
  {}

  lemma TrimAtMarker(a: string, m: string, b: string) returns (a': string, b': string)
    requires Plain(a) && Plain(b) && m != "" && !IsSpace(m[0]) && !IsSpace(m[|m| - 1])
    ensures Plain(a') && Plain(b') && TrimSpace(a + m + b) == a' + m + b' && Collapse(a' + b') == Collapse(a + b)
  {
    hide *;
    var i, q := TrimToMarker(a, m, b);
    a', b' := a[i..], b[..q];
    PartsPlain(a, i, b, q);
    assert a + b == a[..i] + (a' + b') + b[q..];
    CollapseAround(a[..i], a' + b', b[q..]);
  }

  /** Trimming takes only blanks away, and none that collapsing would have left. */
  lemma TrimWithin(k: Casing, a: string, m: string, b: string) returns (a': string, b': string)
    requires k.Lawful() && Plain(a) && Plain(b) && EuroMarker(k, m)
    ensures Plain(a') && Plain(b') && TrimSpace(a + m + b) == a' + m + b' && Collapse(a' + b') == Collapse(a + b)
  {
    EuroMarkerChars(k, m);
    hide TrimSpace, Collapse, EuroMarker, IsSpace;
    if m == "" {
      assert Plain(a + b) && a + m + b == a + b;
      TrimAll(a + b);
      a', b' := TrimSpace(a + b), "";
      assert a' + m + b' == a' && a' + b' == a';
    } else {
      a', b' := TrimAtMarker(a, m, b);
    }
  }

  lemma FormatAccepts(k: Casing, v: string, format: string, t: string, currency: string, cents: int)
    requires NormalizeInput(k, v) == if t == "" then Err(InvalidAmount) else Ok(Normalized(t, currency))
    requires TrimSpace(t) == t && (currency == "" || currency == "EUR")
    requires format == "" || format == "auto" || format in PROFILES
    ensures var n := Normalize(k, false, v, format);
            n.Ok? && Cents(n.value) == Ok(cents) <==> Follows(format, t) && Worth(t, Point(format), cents)
  {
    FollowsIff(format, t);
    NothingFollows(format);
    hide Follows, NormalizeInput, MatchDecimal, MatchGrouped, Worth, CentsOf, TrimSpace, RemoveAll;
    if Follows(format, t) {
      if format == "eur_grouped_space_comma" {
        GroupsWorth(t, ' ', cents);
      } else if format == "eur_grouped_dot_comma" {
        GroupsWorth(t, '.', cents);
      } else {
        DecimalWorth(t, Point(format), cents);
      }
    }
    GroupsOrNot(t, ' ');
    GroupsOrNot(t, '.');
  }

  /**
   A text of digits, separators and blanks with at most one euro marker anywhere is accepted by the
   strict reader exactly when its words, joined by single blanks, match the pattern of the format
   and have one to twelve digits before the decimal separator; the cents are those digits with the
   ones behind it, filled up to two.
   */
  lemma StrictAcceptsIff(k: Casing, lenient: bool, a: string, m: string, b: string, format: string, cents: int)
    requires k.Lawful() && Plain(a) && Plain(b) && EuroMarker(k, m)
    requires StrictFormat(k, format) && !Currencies.OcrRead(k, lenient, format)
    ensures var f := k.Lower(TrimSpace(format));
            ParseAmount(k, lenient, a + m + b, format) == Ok(cents) <==>
              exists ws :: Words(ws) && Spaced(a + b, ws) && Follows(f, Join(ws, " ")) && Worth(Join(ws, " "), Point(f), cents)
  {
    hide *;
    var a', b' := TrimWithin(k, a, m, b);
    var f, t, v := k.Lower(TrimSpace(format)), Collapse(a + b), a' + m + b';
    StrictCents(k, lenient, a + m + b, format, cents);
    StrictText(k, a', m, b');
    CollapseTidies(a + b);
    FormatAccepts(k, v, f, t, if m == "" then "" else "EUR", cents);
    if v == "" {
      assert a' + b' == v;
      CollapsedNothing();
      NothingFollows(f);
    }
    JoinedIs(a + b);
  }

  lemma JoinedIs(s: string)
    ensures exists ws :: Words(ws) && Spaced(s, ws)
    ensures forall ws :: Words(ws) && Spaced(s, ws) ==> Join(ws, " ") == Collapse(s)
  {
    hide *;
    var any := WordsExist(s);
    forall ws | Words(ws) && Spaced(s, ws) ensures Join(ws, " ") == Collapse(s) { CollapsedWords(s, ws); }
  }

  lemma NothingFollows(format: string)
    ensures !Follows(format, "")
  {
    FollowsIff(format, "");
    hide Follows;
  }

  lemma StrictCents(k: Casing, lenient: bool, s: string, format: string, cents: int)
    requires StrictFormat(k, format) && !Currencies.OcrRead(k, lenient, format)
    ensures var f, v := k.Lower(TrimSpace(format)), TrimSpace(s);
            var n := Normalize(k, false, v, f);
            && (f == "" || f == "auto" || f in PROFILES)
            && (ParseAmount(k, lenient, s, format) == Ok(cents) <==> v != "" && n.Ok? && Cents(n.value) == Ok(cents))
  {
    hide TrimSpace, NormalizeByProfile, NormalizeInput, NormalizeLenient, Cents;
  }

  // ---- Dollars in the strict reader ------------------------------------------------------------------------

  /** USD in any letter case, or the dollar sign. */
  ghost predicate DollarMarker(k: Casing, m: string) {
    k.Upper(m) == "USD" || m == "$"
  }

  lemma DollarChars(k: Casing, m: string)
    requires k.Lawful() && DollarMarker(k, m)
    ensures m != "" && forall i :: 0 <= i < |m| ==> !IsNumeric(m[i]) && !IsSpace(m[i]) && m[i] != '€'
    ensures k.Upper(m) == if m == "$" then "$" else "USD"
  {
    var u := k.Upper(m);
    forall i | 0 <= i < |m| ensures !IsNumeric(m[i]) && !IsSpace(m[i]) && m[i] != '€' {
      assert u[i] == k.upper(m[i]);
      assert m == "$" || u[i] in {'U', 'S', 'D'};
    }
  }

  lemma WithoutDollarWord(a: string, b: string)
    requires Plain(a) && Plain(b)
    ensures WithoutMarkers(a + "USD" + b) == a + b
  {
    var v := a + "USD" + b;
    RemoveAbsent(v, "EURO", 0);
    RemoveAbsent(v, "EUR", 0);
    RemoveOne(a, "USD", b);
    PlainWithoutSigns(a + b);
  }

  lemma PlainWithoutSigns(s: string)
    requires Plain(s)
    ensures RemoveAll(s, "€") == s && RemoveAll(s, "$") == s
  {
    RemovePlain(s, "€");
    RemovePlain(s, "$");
  }

  lemma WithoutDollarSign(a: string, b: string)
    requires Plain(a) && Plain(b)
    ensures WithoutMarkers(a + "$" + b) == a + b
  {
    SignAlone(a, b);
    RemoveOne(a, "$", b);
  }

  lemma SignAlone(a: string, b: string)
    requires Plain(a) && Plain(b)
    ensures var v := a + "$" + b;
            RemoveAll(v, "EURO") == v && RemoveAll(v, "EUR") == v && RemoveAll(v, "USD") == v && RemoveAll(v, "€") == v
  {
    hide RemoveAll;
    var v := a + "$" + b;
    assert forall i :: 0 <= i < |v| ==> v[i] !in {'E', 'U', '€'};
    RemoveAbsent(v, "EURO", 0);
    RemoveAbsent(v, "EUR", 0);
    RemoveAbsent(v, "USD", 0);
    RemoveAbsent(v, "€", 0);
  }

  lemma DollarNames(k: Casing, a: string, m: string, b: string)
    requires k.Lawful() && Plain(a) && Plain(b) && DollarMarker(k, m)
    ensures NamesUSD(k, a + m + b) && !NamesEUR(k, a + m + b)
  {
    DollarChars(k, m);
    UpperMarked(k, a, m, b);
    var v, u := a + m + b, a + k.Upper(m) + b;
    MarkedLacks(a, m, b, '€');
    MarkedLacks(a, k.Upper(m), b, 'E');
    RemoveAbsent(u, "EUR", 0);
    RemoveAbsent(u, "EURO", 0);
    assert '€' !in v;
    if m == "$" { assert v[|a|] == '$'; } else { ContainsMiddle(a, "USD", b); }
  }

  lemma DollarText(k: Casing, a: string, m: string, b: string)
    requires k.Lawful() && Plain(a) && Plain(b) && DollarMarker(k, m)
    ensures NormalizeInput(k, a + m + b) ==
      if Collapse(a + b) == "" then Err(InvalidAmount) else Ok(Normalized(Collapse(a + b), "USD"))
  {
    hide NamesEUR, NamesUSD, Collapse, WithoutMarkers;
    DollarNames(k, a, m, b);
    DollarChars(k, m);
    UpperMarked(k, a, m, b);
    if m == "$" { WithoutDollarSign(a, b); } else { WithoutDollarWord(a, b); }
  }

  lemma FormatReports(k: Casing, v: string, format: string, t: string)
    requires NormalizeInput(k, v) == if t == "" then Err(InvalidAmount) else Ok(Normalized(t, "USD"))
    requires TrimSpace(t) == t && (format == "" || format == "auto" || format in PROFILES)
    ensures var n := Normalize(k, false, v, format);
            match n
            case Err(e) => e == InvalidAmount
            case Ok(x) => x.currency == "USD"
    ensures Normalize(k, false, v, format).Ok? <==> t != "" && (format == "" || format == "auto" || Follows(format, t))
  {
    FollowsIff(format, t);
    hide Follows, NormalizeInput, MatchDecimal, MatchGrouped, TrimSpace, RemoveAll;
    GroupsOrNot(t, ' ');
    GroupsOrNot(t, '.');
  }

  /**
   With dollars in place of the euro marker the strict reader reports the currency exactly when
   something is left to read that, under a profile, matches its pattern; otherwise the amount is
   invalid.
   */
  lemma DollarsReportedIff(k: Casing, lenient: bool, a: string, m: string, b: string, format: string)
    requires k.Lawful() && Plain(a) && Plain(b) && DollarMarker(k, m)
    requires StrictFormat(k, format) && !Currencies.OcrRead(k, lenient, format)
    ensures var f := k.Lower(TrimSpace(format));
            var reported := exists ws ::
              Words(ws) && Spaced(a + b, ws) && Join(ws, " ") != "" && (f == "" || f == "auto" || Follows(f, Join(ws, " ")));
            ParseAmount(k, lenient, a + m + b, format) == Err(if reported then UnsupportedCurrency("USD") else InvalidAmount)
  {
    hide *;
    DollarsReported(k, lenient, a, m, b, format);
    JoinedIs(a + b);
  }

  lemma DollarsReported(k: Casing, lenient: bool, a: string, m: string, b: string, format: string)
    requires k.Lawful() && Plain(a) && Plain(b) && DollarMarker(k, m)
    requires StrictFormat(k, format) && !Currencies.OcrRead(k, lenient, format)
    ensures var f, t := k.Lower(TrimSpace(format)), Collapse(a + b);
            ParseAmount(k, lenient, a + m + b, format) ==
              Err(if t != "" && (f == "" || f == "auto" || Follows(f, t)) then UnsupportedCurrency("USD") else InvalidAmount)
  {
    DollarChars(k, m);
    hide *;
    var a', b' := TrimAtMarker(a, m, b);
    DollarText(k, a', m, b');
    CollapseTidies(a + b);
    StrictErrs(k, lenient, a + m + b, format);
    FormatReports(k, a' + m + b', k.Lower(TrimSpace(format)), Collapse(a + b));
  }

  lemma StrictErrs(k: Casing, lenient: bool, s: string, format: string)
    requires StrictFormat(k, format) && !Currencies.OcrRead(k, lenient, format)
    ensures var f := k.Lower(TrimSpace(format));
            var n := Normalize(k, false, TrimSpace(s), f);
            && (f == "" || f == "auto" || f in PROFILES)
            && (n.Err? && TrimSpace(s) != "" ==> ParseAmount(k, lenient, s, format) == Err(n.error))
            && (n.Ok? && n.value.currency == "USD" && TrimSpace(s) != "" ==> ParseAmount(k, lenient, s, format) == Err(UnsupportedCurrency("USD")))
  {
    hide TrimSpace, NormalizeByProfile, NormalizeInput, NormalizeLenient, MatchDecimal, CentsOf;
  }
}
