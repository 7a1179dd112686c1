/**
 The string functions of Go's standard library that the validators use, on texts as
 sequences of code points.
 */
module Text {

  predicate IsDigit(c: char) {
    '0' <= c <= '9'
  }

  function DigitValue(c: char): (d: nat)
    requires IsDigit(c)
    ensures d < 10
  {
    c as int - '0' as int
  }

  function DigitChar(d: nat): (c: char)
    requires d < 10
    ensures IsDigit(c) && DigitValue(c) == d
  {
    ('0' as int + d) as char
  }

  predicate IsDigits(s: string) {
    forall i :: 0 <= i < |s| ==> IsDigit(s[i])
  }

  predicate IsSep(c: char) {
    c == '.' || c == ','
  }

  /** unicode.IsSpace. */
  predicate IsSpace(c: char) {
    || '\t' <= c <= '\r' || c == ' ' || c == '\U{85}' || c == '\U{A0}'
    || c == '\U{1680}' || '\U{2000}' <= c <= '\U{200A}' || c == '\U{2028}' || c == '\U{2029}'
    || c == '\U{202F}' || c == '\U{205F}' || c == '\U{3000}'
  }

  /** The code points with the Unicode property White_Space. */
  const WHITE_SPACE: seq<char> := [
    '\U{9}', '\U{A}', '\U{B}', '\U{C}', '\U{D}', '\U{20}', '\U{85}', '\U{A0}', '\U{1680}',
    '\U{2000}', '\U{2001}', '\U{2002}', '\U{2003}', '\U{2004}', '\U{2005}', '\U{2006}', '\U{2007}',
    '\U{2008}', '\U{2009}', '\U{200A}', '\U{2028}', '\U{2029}', '\U{202F}', '\U{205F}', '\U{3000}']

  lemma IsSpaceIff(c: char)
    ensures IsSpace(c) <==> exists i :: 0 <= i < |WHITE_SPACE| && WHITE_SPACE[i] == c
  {
    if '\U{9}' <= c <= '\U{D}' {
      assert WHITE_SPACE[c as int - 0x9] == c;
    } else if '\U{2000}' <= c <= '\U{200A}' {
      assert WHITE_SPACE[9 + (c as int - 0x2000)] == c;
    } else if IsSpace(c) {
      var w := WHITE_SPACE;
      assert w[5] == ' ' && w[6] == '\U{85}' && w[7] == '\U{A0}' && w[8] == '\U{1680}';
      assert w[20] == '\U{2028}' && w[21] == '\U{2029}' && w[22] == '\U{202F}' && w[23] == '\U{205F}' && w[24] == '\U{3000}';
    }
  }

  /** unicode.ToUpper and unicode.ToLower, of which only a few facts are needed. */
  datatype Casing = Casing(upper: char -> char, lower: char -> char)
  {
    ghost predicate Lawful() {
      && (forall c :: upper(upper(c)) == upper(c))
      && (forall c :: c <= '\U{7F}' ==> upper(c) == if 'a' <= c <= 'z' then (c - 'a') + 'A' else c)
      && (forall c :: c <= '\U{7F}' ==> lower(c) == if 'A' <= c <= 'Z' then (c - 'A') + 'a' else c)
      && (forall c :: upper(c) != c ==> 'A' <= upper(c) <= 'Z' || upper(c) > '\U{7F}')
      && (forall c :: IsSpace(c) ==> upper(c) == c)
      && (forall c :: IsSpace(upper(c)) ==> IsSpace(c))
      && upper('€') == '€' && upper('£') == '£' && upper('¥') == '¥'
    }

    function Upper(s: string): (r: string)
      ensures |r| == |s|
    {
      seq(|s|, i requires 0 <= i < |s| => upper(s[i]))
    }

    function Lower(s: string): (r: string)
      ensures |r| == |s|
    {
      seq(|s|, i requires 0 <= i < |s| => lower(s[i]))
    }
  }

  function TrimLeft(s: string): string {
    if s != [] && IsSpace(s[0]) then TrimLeft(s[1..]) else s
  }

  function TrimRight(s: string): string {
    if s != [] && IsSpace(s[|s| - 1]) then TrimRight(s[..|s| - 1]) else s
  }

  function TrimSpace(s: string): string {
    TrimRight(TrimLeft(s))
  }

  predicate OccursAt(s: string, part: string, i: int) {
    0 <= i <= |s| - |part| && s[i..i + |part|] == part
  }

  predicate Contains(s: string, part: string) {
    exists i :: 0 <= i <= |s| && OccursAt(s, part, i)
  }

  /** ReplaceAll(s, part, ""), scanning from the left. */
  function RemoveAll(s: string, part: string): string
    requires part != []
  {
    if |s| < |part| then s
    else if s[..|part|] == part then RemoveAll(s[|part|..], part)
    else [s[0]] + RemoveAll(s[1..], part)
  }

  /** ReplaceAll of one character by another. */
  function ReplaceChar(s: string, old_: char, new_: char): (r: string)
    ensures |r| == |s|
  {
    seq(|s|, i requires 0 <= i < |s| => if s[i] == old_ then new_ else s[i])
  }

  /** Index of the first `c`, or |s|. */
  function IndexOf(s: string, c: char): (i: nat)
    ensures i <= |s| && (forall j :: 0 <= j < i ==> s[j] != c) && (i < |s| ==> s[i] == c)
  {
    if s == [] || s[0] == c then 0 else 1 + IndexOf(s[1..], c)
  }

  /** Index of the last `c`, or -1. */
  function LastIndex(s: string, c: char): (i: int)
    ensures -1 <= i < |s| && (i >= 0 ==> s[i] == c) && (forall j :: i < j < |s| ==> s[j] != c)
  {
    if s == [] then -1
    else if s[|s| - 1] == c then |s| - 1
    else LastIndex(s[..|s| - 1], c)
  }

  function CountChar(s: string, c: char): nat {
    if s == [] then 0 else CountChar(s[..|s| - 1], c) + if s[|s| - 1] == c then 1 else 0
  }

  /** Length of the first word of `s`. */
  function WordLength(s: string): (n: nat)
    ensures n <= |s| && (forall i :: 0 <= i < n ==> !IsSpace(s[i])) && (n < |s| ==> IsSpace(s[n]))
  {
    if s == [] || IsSpace(s[0]) then 0 else 1 + WordLength(s[1..])
  }

  lemma TrimLeftShrinks(s: string)
    ensures |TrimLeft(s)| <= |s| && TrimLeft(s) == s[|s| - |TrimLeft(s)|..]
    ensures TrimLeft(s) != [] ==> !IsSpace(TrimLeft(s)[0])
  {}

  /** Join(Fields(s), " "): words separated by single blanks. */
  function Collapse(s: string): string
    decreases |s|
  {
    TrimLeftShrinks(s);
    var t := TrimLeft(s);
    if t == [] then []
    else
      var n := WordLength(t);
      var rest := Collapse(t[n..]);
      if rest == [] then t[..n] else t[..n] + " " + rest
  }

  function ValueOf(s: string): nat
    requires IsDigits(s)
  {
    if s == [] then 0 else ValueOf(s[..|s| - 1]) * 10 + DigitValue(s[|s| - 1])
  }

  /** strconv / "%d" of a natural number. */
  function Printed(n: nat): (s: string)
    ensures s != [] && IsDigits(s)
  {
    (if n < 10 then [] else Printed(n / 10)) + [DigitChar(n % 10)]
  }

  // ---- Searching and counting -----------------------------------------------------------

  ghost predicate Lacks(s: string, c: char) {
    forall i :: 0 <= i < |s| ==> s[i] != c
  }

  lemma IndexOfIs(s: string, c: char, k: nat)
    requires k <= |s| && (forall j :: 0 <= j < k ==> s[j] != c) && (k < |s| ==> s[k] == c)
    ensures IndexOf(s, c) == k
  {}

  lemma {:induction false} CountAppend(a: string, b: string, c: char)
    ensures CountChar(a + b, c) == CountChar(a, c) + CountChar(b, c)
  {
    if b == [] {
      assert a + b == a;
    } else {
      CountAppend(a, b[..|b| - 1], c);
      assert (a + b)[..|a + b| - 1] == a + b[..|b| - 1];
    }
  }

  lemma {:induction false} CountZero(s: string, c: char)
    ensures CountChar(s, c) == 0 <==> Lacks(s, c)
  {
    if s != [] { CountZero(s[..|s| - 1], c); }
  }

  // ---- Filters ----------------------------------------------------------------------

  function Keep(s: string, p: char -> bool): string {
    if s == [] then []
    else Keep(s[..|s| - 1], p) + if p(s[|s| - 1]) then [s[|s| - 1]] else []
  }

  lemma {:induction false} KeepAppend(a: string, b: string, p: char -> bool)
    ensures Keep(a + b, p) == Keep(a, p) + Keep(b, p)
  {
    if b == [] {
      assert a + b == a;
    } else {
      var n := |b| - 1;
      KeepAppend(a, b[..n], p);
      assert (a + b)[..|a + b| - 1] == a + b[..n];
    }
  }

  lemma {:induction false} KeepAll(s: string, p: char -> bool)
    requires forall i :: 0 <= i < |s| ==> p(s[i])
    ensures Keep(s, p) == s
  {
    if s != [] {
      KeepAll(s[..|s| - 1], p);
      assert s == s[..|s| - 1] + [s[|s| - 1]];
    }
  }

  lemma {:induction false} KeepNone(s: string, p: char -> bool)
    requires forall i :: 0 <= i < |s| ==> !p(s[i])
    ensures Keep(s, p) == []
  {
    if s != [] { KeepNone(s[..|s| - 1], p); }
  }

  lemma {:induction false} KeepOnly(s: string, p: char -> bool)
    ensures forall i :: 0 <= i < |Keep(s, p)| ==> Keep(s, p)[i] in s && p(Keep(s, p)[i])
  {
    if s != [] { KeepOnly(s[..|s| - 1], p); }
  }

  // ---- Printing and reading numbers ----------------------------------------------------

  lemma ValueSnoc(s: string, c: char)
    requires IsDigits(s) && IsDigit(c)
    ensures IsDigits(s + [c]) && ValueOf(s + [c]) == ValueOf(s) * 10 + DigitValue(c)
  {
    assert (s + [c])[..|s|] == s;
  }

  lemma {:induction false} PrintedValue(n: nat)
    ensures ValueOf(Printed(n)) == n
  {
    if n >= 10 { PrintedValue(n / 10); }
    ValueSnoc(if n < 10 then [] else Printed(n / 10), DigitChar(n % 10));
  }

  /** "%02d" */
  function TwoDigits(n: nat): (s: string)
    requires n < 100
    ensures |s| == 2 && IsDigits(s)
  {
    [DigitChar(n / 10), DigitChar(n % 10)]
  }

  function PowerOfTen(k: nat): (p: nat)
    ensures p > 0
  {
    if k == 0 then 1 else 10 * PowerOfTen(k - 1)
  }

  lemma {:induction false} PrintedLength(n: nat, k: nat)
    requires 1 <= k && n < PowerOfTen(k)
    ensures |Printed(n)| <= k
  {
    if n >= 10 {
      PrintedLength(n / 10, k - 1);
    }
  }

  lemma {:induction false} ValueBound(s: string)
    requires IsDigits(s)
    ensures ValueOf(s) < PowerOfTen(|s|)
  {
    if s != [] {
      ValueBound(s[..|s| - 1]);
      assert PowerOfTen(|s|) == 10 * PowerOfTen(|s| - 1);
    }
  }
}
