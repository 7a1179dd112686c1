/**
 IBAN check digits (validate/iban.go): ISO 13616-1 validation with the MOD 97-10 pure
 system of ISO/IEC 7064:2003.
 */
module Iban {

  import opened Text

  predicate IsLetter(c: char) {
    'A' <= c <= 'Z'
  }

  predicate IsAlnum(s: string) {
    forall i :: 0 <= i < |s| ==> IsDigit(s[i]) || IsLetter(s[i])
  }

  /** 0..9 for digits, 10..35 for letters. */
  function Value(c: char): (v: nat)
    requires IsDigit(c) || IsLetter(c)
    ensures v < 36 && (v < 10 <==> IsDigit(c))
  {
    if IsDigit(c) then DigitValue(c) else (c - 'A') as nat + 10
  }

  /** Decimal digits of the text: a letter stands for the two digits of its value. */
  function Expand(s: string): seq<nat>
    requires IsAlnum(s)
  {
    if s == [] then []
    else
      var v := Value(s[|s| - 1]);
      Expand(s[..|s| - 1]) + if v < 10 then [v] else [v / 10, v % 10]
  }

  function Decimal(digits: seq<nat>): nat {
    if digits == [] then 0 else Decimal(digits[..|digits| - 1]) * 10 + digits[|digits| - 1]
  }

  /** The letter-expanded number a text stands for. */
  function Number(s: string): nat
    requires IsAlnum(s)
  {
    Decimal(Expand(s))
  }

  /** Country code and check digits move to the end. */
  function Rearranged(s: string): string
    requires |s| >= 4
  {
    s[4..] + s[..4]
  }

  /** The standard's acceptance test, on the whole number. */
  predicate Valid(s: string) {
    15 <= |s| <= 34 && IsAlnum(s) && Number(Rearranged(s)) % 97 == 1
  }

  /** The number after one more character: a digit shifts by one place, a letter by two. */
  function Shifted(n: int, c: char): int
    requires IsDigit(c) || IsLetter(c)
  {
    if IsDigit(c) then n * 10 + Value(c) else n * 100 + Value(c)
  }

  lemma DecimalSnoc(digits: seq<nat>, d: nat)
    ensures Decimal(digits + [d]) == Decimal(digits) * 10 + d
  {
    assert (digits + [d])[..|digits|] == digits;
  }

  lemma NumberSnoc(s: string, c: char)
    requires IsAlnum(s) && (IsDigit(c) || IsLetter(c))
    ensures IsAlnum(s + [c]) && Number(s + [c]) == Shifted(Number(s), c)
  {
    var e, v := Expand(s), Value(c);
    assert (s + [c])[..|s|] == s;
    if v < 10 {
      DecimalSnoc(e, v);
    } else {
      assert e + [v / 10, v % 10] == (e + [v / 10]) + [v % 10];
      DecimalSnoc(e, v / 10);
      DecimalSnoc(e + [v / 10], v % 10);
    }
  }

  lemma NumberOfNothing()
    ensures Number("") == 0
  {}

  lemma StreamStep(n: nat, m: nat, d: nat)
    requires m == n % 97
    ensures (m * 10 + d) % 97 == (n * 10 + d) % 97
  {
    assert n * 10 + d == 97 * (n / 97 * 10) + (m * 10 + d);
  }

  /** Remainders take the digits of a letter's value one at a time. */
  lemma StreamShift(n: nat, m: nat, c: char)
    requires (IsDigit(c) || IsLetter(c)) && m == n % 97
    ensures var v := Value(c);
            Shifted(n, c) % 97 == if IsDigit(c) then (m * 10 + v) % 97 else ((m * 10 + v / 10) % 97 * 10 + v % 10) % 97
  {
    var v := Value(c);
    if IsDigit(c) {
      StreamStep(n, m, v);
    } else {
      StreamStep(n, m, v / 10);
      StreamStep(n * 10 + v / 10, (m * 10 + v / 10) % 97, v % 10);
    }
  }

  /** The check as the code runs it, one digit at a time. */
  method ValidIBAN(iban: string) returns (ok: bool)
    ensures ok == Valid(iban)
  {
    if |iban| < 15 || |iban| > 34 {
      return false;
    }
    for i := 0 to |iban|
      invariant IsAlnum(iban[..i])
    {
      if !IsLetter(iban[i]) && !IsDigit(iban[i]) {
        return false;
      }
    }
    hide Number, Shifted;
    assert iban[..|iban|] == iban;
    NumberOfNothing();
    var rearranged := iban[4..] + iban[..4];
    var mod := 0;
    for i := 0 to |rearranged|
      invariant mod == Number(rearranged[..i]) % 97
    {
      var r := rearranged[i];
      StreamShift(Number(rearranged[..i]), mod, r);
      NumberSnoc(rearranged[..i], r);
      assert rearranged[..i + 1] == rearranged[..i] + [r];
      if IsDigit(r) {
        mod := (mod * 10 + (r - '0') as int) % 97;
      } else if IsLetter(r) {
        var val := (r - 'A') as int + 10;
        mod := (mod * 10 + val / 10) % 97;
        mod := (mod * 10 + val % 10) % 97;
      } else {
        assert false;
        return false;
      }
    }
    assert rearranged[..|rearranged|] == rearranged;
    return mod == 1;
  }

  // ---- Check digits ----------------------------------------------------------------

  predicate Country(cc: string) {
    |cc| == 2 && IsLetter(cc[0]) && IsLetter(cc[1])
  }

  predicate Bban(s: string) {
    11 <= |s| <= 30 && IsAlnum(s)
  }

  /** The check pair prescribed for a country code and an account part. */
  function CheckPair(cc: string, bban: string): (p: nat)
    requires Country(cc) && Bban(bban)
    ensures 2 <= p <= 98
  {
    98 - Number(bban + cc + "00") % 97
  }

  lemma NumberWithPair(s: string, p: nat)
    requires IsAlnum(s) && p < 100
    ensures IsAlnum(s + TwoDigits(p)) && Number(s + TwoDigits(p)) == Number(s) * 100 + p
  {
    var q := TwoDigits(p);
    NumberSnoc(s, q[0]);
    NumberSnoc(s + [q[0]], q[1]);
    assert s + q == (s + [q[0]]) + [q[1]];
    assert Value(q[0]) == p / 10 && Value(q[1]) == p % 10;
  }

  lemma PairPlaced(cc: string, bban: string, p: nat)
    requires Country(cc) && Bban(bban) && p < 100
    ensures var s := cc + TwoDigits(p) + bban;
            IsAlnum(s) && 15 <= |s| <= 34 && Rearranged(s) == (bban + cc) + TwoDigits(p)
  {
    var s := cc + TwoDigits(p) + bban;
    assert s[4..] == bban && s[..4] == cc + TwoDigits(p);
    assert IsDigit(TwoDigits(p)[0]) && IsDigit(TwoDigits(p)[1]);
  }

  lemma MultipleAway(k: int, r: int)
    ensures (97 * k + r) % 97 == r % 97
  {
    assert 97 * k + r == 97 * (k + r / 97) + r % 97;
  }

  lemma Residues(n: nat, p: nat)
    requires p < 100
    ensures (n * 100 + p) % 97 == 1 <==> (p - (98 - (n * 100) % 97)) % 97 == 0
  {
    var r := (n * 100) % 97;
    MultipleAway(n * 100 / 97, r + p);
    assert n * 100 + p == 97 * (n * 100 / 97) + (r + p);
  }

  /**
   Of all check pairs 00..99 the code accepts exactly those congruent to the prescribed one;
   within 02..98 that is the prescribed pair alone, while 00, 01 and 99 stand in for 97, 98 and 02.
   */
  lemma CheckPairUnique(cc: string, bban: string, p: nat)
    requires Country(cc) && Bban(bban) && p < 100
    ensures Valid(cc + TwoDigits(p) + bban) <==> (p - CheckPair(cc, bban)) % 97 == 0
    ensures 2 <= p <= 98 ==> (Valid(cc + TwoDigits(p) + bban) <==> p == CheckPair(cc, bban))
  {
    PairPlaced(cc, bban, p);
    NumberWithPair(bban + cc, p);
    NumberWithPair(bban + cc, 0);
    assert TwoDigits(0) == "00";
    Residues(Number(bban + cc), p);
  }

  // ---- Error detection ----------------------------------------------------------------

  lemma SameRemainder(a: int, b: int)
    ensures a % 97 == b % 97 <==> (a - b) % 97 == 0
  {
    assert a - b == 97 * (a / 97 - b / 97) + (a % 97 - b % 97);
  }

  lemma CancelTen(k: int)
    ensures (10 * k) % 97 == 0 <==> k % 97 == 0
  {
    if (10 * k) % 97 == 0 { assert k == 97 * (68 * ((10 * k) / 97) - 7 * k); }
    if k % 97 == 0 { assert 10 * k == 97 * (10 * (k / 97)); }
  }

  lemma CancelNine(k: int)
    requires -97 < k < 97
    ensures (9 * k) % 97 == 0 <==> k == 0
  {
    if (9 * k) % 97 == 0 { assert k == 97 * (54 * ((9 * k) / 97) - 5 * k); }
  }

  lemma CancelNinetyNine(k: int)
    requires -97 < k < 97
    ensures (99 * k) % 97 == 0 <==> k == 0
  {
    if (99 * k) % 97 == 0 { assert k == 97 * (49 * ((99 * k) / 97) - 50 * k); }
  }

  lemma AppendInjective(a: string, b: string, c: char)
    requires IsAlnum(a) && IsAlnum(b) && (IsDigit(c) || IsLetter(c))
    ensures IsAlnum(a + [c]) && IsAlnum(b + [c])
    ensures Number(a + [c]) % 97 == Number(b + [c]) % 97 <==> Number(a) % 97 == Number(b) % 97
  {
    NumberSnoc(a, c);
    NumberSnoc(b, c);
    var k := Number(a) - Number(b);
    SameRemainder(Number(a), Number(b));
    SameRemainder(Number(a + [c]), Number(b + [c]));
    CancelTen(k);
    CancelTen(10 * k);
    assert Number(a + [c]) - Number(b + [c]) == if IsDigit(c) then 10 * k else 10 * (10 * k);
  }

  /** What follows can neither repair nor cause a difference of remainders. */
  lemma {:induction false} SuffixInjective(a: string, b: string, t: string)
    requires IsAlnum(a) && IsAlnum(b) && IsAlnum(t)
    ensures IsAlnum(a + t) && IsAlnum(b + t)
    ensures Number(a + t) % 97 == Number(b + t) % 97 <==> Number(a) % 97 == Number(b) % 97
  {
    hide Number;
    if t == [] {
      assert a + t == a && b + t == b;
    } else {
      var n := |t| - 1;
      SuffixInjective(a, b, t[..n]);
      assert a + t == (a + t[..n]) + [t[n]] && b + t == (b + t[..n]) + [t[n]];
      AppendInjective(a + t[..n], b + t[..n], t[n]);
    }
  }

  function Rotated(s: string, i: nat): nat
    requires 4 <= |s| && i < |s|
  {
    if i < 4 then |s| - 4 + i else i - 4
  }

  predicate SameKind(a: char, b: char) {
    (IsDigit(a) && IsDigit(b)) || (IsLetter(a) && IsLetter(b))
  }

  lemma NumberDetectsSubstitution(p: string, a: char, b: char, t: string)
    requires IsAlnum(p) && IsAlnum(t) && SameKind(a, b) && a != b
    ensures IsAlnum(p + [a] + t) && IsAlnum(p + [b] + t)
    ensures Number(p + [a] + t) % 97 != Number(p + [b] + t) % 97
  {
    hide Number;
    NumberSnoc(p, a);
    NumberSnoc(p, b);
    SameRemainder(Number(p + [a]), Number(p + [b]));
    var k: int := Value(a) - Value(b);
    assert Number(p + [a]) - Number(p + [b]) == k && -97 < k < 97 && k != 0;
    assert k % 97 != 0;
    SuffixInjective(p + [a], p + [b], t);
  }

  /** Any single digit-for-digit or letter-for-letter mistake is detected. */
  lemma SubstitutionDetected(s: string, i: nat, c: char)
    requires Valid(s) && i < |s| && s[i] != c && SameKind(s[i], c)
    ensures !Valid(s[i := c])
  {
    hide Number;
    var r, j := Rearranged(s), Rotated(s, i);
    assert IsAlnum(r) && IsAlnum(r[..j]) && IsAlnum(r[j + 1..]);
    assert r == r[..j] + [s[i]] + r[j + 1..];
    assert Rearranged(s[i := c]) == r[..j] + [c] + r[j + 1..];
    NumberDetectsSubstitution(r[..j], s[i], c, r[j + 1..]);
  }

  /** A digit and a letter that leave the same remainder after the number `n`. */
  predicate BlindSubstitute(n: nat, a: char, b: char)
    requires (IsDigit(a) || IsLetter(a)) && (IsDigit(b) || IsLetter(b))
  {
    var d: int, l: int := if IsDigit(a) then Value(a) else Value(b), if IsDigit(a) then Value(b) else Value(a);
    IsDigit(a) != IsDigit(b) && (90 * n + l - d) % 97 == 0
  }

  lemma SubstituteRemainders(n: nat, a: char, b: char)
    requires (IsDigit(a) || IsLetter(a)) && (IsDigit(b) || IsLetter(b))
    ensures Shifted(n, a) % 97 == Shifted(n, b) % 97 <==> a == b || BlindSubstitute(n, a, b)
  {
    SameRemainder(Shifted(n, a), Shifted(n, b));
    SameRemainder(Shifted(n, b), Shifted(n, a));
    var k: int := Value(a) - Value(b);
    assert a == b <==> k == 0;
    if SameKind(a, b) { assert Shifted(n, a) - Shifted(n, b) == k && -97 < k < 97; }
  }

  /**
   Any single mistake, exactly: a character that is neither digit nor capital letter is noticed,
   and so is any other one of the same kind; a letter for a digit, or a digit for a letter,
   unless it leaves the same remainder after what precedes it in the rearranged number.
   */
  lemma SubstitutionDetectedIff(s: string, i: nat, c: char)
    requires Valid(s) && i < |s|
    ensures IsAlnum(Rearranged(s)[..Rotated(s, i)])
    ensures Valid(s[i := c]) <==>
      c == s[i] || ((IsDigit(c) || IsLetter(c)) && BlindSubstitute(Number(Rearranged(s)[..Rotated(s, i)]), s[i], c))
  {
    hide Number, Shifted, BlindSubstitute;
    var r, j := Rearranged(s), Rotated(s, i);
    assert IsAlnum(r) && r == r[..j] + [s[i]] + r[j + 1..];
    if IsDigit(c) || IsLetter(c) {
      assert IsAlnum(s[i := c]) && Rearranged(s[i := c]) == r[..j] + [c] + r[j + 1..];
      NumberSnoc(r[..j], s[i]);
      NumberSnoc(r[..j], c);
      SubstituteRemainders(Number(r[..j]), s[i], c);
      SuffixInjective(r[..j] + [s[i]], r[..j] + [c], r[j + 1..]);
    } else {
      assert s[i := c][i] == c;
    }
  }

  /** Adjacent letter and digit whose exchange changes the number by a multiple of 97. */
  predicate BlindPair(a: char, b: char)
    requires (IsDigit(a) || IsLetter(a)) && (IsDigit(b) || IsLetter(b))
  {
    || (IsLetter(a) && IsDigit(b) && Value(a) == 11 * Value(b))
    || (IsDigit(a) && IsLetter(b) && Value(b) == 11 * Value(a))
  }

  lemma SwapDifference(n: int, a: char, b: char)
    requires (IsDigit(a) || IsLetter(a)) && (IsDigit(b) || IsLetter(b))
    ensures Shifted(Shifted(n, a), b) - Shifted(Shifted(n, b), a)
      == if IsDigit(a) then if IsDigit(b) then 9 * (Value(a) - Value(b)) else 9 * (11 * Value(a) - Value(b))
         else if IsDigit(b) then 9 * (Value(a) - 11 * Value(b)) else 99 * (Value(a) - Value(b))
  {}

  lemma SwapRemainders(n: int, a: char, b: char)
    requires (IsDigit(a) || IsLetter(a)) && (IsDigit(b) || IsLetter(b))
    ensures Shifted(Shifted(n, a), b) % 97 == Shifted(Shifted(n, b), a) % 97
      <==> a == b || BlindPair(a, b)
  {
    SwapDifference(n, a, b);
    SameRemainder(Shifted(Shifted(n, a), b), Shifted(Shifted(n, b), a));
    var x: int, y: int := Value(a), Value(b);
    assert a == b <==> x == y;
    if IsDigit(a) && IsDigit(b) {
      CancelNine(x - y);
    } else if IsDigit(a) {
      CancelNine(11 * x - y);
    } else if IsDigit(b) {
      CancelNine(x - 11 * y);
    } else {
      CancelNinetyNine(x - y);
    }
  }

  lemma NumberDetectsSwap(p: string, a: char, b: char, t: string)
    requires IsAlnum(p) && IsAlnum(t) && (IsDigit(a) || IsLetter(a)) && (IsDigit(b) || IsLetter(b))
    ensures IsAlnum(p + [a] + [b] + t) && IsAlnum(p + [b] + [a] + t)
    ensures Number(p + [a] + [b] + t) % 97 == Number(p + [b] + [a] + t) % 97 <==> a == b || BlindPair(a, b)
  {
    NumberSnoc(p, a);
    NumberSnoc(p + [a], b);
    NumberSnoc(p, b);
    NumberSnoc(p + [b], a);
    SwapRemainders(Number(p), a, b);
    SuffixInjective(p + [a] + [b], p + [b] + [a], t);
  }

  lemma SwapInside(s: string, i: nat)
    requires Valid(s) && i + 1 < |s| && i != 3
    ensures Valid(s[i := s[i + 1]][i + 1 := s[i]]) <==> s[i] == s[i + 1] || BlindPair(s[i], s[i + 1])
  {
    hide Number;
    var j, a, b := Rotated(s, i), s[i], s[i + 1];
    var p, t := Rearranged(s)[..j], Rearranged(s)[j + 2..];
    assert IsAlnum(Rearranged(s)) && IsAlnum(p) && IsAlnum(t);
    assert Rearranged(s) == p + [a] + [b] + t;
    assert Rearranged(s[i := b][i + 1 := a]) == p + [b] + [a] + t;
    NumberDetectsSwap(p, a, b, t);
  }

  // ---- The pair that rearranging separates ---------------------------------------------

  lemma {:induction false} NumberAppend(p: string, t: string)
    requires IsAlnum(p) && IsAlnum(t)
    ensures IsAlnum(p + t) && Number(p + t) == Number(p) * PowerOfTen(|Expand(t)|) + Number(t)
    ensures |t| <= |Expand(t)| <= 2 * |t|
  {
    hide Number, Shifted;
    if t == "" {
      assert p + t == p;
      NumberOfNothing();
    } else {
      var n := |t| - 1;
      var c, k := t[n], |Expand(t[..n])|;
      NumberAppend(p, t[..n]);
      assert p + t == (p + t[..n]) + [c] && t == t[..n] + [c];
      NumberSnoc(p + t[..n], c);
      NumberSnoc(t[..n], c);
      ShiftedProduct(Number(p), PowerOfTen(k), Number(t[..n]), c);
      assert PowerOfTen(k + 1) == 10 * PowerOfTen(k) && PowerOfTen(k + 2) == 10 * PowerOfTen(k + 1);
    }
  }

  lemma ShiftedProduct(n: int, p: int, m: int, c: char)
    requires IsDigit(c) || IsLetter(c)
    ensures Shifted(n * p + m, c) == n * ((if IsDigit(c) then 10 else 100) * p) + Shifted(m, c)
  {}

  lemma Indivisible(u: int)
    requires 1 < u < 36
    ensures 97 % u != 0
  {}

  lemma FewerTimes(u: int, v: int, q: int, r: int)
    requires 97 == q * u + r && (u * v) % 97 == 0
    ensures (r * v) % 97 == 0
  {
    var m := u * v / 97;
    assert r * v == 97 * v - q * (u * v);
    assert r * v == 97 * (v - q * m);
  }

  /** 97 is prime: it divides a product only if it divides a factor. */
  lemma {:induction false} PrimeDivides(u: int, v: int)
    requires 0 < u < 36 && (u * v) % 97 == 0
    ensures v % 97 == 0
    decreases u
  {
    if u > 1 {
      Indivisible(u);
      FewerTimes(u, v, 97 / u, 97 % u);
      PrimeDivides(97 % u, v);
    }
  }

  /** None of m, 10 * m, .., 10^7 * m leaves the remainder 1. */
  predicate RowFree(m: nat) {
    && m % 97 != 1 && (10 * m) % 97 != 1 && (100 * m) % 97 != 1 && (1000 * m) % 97 != 1
    && (10000 * m) % 97 != 1 && (100000 * m) % 97 != 1 && (1000000 * m) % 97 != 1 && (10000000 * m) % 97 != 1
  }

  lemma TimesModulo(f: int, x: int, m: int)
    requires x % 97 == m % 97
    ensures (f * x) % 97 == (f * m) % 97
  {
    SameRemainder(x, m);
    SameRemainder(f * x, f * m);
    var q := (x - m) / 97;
    assert x - m == 97 * q;
    assert f * x - f * m == 97 * (f * q);
  }

  lemma RowNotOne(k: nat, m: nat, r: nat)
    requires PowerOfTen(k) % 97 == m && RowFree(m) && r < 8
    ensures PowerOfTen(k + r) % 97 != 1
  {
    PowerSplits(k, r);
    TimesModulo(PowerOfTen(r), PowerOfTen(k), m);
    SmallPowers();
  }

  lemma SmallPowers()
    ensures PowerOfTen(0) == 1 && PowerOfTen(1) == 10 && PowerOfTen(2) == 100 && PowerOfTen(3) == 1000
    ensures PowerOfTen(4) == 10000 && PowerOfTen(5) == 100000 && PowerOfTen(6) == 1000000
    ensures PowerOfTen(7) == 10000000 && PowerOfTen(8) == 100000000
  {}

  lemma {:induction false} PowerSplits(k: nat, r: nat)
    ensures PowerOfTen(k + r) == PowerOfTen(r) * PowerOfTen(k)
  {
    if r > 0 {
      PowerSplits(k, r - 1);
      assert PowerOfTen(k + r) == 10 * PowerOfTen(k + (r - 1));
    }
  }

  lemma NextRow(k: nat, m: nat)
    requires PowerOfTen(k) % 97 == m
    ensures PowerOfTen(k + 8) % 97 == (81 * m) % 97
  {
    PowerSplits(k, 8);
    SmallPowers();
    TimesModulo(100000000, PowerOfTen(k), m);
    TimesModulo(m, 100000000, 81);
  }

  /** No power of ten from the first to the 72nd leaves the remainder 1. */
  lemma TensNotOne(k: nat)
    requires 1 <= k <= 72
    ensures PowerOfTen(k) % 97 != 1
  {
    hide PowerOfTen;
    SmallPowers();
    NextRow(1, 10); NextRow(9, 34); NextRow(17, 38); NextRow(25, 71);
    NextRow(33, 28); NextRow(41, 37); NextRow(49, 87); NextRow(57, 63);
    var r := (k - 1) % 8;
    if k < 9 { RowNotOne(1, 10, r); }
    else if k < 17 { RowNotOne(9, 34, r); }
    else if k < 25 { RowNotOne(17, 38, r); }
    else if k < 33 { RowNotOne(25, 71, r); }
    else if k < 41 { RowNotOne(33, 28, r); }
    else if k < 49 { RowNotOne(41, 37, r); }
    else if k < 57 { RowNotOne(49, 87, r); }
    else if k < 65 { RowNotOne(57, 63, r); }
    else { RowNotOne(65, 59, r); }
  }

  lemma LessMultiple(a: int, b: int)
    requires a % 97 == 0
    ensures (a - b) % 97 == 0 <==> b % 97 == 0
    ensures (b - a) % 97 == 0 <==> b % 97 == 0
  {
    SameRemainder(a, b);
    SameRemainder(b, a);
  }

  lemma StaysIndivisible(u: int, v: int)
    requires 0 < u < 36 && v % 97 != 0
    ensures (u * v) % 97 != 0 && (-u * v) % 97 != 0
  {
    if (u * v) % 97 == 0 { PrimeDivides(u, v); }
    assert -u * v == -(u * v);
    LessMultiple(0, u * v);
  }

  lemma OuterDifference(k: nat, u: int)
    requires 1 <= k <= 72 && -36 < u < 36 && u != 0
    ensures (u * (PowerOfTen(k) - 1)) % 97 != 0
  {
    hide PowerOfTen;
    TensNotOne(k);
    SameRemainder(PowerOfTen(k), 1);
    StaysIndivisible(if u > 0 then u else -u, PowerOfTen(k) - 1);
  }

  lemma OuterWeights(k: nat)
    ensures PowerOfTen(k + 1) == 10 * PowerOfTen(k) && PowerOfTen(k + 2) == 100 * PowerOfTen(k)
  {
    assert PowerOfTen(k + 2) == 10 * PowerOfTen(k + 1);
  }

  /** What lies between the two characters, once rearranged. */
  function Between(s: string): (t: string)
    requires |s| >= 5
    ensures |t| == |s| - 2
  {
    s[5..] + s[..3]
  }

  /** A letter of value l and a digit d around a part that weighs `p`: their exchange keeps the remainder 1. */
  predicate BlindAround(a: char, b: char, p: nat)
    requires (IsDigit(a) || IsLetter(a)) && (IsDigit(b) || IsLetter(b))
  {
    var d: int, l: int := if IsDigit(a) then Value(a) else Value(b), if IsDigit(a) then Value(b) else Value(a);
    IsDigit(a) != IsDigit(b) && (100 * (l - d) * p + 10 * d - l) % 97 == 9
  }

  /** Positions 3 and 4 cannot be told apart from their exchange. */
  predicate BlindBorder(s: string)
    requires |s| >= 5 && IsAlnum(s)
  {
    BlindAround(s[3], s[4], PowerOfTen(|Expand(Between(s))|))
  }

  lemma NumberOfOne(c: char)
    requires IsDigit(c) || IsLetter(c)
    ensures IsAlnum([c]) && Number([c]) == Value(c)
  {
    NumberSnoc("", c);
    NumberOfNothing();
    assert "" + [c] == [c];
  }

  /** The rearranged number from its two outer characters; the first weighs as much as what lies between has digits. */
  lemma BorderNumber(s: string)
    requires 15 <= |s| <= 34 && IsAlnum(s)
    ensures IsAlnum(Between(s)) && |Expand(Between(s))| <= 64
    ensures var p, n := PowerOfTen(|Expand(Between(s))|), Number(Between(s));
            Number(Rearranged(s)) == Shifted(Value(s[4]) * p + n, s[3])
  {
    hide Number, Expand, PowerOfTen;
    var t := Between(s);
    var r := [s[4]] + t;
    assert Rearranged(s) == r + [s[3]];
    NumberOfOne(s[4]);
    NumberAppend([s[4]], t);
    NumberSnoc(r, s[3]);
  }

  lemma SameKindDifference(p: int, n: int, a: char, b: char)
    requires SameKind(a, b)
    ensures Shifted(Value(b) * p + n, a) - Shifted(Value(a) * p + n, b)
      == (Value(b) - Value(a)) * ((if IsDigit(a) then 10 else 100) * p - 1)
  {}

  lemma MixedDifference(p: int, n: int, d: char, l: char)
    requires IsDigit(d) && IsLetter(l)
    ensures 10 * Shifted(Value(l) * p + n, d) - Shifted(Value(d) * p + n, l)
      == 100 * (Value(l) - Value(d)) * p + 10 * Value(d) - Value(l)
  {}

  lemma SameKindBorder(k: nat, p: int, n: int, a: char, b: char)
    requires k <= 64 && p == PowerOfTen(k) && SameKind(a, b)
    requires Shifted(Value(b) * p + n, a) % 97 == 1
    ensures Shifted(Value(a) * p + n, b) % 97 == 1 <==> a == b
  {
    hide PowerOfTen, Shifted;
    SameKindDifference(p, n, a, b);
    SameRemainder(Shifted(Value(b) * p + n, a), Shifted(Value(a) * p + n, b));
    OuterWeights(k);
    if a != b { OuterDifference(if IsDigit(a) then k + 1 else k + 2, Value(b) - Value(a)); }
  }

  /** Ten times the number that ends in the digit, less the other, is known: given one is right, so is the other. */
  lemma MixedBorder(x: int, y: int, z: int)
    requires 10 * x - y == z && (x % 97 == 1 || y % 97 == 1)
    ensures x % 97 == 1 && y % 97 == 1 <==> z % 97 == 9
  {
    var u, v := 10 * (x - 1), y - 1;
    SameRemainder(x, 1);
    SameRemainder(y, 1);
    SameRemainder(z, 9);
    CancelTen(x - 1);
    assert z - 9 == u - v;
    if u % 97 == 0 { LessMultiple(u, v); } else { LessMultiple(v, u); }
  }

  lemma BorderRemainders(k: nat, p: nat, n: int, a: char, b: char)
    requires (IsDigit(a) || IsLetter(a)) && (IsDigit(b) || IsLetter(b))
    requires k <= 64 && p == PowerOfTen(k) && Shifted(Value(b) * p + n, a) % 97 == 1
    ensures Shifted(Value(a) * p + n, b) % 97 == 1 <==> a == b || BlindAround(a, b, p)
  {
    hide Shifted, PowerOfTen, IsDigit, IsLetter, Value;
    var x, y := Shifted(Value(b) * p + n, a), Shifted(Value(a) * p + n, b);
    if SameKind(a, b) {
      SameKindBorder(k, p, n, a, b);
      KindsDiffer(a, b);
    } else if IsDigit(a) {
      MixedDifference(p, n, a, b);
      MixedBorder(x, y, 100 * (Value(b) - Value(a)) * p + 10 * Value(a) - Value(b));
    } else {
      MixedDifference(p, n, b, a);
      MixedBorder(y, x, 100 * (Value(a) - Value(b)) * p + 10 * Value(b) - Value(a));
    }
  }

  lemma KindsDiffer(a: char, b: char)
    requires SameKind(a, b)
    ensures IsDigit(a) <==> IsDigit(b)
  {}

  lemma SwapAtBorder(s: string)
    requires Valid(s)
    ensures Valid(s[3 := s[4]][4 := s[3]]) <==> s[3] == s[4] || BlindBorder(s)
  {
    hide Number, Shifted, Expand, BlindAround, PowerOfTen;
    var swapped, t := s[3 := s[4]][4 := s[3]], Between(s);
    assert IsAlnum(swapped) && Between(swapped) == t;
    BorderNumber(s);
    BorderNumber(swapped);
    BorderRemainders(|Expand(t)|, PowerOfTen(|Expand(t)|), Number(t), s[3], s[4]);
  }

  /**
   Exchanging two adjacent characters is detected unless they are equal or a letter of value
   11 * d next to the digit d.  Rearranging separates positions 3 and 4: there two digits or
   two letters are always detected, and a letter next to a digit unless the sum says so.
   */
  lemma TranspositionDetectedIff(s: string, i: nat)
    requires Valid(s) && i + 1 < |s|
    ensures Valid(s[i := s[i + 1]][i + 1 := s[i]]) <==>
      s[i] == s[i + 1] || if i == 3 then BlindBorder(s) else BlindPair(s[i], s[i + 1])
  {
    if i == 3 { SwapAtBorder(s); } else { SwapInside(s, i); }
  }

  // ---- Mistakes that are accepted -----------------------------------------------------------

  function Zeros(k: nat): (s: string)
    ensures |s| == k && IsDigits(s) && IsAlnum(s)
  {
    seq(k, _ => '0')
  }

  lemma {:induction false} NumberOfZeros(k: nat)
    ensures Number(Zeros(k)) == 0 && |Expand(Zeros(k))| == k
  {
    if k > 0 {
      NumberOfZeros(k - 1);
      assert Zeros(k) == Zeros(k - 1) + ['0'];
      Append(Zeros(k - 1), '0', Zeros(k));
    }
  }

  lemma Append(p: string, c: char, all: string)
    requires IsAlnum(p) && (IsDigit(c) || IsLetter(c)) && all == p + [c]
    ensures IsAlnum(all) && Number(all) == Shifted(Number(p), c)
    ensures |Expand(all)| == |Expand(p)| + if IsDigit(c) then 1 else 2
  {
    NumberSnoc(p, c);
    assert all[..|p|] == p;
  }

  lemma ExpandOfNothing()
    ensures Expand("") == []
  {}

  /** Whatever follows the zeros is all that counts. */
  lemma AfterZeros(k: nat, t: string)
    requires IsAlnum(t)
    ensures IsAlnum(Zeros(k) + t) && Number(Zeros(k) + t) == Number(t)
  {
    hide Number, Zeros;
    NumberOfZeros(k);
    NumberAppend(Zeros(k), t);
  }

  /** A text of four characters, zeros and a tail: the number is that of the tail and the four. */
  lemma ZerosAccepted(four: string, k: nat, tail: string, number: nat)
    requires |four| == 4 && IsAlnum(four) && IsAlnum(tail) && 15 <= 4 + k + |tail| <= 34
    requires IsAlnum(tail + four) ==> Number(tail + four) == number
    requires number % 97 == 1
    ensures Valid(four + Zeros(k) + tail)
  {
    hide Number, Zeros;
    var s := four + Zeros(k) + tail;
    assert s[4..] == Zeros(k) + tail && s[..4] == four;
    assert Rearranged(s) == Zeros(k) + (tail + four);
    AfterZeros(k, tail + four);
  }

  lemma Number40NO97()
    ensures IsAlnum("40NO97") && Number("40NO97") == 40232497 && |Expand("40NO97")| == 8
  {
    hide Number, Expand;
    NumberOfNothing();
    ExpandOfNothing();
    Append("", '4', "4");
    Append("4", '0', "40");
    Append("40", 'N', "40N");
    Append("40N", 'O', "40NO");
    Append("40NO", '9', "40NO9");
    Append("40NO9", '7', "40NO97");
  }

  lemma Number40NO00()
    ensures IsAlnum("40NO00") && Number("40NO00") == 40232400 && |Expand("40NO00")| == 8
  {
    hide Number, Expand;
    NumberOfNothing();
    ExpandOfNothing();
    Append("", '4', "4");
    Append("4", '0', "40");
    Append("40", 'N', "40N");
    Append("40N", 'O', "40NO");
    Append("40NO", '0', "40NO0");
    Append("40NO0", '0', "40NO00");
  }

  lemma Number4SNO97()
    ensures IsAlnum("4SNO97") && Number("4SNO97") == 428232497 && |Expand("4SNO97")| == 9
  {
    hide Number, Expand;
    NumberOfNothing();
    ExpandOfNothing();
    Append("", '4', "4");
    Append("4", 'S', "4S");
    Append("4S", 'N', "4SN");
    Append("4SN", 'O', "4SNO");
    Append("4SNO", '9', "4SNO9");
    Append("4SNO9", '7', "4SNO97");
  }

  lemma NumberGB18()
    ensures IsAlnum("GB18") && Number("GB18") == 161118 && |Expand("GB18")| == 6
  {
    hide Number, Expand;
    NumberOfNothing();
    ExpandOfNothing();
    Append("", 'G', "G");
    Append("G", 'B', "GB");
    Append("GB", '1', "GB1");
    Append("GB1", '8', "GB18");
  }

  lemma NumberG1B8()
    ensures IsAlnum("G1B8") && Number("G1B8") == 161118 && |Expand("G1B8")| == 6
  {
    hide Number, Expand;
    NumberOfNothing();
    ExpandOfNothing();
    Append("", 'G', "G");
    Append("G", '1', "G1");
    Append("G1", 'B', "G1B");
    Append("G1B", '8', "G1B8");
  }

  lemma NumberGB04()
    ensures IsAlnum("GB04") && Number("GB04") == 161104 && |Expand("GB04")| == 6
  {
    hide Number, Expand;
    NumberOfNothing();
    ExpandOfNothing();
    Append("", 'G', "G");
    Append("G", 'B', "GB");
    Append("GB", '0', "GB0");
    Append("GB0", '4', "GB04");
  }

  lemma NumberGB0J()
    ensures IsAlnum("GB0J") && Number("GB0J") == 1611019 && |Expand("GB0J")| == 7
  {
    hide Number, Expand;
    NumberOfNothing();
    ExpandOfNothing();
    Append("", 'G', "G");
    Append("G", 'B', "GB");
    Append("GB", '0', "GB0");
    Append("GB0", 'J', "GB0J");
  }

  /** Check digits 00 are accepted for 97. */
  lemma WrongPairAccepted()
    ensures Valid("NO97" + Zeros(9) + "40") && Valid("NO00" + Zeros(9) + "40")
  {
    hide Number, Zeros, Valid;
    Number40NO97();
    Number40NO00();
    assert "40" + "NO97" == "40NO97" && "40" + "NO00" == "40NO00";
    ZerosAccepted("NO97", 9, "40", 40232497);
    ZerosAccepted("NO00", 9, "40", 40232400);
  }

  /** "1B" is accepted for "B1": both are read as 111. */
  lemma WrongOrderAccepted()
    ensures Valid("GB18" + Zeros(11)) && Valid("G1B8" + Zeros(11))
  {
    hide Number, Zeros, Valid;
    NumberGB18();
    NumberG1B8();
    assert "" + "GB18" == "GB18" && "" + "G1B8" == "G1B8";
    ZerosAccepted("GB18", 11, "", 161118);
    ZerosAccepted("G1B8", 11, "", 161118);
    assert "GB18" + Zeros(11) + "" == "GB18" + Zeros(11) && "G1B8" + Zeros(11) + "" == "G1B8" + Zeros(11);
  }

  /** "S" is accepted for the "0" at the end. */
  lemma WrongLetterAccepted()
    ensures Valid("NO97" + Zeros(9) + "40") && Valid("NO97" + Zeros(9) + "4S")
  {
    hide Number, Zeros, Valid;
    WrongPairAccepted();
    Number4SNO97();
    assert "4S" + "NO97" == "4SNO97";
    ZerosAccepted("NO97", 9, "4S", 428232497);
  }

  lemma LargePowers()
    ensures PowerOfTen(6) == 1_000_000 && PowerOfTen(7) == 10_000_000 && PowerOfTen(10) == 10_000_000_000
  {
    SmallPowers();
    PowerSplits(5, 5);
  }

  /** A text whose fifth character stands before zeros only. */
  lemma BorderNumberZeros(first: char, four: string, k: nat)
    requires (IsDigit(first) || IsLetter(first)) && IsAlnum(four)
    ensures var all := [first] + Zeros(k) + four;
            IsAlnum(all) && Number(all) == Value(first) * PowerOfTen(k) * PowerOfTen(|Expand(four)|) + Number(four)
  {
    hide Number, Zeros, Expand, PowerOfTen;
    NumberOfOne(first);
    NumberOfZeros(k);
    NumberAppend([first], Zeros(k));
    NumberAppend([first] + Zeros(k), four);
  }

  lemma BorderAccepted(four: string, first: char)
    requires |four| == 4 && IsAlnum(four) && (IsDigit(first) || IsLetter(first))
    requires (Value(first) * PowerOfTen(10) * PowerOfTen(|Expand(four)|) + Number(four)) % 97 == 1
    ensures Valid(four + [first] + Zeros(10))
  {
    hide Number, Zeros, Expand, PowerOfTen;
    var s := four + [first] + Zeros(10);
    assert s[4..] == [first] + Zeros(10) && s[..4] == four;
    BorderNumberZeros(first, four, 10);
  }

  /** At positions 3 and 4, "J4" is accepted for "4J". */
  lemma WrongBorderAccepted()
    ensures Valid("GB04" + "J" + Zeros(10)) && Valid("GB0J" + "4" + Zeros(10))
  {
    hide Number, Zeros, Valid, Expand, PowerOfTen;
    LargePowers();
    NumberGB04();
    NumberGB0J();
    assert ['J'] == "J" && ['4'] == "4";
    BorderAccepted("GB04", 'J');
    BorderAccepted("GB0J", '4');
  }
}
