/**
 What the text that is hashed says about a request (server/server.go): printed numbers, joined
 fields, and which of the configured keys it can tell apart.
 */
module CacheKeys {
  import opened Text
  import opened Validate
  import opened Epc
  import opened CleanTheorems
  import opened Handler
  import opened Payloads
  import AmountTheorems
  import Iban

  // ---- Printed numbers determine themselves ----------------------------------------------------

  lemma PrintedInjective(m: nat, n: nat)
    requires Printed(m) == Printed(n)
    ensures m == n
  {
    PrintedValue(m);
    PrintedValue(n);
  }

  lemma TenthFits(n: nat, width: nat)
    requires width > 0 && n < PowerOfTen(width)
    ensures n / 10 < PowerOfTen(width - 1)
  {}

  lemma PaddedStep(n: nat, width: nat)
    requires width > 0
    ensures Padded(n, width) == Padded(n / 10, width - 1) + [DigitChar(n % 10)]
  {}

  lemma PaddedNothing(n: nat)
    requires n < PowerOfTen(0)
    ensures ValueOf(Padded(n, 0)) == n
  {}

  lemma {:induction false} PaddedValue(n: nat, width: nat)
    requires n < PowerOfTen(width)
    ensures ValueOf(Padded(n, width)) == n
  {
    hide Padded, PowerOfTen, ValueOf;
    if width == 0 {
      PaddedNothing(n);
    } else {
      TenthFits(n, width);
      PaddedStep(n, width);
      PaddedValue(n / 10, width - 1);
      ValueSnoc(Padded(n / 10, width - 1), DigitChar(n % 10));
    }
  }

  lemma SameQuotient(m: nat, n: nat, u: nat)
    requires u > 0 && m / u == n / u && m % u == n % u
    ensures m == n
  {
    assert m == u * (m / u) + m % u && n == u * (n / u) + n % u;
  }

  lemma PointSplits(a: string, b: string, c: string, d: string)
    requires IsDigits(a) && IsDigits(b) && IsDigits(c) && IsDigits(d) && a + "." + b == c + "." + d
    ensures a == c && b == d
  {
    AmountTheorems.NumberParts(a, '.', b);
    AmountTheorems.NumberParts(c, '.', d);
    assert (a + "." + b)[..|a|] == a && (c + "." + d)[..|c|] == c;
  }

  lemma WithPointInjective(m: nat, n: nat, places: nat)
    requires WithPoint(m, PowerOfTen(places), places) == WithPoint(n, PowerOfTen(places), places)
    ensures m == n
  {
    hide Printed, Padded, ValueOf, PowerOfTen;
    var u := PowerOfTen(places);
    PointSplits(Printed(m / u), Padded(m % u, places), Printed(n / u), Padded(n % u, places));
    PrintedInjective(m / u, n / u);
    PaddedValue(m % u, places);
    PaddedValue(n % u, places);
    SameQuotient(m, n, u);
  }

  lemma WithPointStart(n: nat, unit: nat, places: nat)
    requires unit > 0
    ensures WithPoint(n, unit, places) != "" && IsDigit(WithPoint(n, unit, places)[0])
  {
    hide Printed, Padded;
    var whole := Printed(n / unit);
    assert whole[0] == (whole + "." + Padded(n % unit, places))[0];
  }

  /** Two numbers print alike exactly when they have the same sign and round to the same multiple. */
  lemma PrintFixedAlikeIff(x: real, y: real, places: nat)
    ensures PrintFixed(x, places) == PrintFixed(y, places)
      <==> (x < 0.0 <==> y < 0.0) && Scaled(x, places) == Scaled(y, places)
  {
    hide WithPoint, Scaled, PowerOfTen;
    var u := PowerOfTen(places);
    var a, b := WithPoint(Scaled(x, places), u, places), WithPoint(Scaled(y, places), u, places);
    WithPointStart(Scaled(x, places), u, places);
    WithPointStart(Scaled(y, places), u, places);
    SignShows(x < 0.0, a, y < 0.0, b);
    if a == b { WithPointInjective(Scaled(x, places), Scaled(y, places), places); }
  }

  lemma SignShows(m: bool, a: string, n: bool, b: string)
    requires a != "" && b != "" && IsDigit(a[0]) && IsDigit(b[0])
    ensures (if m then "-" else "") + a == (if n then "-" else "") + b <==> m == n && a == b
  {
    var s, t := (if m then "-" else "") + a, (if n then "-" else "") + b;
    assert s[0] == (if m then '-' else a[0]) && t[0] == (if n then '-' else b[0]);
    assert a == s[if m then 1 else 0..] && b == t[if n then 1 else 0..];
  }

  /** The same sign and, to so many places, the same nearest number. */
  predicate Alike(x: real, y: real, places: nat) {
    (x < 0.0 <==> y < 0.0) && Scaled(x, places) == Scaled(y, places)
  }

  /** `n` units of that many places are nearest to |x|; of two nearest ones it is the even one. */
  predicate Nearest(x: real, places: nat, n: int) {
    var exact := (if x < 0.0 then -x else x) * PowerOfTen(places) as real;
    && n as real - 0.5 <= exact <= n as real + 0.5
    && (exact == n as real - 0.5 || exact == n as real + 0.5 ==> n % 2 == 0)
  }

  lemma ScaledIff(x: real, places: nat, n: int)
    ensures n == Scaled(x, places) <==> Nearest(x, places, n)
  {
    HalfEvenIff((if x < 0.0 then -x else x) * PowerOfTen(places) as real, n) by { hide PowerOfTen; }
    hide PowerOfTen, RoundHalfEven;
  }

  lemma HalfEvenIff(exact: real, n: int)
    requires exact >= 0.0
    ensures n == RoundHalfEven(exact) <==>
      && n as real - 0.5 <= exact <= n as real + 0.5
      && (exact == n as real - 0.5 || exact == n as real + 0.5 ==> n % 2 == 0)
  {
    var f := exact.Floor;
    var d := exact - f as real;
    assert 0.0 <= d < 1.0 && exact == f as real + d;
  }

  /** What is printed: the sign, the nearest number of that many places, with all its places. */
  ghost predicate Shown(x: real, places: nat, s: string) {
    exists whole, frac ::
      && s == (if x < 0.0 then "-" else "") + whole + "." + frac
      && Numeral(whole) && IsDigits(frac) && |frac| == places
      && Nearest(x, places, ValueOf(whole) * PowerOfTen(places) + ValueOf(frac))
  }

  lemma QuotientAndRest(n: nat, u: nat)
    requires u > 0
    ensures n / u >= 0 && 0 <= n % u < u && n == n / u * u + n % u
  {}

  lemma PrintFixedShows(x: real, places: nat)
    ensures Shown(x, places, PrintFixed(x, places))
  {
    hide Printed, Padded, ValueOf, Nearest, Scaled, PowerOfTen;
    var n, u := Scaled(x, places), PowerOfTen(places);
    ScaledIff(x, places, n);
    QuotientAndRest(n, u);
    ShownFrom(x, places, n, n / u, n % u);
  }

  lemma ShownFrom(x: real, places: nat, n: nat, q: nat, r: nat)
    requires Nearest(x, places, n) && r < PowerOfTen(places) && n == q * PowerOfTen(places) + r
    ensures Shown(x, places, (if x < 0.0 then "-" else "") + (Printed(q) + "." + Padded(r, places)))
  {
    hide Printed, Padded, ValueOf, Nearest, Numeral, PowerOfTen;
    var sign, whole, frac := if x < 0.0 then "-" else "", Printed(q), Padded(r, places);
    PrintedIff(q, whole);
    PaddedValue(r, places);
    assert sign + (whole + "." + frac) == sign + whole + "." + frac;
  }

  lemma FixedLacksPipe(x: real, places: nat)
    ensures Lacks(PrintFixed(x, places), '|')
  {}

  // ---- Joined fields ----------------------------------------------------------------------------

  ghost predicate PipeFree(f: seq<string>) {
    forall i :: 0 <= i < |f| ==> Lacks(f[i], '|')
  }

  lemma {:induction false} JoinSnoc(f: seq<string>, x: string)
    requires f != []
    ensures Join(f + [x], "|") == Join(f, "|") + "|" + x
  {
    if |f| > 1 {
      JoinSnoc(f[1..], x);
      assert (f + [x])[1..] == f[1..] + [x];
      assert f[0] + "|" + (Join(f[1..], "|") + "|" + x) == (f[0] + "|" + Join(f[1..], "|")) + "|" + x;
    } else {
      assert (f + [x])[1..] == [x];
    }
  }

  lemma LastField(s: string, x: string, t: string, y: string)
    requires Lacks(x, '|') && Lacks(y, '|')
    ensures s + "|" + x == t + "|" + y <==> s == t && x == y
  {
    var u, v := s + "|" + x, t + "|" + y;
    if u == v {
      assert u[|s|] == '|' && v[|t|] == '|';
      assert forall i :: |s| < i < |u| ==> u[i] == x[i - |s| - 1];
      assert forall i :: |t| < i < |v| ==> v[i] == y[i - |t| - 1];
      assert |s| == |t|;
      assert u[..|s|] == s && v[..|t|] == t && u[|s| + 1..] == x && v[|t| + 1..] == y;
    }
  }

  /** Fields without '|' at the end of a list can be read off the joined text, whatever is in front. */
  lemma {:induction false} TailsSplit(a: seq<string>, c: seq<string>, b: seq<string>, d: seq<string>)
    requires a != [] && b != [] && |c| == |d| && PipeFree(c) && PipeFree(d)
    ensures Join(a + c, "|") == Join(b + d, "|") <==> Join(a, "|") == Join(b, "|") && c == d
    decreases |c|
  {
    hide Join;
    if c == [] {
      assert a + c == a && b + d == b;
    } else {
      var n := |c| - 1;
      TailsSplit(a, c[..n], b, d[..n]);
      assert a + c == (a + c[..n]) + [c[n]] && b + d == (b + d[..n]) + [d[n]];
      JoinSnoc(a + c[..n], c[n]);
      JoinSnoc(b + d[..n], d[n]);
      LastField(Join(a + c[..n], "|"), c[n], Join(b + d[..n], "|"), d[n]);
      assert c == c[..n] + [c[n]] && d == d[..n] + [d[n]];
    }
  }

  // ---- What requests with one hashed text share -----------------------------------------------------

  /** No '|' in the texts a customer chooses. */
  ghost predicate PlainText(c: Clean) {
    && Lacks(c.name, '|') && Lacks(c.purpose, '|') && Lacks(c.remittanceReference, '|')
    && Lacks(c.remittanceText, '|') && Lacks(c.information, '|')
  }

  lemma CommonPipeFreeIff(k: Casing, job: Job)
    requires Stable(k, job.cleaned)
    ensures PipeFree(CommonFields(job)) <==> PlainText(job.cleaned)
  {
    hide PrintFixed, Iban.Valid;
    ValidIsCode(job.cleaned.iban);
    FixedLacksPipe(job.ratio, 4);
    var f, c := CommonFields(job), job.cleaned;
    assert f[0] == c.name && f[3] == c.purpose && f[4] == c.remittanceReference && f[5] == c.remittanceText && f[6] == c.information;
  }

  lemma CommonDetermine(k: Casing, a: Job, b: Job)
    requires Stable(k, a.cleaned) && Stable(k, b.cleaned) && CommonFields(a) == CommonFields(b)
    ensures a.cleaned == b.cleaned && a.opt == b.opt && PrintFixed(a.ratio, 4) == PrintFixed(b.ratio, 4)
  {
    hide PrintFixed, Iban.Valid, Printed;
    var f, g := CommonFields(a), CommonFields(b);
    assert f[0] == g[0] && f[1] == g[1] && f[2] == g[2] && f[3] == g[3] && f[4] == g[4] && f[5] == g[5] && f[6] == g[6];
    assert f[7] == g[7] && f[8] == g[8] && f[9] == g[9] && f[10] == g[10];
    PrintedInjective(a.cleaned.amountCents, b.cleaned.amountCents);
    PrintedInjective(a.opt.size, b.opt.size);
    PrintedInjective(EccNumber(a.opt.ecc), EccNumber(b.opt.ecc));
  }

  /** The part of the hashed text that comes from the settings of a key. */
  function KeyText(key: KeyConfig): string {
    Join(KeyFields(key), "|")
  }

  function Head(job: Job): (f: seq<string>)
    ensures f != []
  {
    if job.isPublic then ["p"] else ["a"] + KeyFields(job.key)
  }

  lemma FieldsAreHeadAndCommon(job: Job)
    ensures Fields(job) == Head(job) + CommonFields(job)
  {}

  lemma HeadText(job: Job)
    ensures Join(Head(job), "|") == if job.isPublic then "p" else "a|" + KeyText(job.key)
  {
    hide KeyFields;
    if !job.isPublic { assert Head(job)[1..] == KeyFields(job.key); }
  }

  lemma HeadsAlikeIff(a: Job, b: Job)
    ensures Join(Head(a), "|") == Join(Head(b), "|")
      <==> a.isPublic == b.isPublic && (!a.isPublic ==> KeyText(a.key) == KeyText(b.key))
  {
    hide KeyText, Head, Join;
    HeadText(a);
    HeadText(b);
    var x, y := "a|" + KeyText(a.key), "a|" + KeyText(b.key);
    assert x[0] == 'a' && y[0] == 'a' && "p"[0] == 'p';
    assert x[2..] == KeyText(a.key) && y[2..] == KeyText(b.key);
  }

  /** The hashed text of an anonymous request starts otherwise than that of a request with a key. */
  lemma PreimageStart(job: Job)
    ensures Preimage(job) != "" && (Preimage(job)[0] == 'p' <==> job.isPublic)
  {
    hide CommonFields, KeyFields;
    var f := Fields(job);
    assert Join(f, "|") == f[0] + "|" + Join(f[1..], "|");
  }

  /** Two requests without '|' in their own texts are hashed alike exactly when their fields and their keys' texts agree. */
  lemma PreimageAlikeIff(k: Casing, a: Job, b: Job)
    requires Stable(k, a.cleaned) && Stable(k, b.cleaned) && PlainText(a.cleaned) && PlainText(b.cleaned)
    ensures Preimage(a) == Preimage(b) <==>
      && a.isPublic == b.isPublic && a.cleaned == b.cleaned && a.opt == b.opt && Alike(a.ratio, b.ratio, 4)
      && (!a.isPublic ==> KeyText(a.key) == KeyText(b.key))
  {
    hide KeyText, Head, Join, Fields, Stable, PlainText, PrintFixed, Scaled;
    CommonPipeFreeIff(k, a);
    CommonPipeFreeIff(k, b);
    FieldsAreHeadAndCommon(a);
    FieldsAreHeadAndCommon(b);
    TailsSplit(Head(a), CommonFields(a), Head(b), CommonFields(b));
    HeadsAlikeIff(a, b);
    PrintFixedAlikeIff(a.ratio, b.ratio, 4);
    if CommonFields(a) == CommonFields(b) { CommonDetermine(k, a, b); }
  }

  /** The digits of a number, without leading zeros. */
  predicate NumeralOf(s: string, n: nat) {
    Numeral(s) && ValueOf(s) == n
  }

  /** What an anonymous request adds to the hashed text, and a request under a key after its key's fields. */
  ghost predicate CommonText(job: Job, f: seq<string>) {
    && |f| == 11
    && f[..7] == [job.cleaned.name, job.cleaned.iban, job.cleaned.bic, job.cleaned.purpose,
                  job.cleaned.remittanceReference, job.cleaned.remittanceText, job.cleaned.information]
    && NumeralOf(f[7], job.cleaned.amountCents) && NumeralOf(f[8], job.opt.size)
    && f[9] == (if job.opt.ecc == Highest then "3" else "1") && Shown(job.ratio, 4, f[10])
  }

  ghost predicate KeySettings(key: KeyConfig, f: seq<string>) {
    && |f| == 15
    && f[..5] == [key.name, key.fg, key.bg, key.fgGradient.from, key.fgGradient.to]
    && f[6..8] == [key.bgGradient.from, key.bgGradient.to]
    && f[9..12] == [key.logoPath, key.logoBGShape, key.moduleStyle]
    && Shown(key.fgGradient.angle, 3, f[5]) && Shown(key.bgGradient.angle, 3, f[8]) && Shown(key.moduleRadius, 3, f[12])
    && NumeralOf(f[13], key.cornerRadius) && NumeralOf(f[14], key.quietZone)
  }

  lemma CommonTextIs(job: Job)
    ensures CommonText(job, CommonFields(job))
  {
    hide Printed, PrintFixed, Shown, Numeral, ValueOf;
    PrintFixedShows(job.ratio, 4);
    PrintedIff(job.cleaned.amountCents, Printed(job.cleaned.amountCents));
    PrintedIff(job.opt.size, Printed(job.opt.size));
    LevelPrinted(job.opt.ecc);
    var c, f := job.cleaned, CommonFields(job);
    assert f[..7] == [c.name, c.iban, c.bic, c.purpose, c.remittanceReference, c.remittanceText, c.information];
  }

  lemma LevelPrinted(e: Ecc)
    ensures Printed(EccNumber(e)) == if e == Highest then "3" else "1"
  {
    PrintedDigit(EccNumber(e));
  }

  lemma KeySettingsAre(key: KeyConfig)
    ensures KeySettings(key, KeyFields(key))
  {
    hide Printed, PrintFixed, Shown, Numeral, ValueOf;
    PrintFixedShows(key.fgGradient.angle, 3);
    PrintFixedShows(key.bgGradient.angle, 3);
    PrintFixedShows(key.moduleRadius, 3);
    PrintedIff(key.cornerRadius, Printed(key.cornerRadius));
    PrintedIff(key.quietZone, Printed(key.quietZone));
    var f := KeyFields(key);
    assert f[..5] == [key.name, key.fg, key.bg, key.fgGradient.from, key.fgGradient.to];
    assert f[6..8] == [key.bgGradient.from, key.bgGradient.to];
    assert f[9..12] == [key.logoPath, key.logoBGShape, key.moduleStyle];
  }

  /** "p" or "a", the settings of the key if there is one, and the request. */
  ghost predicate HashedFields(job: Job, f: seq<string>) {
    if job.isPublic then |f| == 12 && f[0] == "p" && CommonText(job, f[1..])
    else |f| == 27 && f[0] == "a" && KeySettings(job.key, f[1..16]) && CommonText(job, f[16..])
  }

  /** The hashed text, field by field. */
  lemma HashedText(job: Job)
    ensures exists f :: HashedFields(job, f) && LaidOut(Preimage(job), f, '|')
  {
    hide CommonFields, KeyFields, CommonText, KeySettings, LaidOut, Join;
    var f := Fields(job);
    CommonTextIs(job);
    if job.isPublic {
      assert f[1..] == CommonFields(job);
    } else {
      KeySettingsAre(job.key);
      assert f[1..16] == KeyFields(job.key) && f[16..] == CommonFields(job);
    }
    LaidOutIff(Preimage(job), f, '|');
  }

  // ---- Keys -------------------------------------------------------------------------------------------

  /** Equal texts and sizes, and fractions that print alike. */
  predicate AlikeKeys(a: KeyConfig, b: KeyConfig) {
    && a.name == b.name && a.fg == b.fg && a.bg == b.bg
    && a.fgGradient.from == b.fgGradient.from && a.fgGradient.to == b.fgGradient.to
    && a.bgGradient.from == b.bgGradient.from && a.bgGradient.to == b.bgGradient.to
    && a.logoPath == b.logoPath && a.logoBGShape == b.logoBGShape && a.moduleStyle == b.moduleStyle
    && a.cornerRadius == b.cornerRadius && a.quietZone == b.quietZone
    && Alike(a.fgGradient.angle, b.fgGradient.angle, 3) && Alike(a.bgGradient.angle, b.bgGradient.angle, 3)
    && Alike(a.moduleRadius, b.moduleRadius, 3)
  }

  /** The printed fields of two keys agree exactly when the keys are alike; the size of their pictures is not among them. */
  lemma KeyFieldsAlikeIff(a: KeyConfig, b: KeyConfig)
    ensures KeyFields(a) == KeyFields(b) <==> AlikeKeys(a, b)
  {
    hide PrintFixed, Printed, Scaled;
    PrintFixedAlikeIff(a.fgGradient.angle, b.fgGradient.angle, 3);
    PrintFixedAlikeIff(a.bgGradient.angle, b.bgGradient.angle, 3);
    PrintFixedAlikeIff(a.moduleRadius, b.moduleRadius, 3);
    if KeyFields(a) == KeyFields(b) {
      var f, g := KeyFields(a), KeyFields(b);
      assert f[0] == g[0] && f[1] == g[1] && f[2] == g[2] && f[3] == g[3] && f[4] == g[4] && f[5] == g[5] && f[6] == g[6];
      assert f[7] == g[7] && f[8] == g[8] && f[9] == g[9] && f[10] == g[10] && f[11] == g[11] && f[12] == g[12];
      assert f[13] == g[13] && f[14] == g[14];
      PrintedInjective(a.cornerRadius, b.cornerRadius);
      PrintedInjective(a.quietZone, b.quietZone);
    }
  }

  ghost predicate PlainKey(key: KeyConfig) {
    && Lacks(key.name, '|') && Lacks(key.fg, '|') && Lacks(key.bg, '|')
    && Lacks(key.fgGradient.from, '|') && Lacks(key.fgGradient.to, '|')
    && Lacks(key.bgGradient.from, '|') && Lacks(key.bgGradient.to, '|')
    && Lacks(key.logoPath, '|') && Lacks(key.logoBGShape, '|') && Lacks(key.moduleStyle, '|')
  }

  lemma KeyPipeFree(key: KeyConfig)
    requires PlainKey(key)
    ensures PipeFree(KeyFields(key))
  {
    hide PrintFixed;
    FixedLacksPipe(key.fgGradient.angle, 3);
    FixedLacksPipe(key.bgGradient.angle, 3);
    FixedLacksPipe(key.moduleRadius, 3);
  }

  /** Keys without '|' in their settings have one text exactly when they are alike. */
  lemma KeyTextAlikeIff(a: KeyConfig, b: KeyConfig)
    requires PlainKey(a) && PlainKey(b)
    ensures KeyText(a) == KeyText(b) <==> AlikeKeys(a, b)
  {
    hide PlainKey, KeyFields, Split, Join;
    KeyPipeFree(a);
    KeyPipeFree(b);
    KeyFieldsAlikeIff(a, b);
    SplitsBackIff(KeyFields(a), '|');
    SplitsBackIff(KeyFields(b), '|');
  }

  // ---- What a server's keys must satisfy ------------------------------------------------------------------

  /** A key that can be sent: blank ones count as no key at all. */
  predicate Usable(cfg: ServerConfig, apiKey: string) {
    apiKey in cfg.keys && TrimSpace(apiKey) != ""
  }

  /** All that a key contributes to the arguments of the renderer. */
  function KeyPlan(cfg: ServerConfig, key: KeyConfig, payload: string): Plan {
    PlanOf(false, payload, key, cfg.logoMaxRatio, OptionsFor(cfg, false, key))
  }

  lemma KeyPlanPayload(cfg: ServerConfig, a: KeyConfig, b: KeyConfig, payload: string)
    ensures KeyPlan(cfg, a, payload) == KeyPlan(cfg, b, payload) <==> KeyPlan(cfg, a, "") == KeyPlan(cfg, b, "")
  {}

  /** Any two keys with the same hashed text and the same size and correction level draw alike. */
  ghost predicate KeysDistinguished(cfg: ServerConfig) {
    forall x, y ::
      && Usable(cfg, x) && Usable(cfg, y)
      && KeyText(cfg.keys[x]) == KeyText(cfg.keys[y])
      && OptionsFor(cfg, false, cfg.keys[x]) == OptionsFor(cfg, false, cfg.keys[y])
      ==> KeyPlan(cfg, cfg.keys[x], "") == KeyPlan(cfg, cfg.keys[y], "")
  }

  /** The fractions that are drawn agree: angles of gradients in use, and the module radius when modules are styled. */
  predicate DrawnAlike(a: KeyConfig, b: KeyConfig) {
    && (OptionalGradient(a.fgGradient).Some? ==> a.fgGradient.angle == b.fgGradient.angle)
    && (OptionalGradient(a.bgGradient).Some? ==> a.bgGradient.angle == b.bgGradient.angle)
    && (Styled(a) ==> a.moduleRadius == b.moduleRadius)
  }

  lemma AlikePlansIff(cfg: ServerConfig, a: KeyConfig, b: KeyConfig)
    requires AlikeKeys(a, b) && OptionsFor(cfg, false, a) == OptionsFor(cfg, false, b)
    ensures KeyPlan(cfg, a, "") == KeyPlan(cfg, b, "") <==> DrawnAlike(a, b)
  {
    hide Alike;
  }

  /** What this means for the settings file: keys that print alike must agree in every fraction that is drawn. */
  lemma KeysDistinguishedIff(cfg: ServerConfig)
    requires forall x :: Usable(cfg, x) ==> PlainKey(cfg.keys[x])
    ensures KeysDistinguished(cfg) <==>
      forall x, y ::
        && Usable(cfg, x) && Usable(cfg, y) && AlikeKeys(cfg.keys[x], cfg.keys[y])
        && OptionsFor(cfg, false, cfg.keys[x]) == OptionsFor(cfg, false, cfg.keys[y])
        ==> DrawnAlike(cfg.keys[x], cfg.keys[y])
  {
    hide KeyText, PlainKey, AlikeKeys, DrawnAlike, KeyPlan, OptionsFor;
    forall x, y | Usable(cfg, x) && Usable(cfg, y) && OptionsFor(cfg, false, cfg.keys[x]) == OptionsFor(cfg, false, cfg.keys[y])
      ensures KeyText(cfg.keys[x]) == KeyText(cfg.keys[y]) <==> AlikeKeys(cfg.keys[x], cfg.keys[y])
      ensures AlikeKeys(cfg.keys[x], cfg.keys[y]) ==>
        (KeyPlan(cfg, cfg.keys[x], "") == KeyPlan(cfg, cfg.keys[y], "") <==> DrawnAlike(cfg.keys[x], cfg.keys[y]))
    {
      KeyTextAlikeIff(cfg.keys[x], cfg.keys[y]);
      if AlikeKeys(cfg.keys[x], cfg.keys[y]) { AlikePlansIff(cfg, cfg.keys[x], cfg.keys[y]); }
    }
  }

  /** At most three decimals. */
  predicate ThreeDecimals(x: real) {
    (x * 1000.0).Floor as real == x * 1000.0
  }

  lemma ScaledExact(x: real)
    requires ThreeDecimals(x)
    ensures Scaled(x, 3) as real == if x < 0.0 then -x * 1000.0 else x * 1000.0
  {
    assert PowerOfTen(3) == 1000;
    var n := (x * 1000.0).Floor;
    assert -x * 1000.0 == (-n) as real;
    assert ((-n) as real).Floor == -n;
  }

  lemma ThreeDecimalsAlike(x: real, y: real)
    requires ThreeDecimals(x) && ThreeDecimals(y) && Alike(x, y, 3)
    ensures x == y
  {
    ScaledExact(x);
    ScaledExact(y);
  }

  /** It is enough that no setting of a key contains '|' and no fraction has more than three decimals. */
  lemma PlainKeysDistinguished(cfg: ServerConfig)
    requires forall x :: Usable(cfg, x) ==>
      var key := cfg.keys[x];
      && PlainKey(key) && ThreeDecimals(key.moduleRadius)
      && ThreeDecimals(key.fgGradient.angle) && ThreeDecimals(key.bgGradient.angle)
    ensures KeysDistinguished(cfg)
  {
    hide KeyText, PlainKey, ThreeDecimals, Alike, KeysDistinguished, OptionsFor;
    KeysDistinguishedIff(cfg);
    forall x, y |
      && Usable(cfg, x) && Usable(cfg, y) && AlikeKeys(cfg.keys[x], cfg.keys[y])
      && OptionsFor(cfg, false, cfg.keys[x]) == OptionsFor(cfg, false, cfg.keys[y])
      ensures DrawnAlike(cfg.keys[x], cfg.keys[y])
    {
      var a, b := cfg.keys[x], cfg.keys[y];
      ThreeDecimalsAlike(a.fgGradient.angle, b.fgGradient.angle);
      ThreeDecimalsAlike(a.bgGradient.angle, b.bgGradient.angle);
      ThreeDecimalsAlike(a.moduleRadius, b.moduleRadius);
    }
  }

  /** And it fails as soon as two usable keys differ only in the angle of a gradient in use and the angles print alike. */
  lemma AlikeAnglesClash(cfg: ServerConfig, x: string, y: string, angle: real)
    requires Usable(cfg, x) && Usable(cfg, y)
    requires var g := cfg.keys[x].fgGradient;
             && g.from != "" && g.to != "" && angle != g.angle && Alike(angle, g.angle, 3)
             && cfg.keys[y] == cfg.keys[x].(fgGradient := g.(angle := angle))
    ensures !KeysDistinguished(cfg)
  {
    var a, b := cfg.keys[x], cfg.keys[y];
    hide KeyFields, Scaled, KeyPlan;
    KeyFieldsAlikeIff(a, b);
    AlikePlansIff(cfg, a, b);
  }

  lemma SmallAnglesAlike()
    ensures Alike(0.0001, 0.0002, 3)
  {
    assert PowerOfTen(3) == 1000;
  }
}
