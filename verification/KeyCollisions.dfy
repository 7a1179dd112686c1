/**
 Where the cache key falls short: fields are joined with a bare '|'.  When an accepted request
 shares its hashed text with another one, and what follows.
 */
module KeyCollisions {
  import opened Wrappers
  import opened Text
  import opened Cache
  import opened Validate
  import opened Epc
  import opened CleanTheorems
  import opened Handler
  import opened CacheKeys
  import opened HandlerTheorems
  import AmountPrinting
  import Iban

  // ---- Moving a '|' ------------------------------------------------------------------------

  lemma {:induction false} JoinMerges(pre: seq<string>, x: string, y: string, post: seq<string>)
    ensures Join(pre + [x, y] + post, "|") == Join(pre + [x + "|" + y] + post, "|")
  {
    if pre == [] {
      var f, g := [x, y] + post, [x + "|" + y] + post;
      assert pre + [x, y] + post == f && pre + [x + "|" + y] + post == g;
      assert f[1..] == [y] + post && g[1..] == post && ([y] + post)[1..] == post;
      if post != [] {
        assert x + "|" + (y + "|" + Join(post, "|")) == (x + "|" + y) + "|" + Join(post, "|");
      }
    } else {
      JoinMerges(pre[1..], x, y, post);
      assert (pre + [x, y] + post)[1..] == pre[1..] + [x, y] + post;
      assert (pre + [x + "|" + y] + post)[1..] == pre[1..] + [x + "|" + y] + post;
    }
  }

  /** A '|' can be moved across the border of two neighbouring fields. */
  lemma PipeMoves(pre: seq<string>, u: string, v: string, y: string, post: seq<string>)
    ensures Join(pre + [u + "|" + v, y] + post, "|") == Join(pre + [u, v + "|" + y] + post, "|")
  {
    JoinMerges(pre, u + "|" + v, y, post);
    JoinMerges(pre, u, v + "|" + y, post);
    assert (u + "|" + v) + "|" + y == u + "|" + (v + "|" + y);
  }

  // ---- A remittance text with '|' ---------------------------------------------------------------

  /** The remittance text can be cut at a '|' and its end moved in front of the information. */
  ghost predicate Movable(c: Clean, u: string, v: string) {
    && c.remittanceText == u + "|" + v
    && TrimSpace(u) == u && Tidy(v) && |v| + 1 + |c.information| <= 70
  }

  function Moved(c: Clean, u: string, v: string): Clean {
    c.(remittanceText := u, information := v + "|" + c.information)
  }

  function MovedInput(input: Input, c: Clean, u: string, v: string): Input {
    input.(remittanceText := u, information := v + "|" + c.information)
  }

  lemma JoinedStands(v: string, info: string)
    requires Tidy(v) && TrimRight(info) == info
    ensures TrimSpace(v + "|" + info) == v + "|" + info
  {
    var w := v + "|" + info;
    TrimRightTidies(info);
    assert w[0] == if v == "" then '|' else v[0];
    assert w[|w| - 1] == if info == "" then '|' else info[|info| - 1];
    AmountPrinting.TrimNothing(w);
  }

  lemma MovedAccepted(k: Casing, lenient: bool, input: Input, u: string, v: string)
    requires k.Lawful() && CleanAndValidate(k, lenient, input).Ok?
    requires Movable(CleanAndValidate(k, lenient, input).value, u, v)
    ensures var c := CleanAndValidate(k, lenient, input).value;
            CleanAndValidate(k, lenient, MovedInput(input, c, u, v)) == Ok(Moved(c, u, v))
  {
    hide TrimSpace, TrimRight, RemoveAll, Amount.ParseAmount, Iban.Valid, MatchBic;
    var c := CleanAndValidate(k, lenient, input).value;
    AcceptedIsStable(k, lenient, input);
    AcceptedIsClipped(k, lenient, input);
    JoinedStands(v, c.information);
  }

  lemma MovedHashed(job: Job, u: string, v: string)
    requires job.cleaned.remittanceText == u + "|" + v
    ensures Preimage(job) == Preimage(job.(cleaned := Moved(job.cleaned, u, v)))
  {
    hide Join, Printed, PrintFixed, KeyFields;
    var other := job.(cleaned := Moved(job.cleaned, u, v));
    FieldsAreHeadAndCommon(job);
    FieldsAreHeadAndCommon(other);
    var h, f, g, info := Head(job), CommonFields(job), CommonFields(other), job.cleaned.information;
    assert f == f[..5] + [u + "|" + v, info] + f[7..];
    assert g == f[..5] + [u, v + "|" + info] + f[7..];
    assert h + f == (h + f[..5]) + [u + "|" + v, info] + f[7..];
    assert h + g == (h + f[..5]) + [u, v + "|" + info] + f[7..];
    PipeMoves(h + f[..5], u, v, info, f[7..]);
  }

  lemma LastTwoLines(l: seq<string>)
    requires |l| >= 3
    ensures Join(l, "\n") == Join(l[..|l| - 2], "\n") + "\n" + (l[|l| - 2] + "\n" + l[|l| - 1])
  {
    var n := |l|;
    JoinConcat(l[..n - 2], l[n - 2..], "\n");
    assert l == l[..n - 2] + l[n - 2..];
    assert l[n - 2..][1..] == [l[n - 1]];
  }

  /** Whatever line feeds the fields hold, the payloads differ. */
  lemma MovedPayload(c: Clean, u: string, v: string)
    requires c.remittanceText == u + "|" + v && Build(c).Ok? && Build(Moved(c, u, v)).Ok?
    ensures Build(c).value != Build(Moved(c, u, v)).value
  {
    hide Join, AmountLine;
    var l, m := PayloadLines(c), PayloadLines(Moved(c, u, v));
    LastTwoLines(l);
    LastTwoLines(m);
    assert l[..10] == m[..10];
    var p := Join(l[..10], "\n") + "\n";
    assert Build(c).value == p + ((u + "|" + v) + "\n" + c.information);
    assert Build(Moved(c, u, v)).value == p + (u + "\n" + (v + "|" + c.information));
    assert Build(c).value[|p| + |u|] == '|' && Build(Moved(c, u, v)).value[|p| + |u|] == '\n';
  }

  /**
   Any accepted request whose remittance text can be cut at a '|' shares its hashed text with
   another accepted request, under whatever key, size and ratio; and their payloads differ.
   */
  lemma PipeCollision(k: Casing, lenient: bool, input: Input, u: string, v: string, job: Job)
    requires k.Lawful() && CleanAndValidate(k, lenient, input) == Ok(job.cleaned) && Movable(job.cleaned, u, v)
    ensures var other := job.(cleaned := Moved(job.cleaned, u, v));
            && CleanAndValidate(k, lenient, MovedInput(input, job.cleaned, u, v)) == Ok(other.cleaned)
            && Preimage(other) == Preimage(job) && JobPlan(other).payload != JobPlan(job).payload
  {
    hide CleanAndValidate, Preimage, Build, Stable, PlanOf;
    MovedAccepted(k, lenient, input, u, v);
    MovedHashed(job, u, v);
    AcceptedBuilds(k, lenient, input, false);
    AcceptedBuilds(k, lenient, MovedInput(input, job.cleaned, u, v), false);
    MovedPayload(job.cleaned, u, v);
    PayloadOf(job);
    PayloadOf(job.(cleaned := Moved(job.cleaned, u, v)));
  }

  lemma PayloadOf(job: Job)
    requires Build(job.cleaned).Ok?
    ensures JobPlan(job).payload == Build(job.cleaned).value
  {
    hide Build;
  }

  /** The request with the end of its remittance text moved. */
  function MovedRequest(req: Request, c: Clean, u: string, v: string): Request
    requires req.input.Some?
  {
    req.(input := Some(MovedInput(req.input.value, c, u, v)))
  }

  lemma MovedRendered(k: Casing, cfg: ServerConfig, req: Request, u: string, v: string)
    requires k.Lawful() && Decide(k, cfg, req).Render? && Movable(Decide(k, cfg, req).job.cleaned, u, v)
    ensures req.input.Some?
    ensures var job := Decide(k, cfg, req).job;
            var d := Decide(k, cfg, MovedRequest(req, job.cleaned, u, v));
            && d.Render? && d.job == job.(cleaned := Moved(job.cleaned, u, v))
            && Preimage(d.job) == Preimage(job) && JobPlan(d.job).payload != JobPlan(job).payload
  {
    hide CleanAndValidate, Build, Preimage, JobPlan, Stable, TrimSpace, Movable;
    var job := Decide(k, cfg, req).job;
    PipeCollision(k, cfg.lenientOCR, req.input.value, u, v, job);
    AcceptedBuilds(k, cfg.lenientOCR, MovedInput(req.input.value, job.cleaned, u, v), false);
  }

  /**
   So, with the cache on, whoever then sends the moved request is answered with the picture of
   the first one, which is wrong whenever the renderer tells the two payloads apart.
   */
  lemma WrongPictureServed(k: Casing, cfg: ServerConfig, c: Limits, hash: string -> string, draw: Plan -> Option<Png>,
                           req: Request, u: string, v: string, now: int, png: Png)
    requires k.Lawful() && Decide(k, cfg, req).Render? && Movable(Decide(k, cfg, req).job.cleaned, u, v)
    requires DrawUncached(k, cfg, draw, req) == Picture(png) && Accepted(c, png)
    ensures req.input.Some? && Decide(k, cfg, MovedRequest(req, Decide(k, cfg, req).job.cleaned, u, v)).Render?
    ensures var other := MovedRequest(req, Decide(k, cfg, req).job.cleaned, u, v);
            var reqs := [(req, Clock(now, now, now)), (other, Clock(now, now, now))];
            && JobPlan(Decide(k, cfg, other).job).payload != JobPlan(Decide(k, cfg, req).job).payload
            && Session(k, cfg, c, hash, draw, [], reqs) == [Picture(png), Picture(png)]
            && (draw(JobPlan(Decide(k, cfg, other).job)) != Some(png) ==>
                  UncachedSession(k, cfg, draw, reqs) != [Picture(png), Picture(png)])
  {
    hide Decide, Preimage, JobPlan, PlanOf, Session, UncachedSession, Movable;
    MovedRendered(k, cfg, req, u, v);
    var other := MovedRequest(req, Decide(k, cfg, req).job.cleaned, u, v);
    RenderedPlan(k, cfg, req);
    RenderedPlan(k, cfg, other);
    SharedKeySharesPicture(k, cfg, c, hash, draw, req, other, now, png);
    UncachedAt(k, cfg, draw, [(req, Clock(now, now, now)), (other, Clock(now, now, now))], 1);
  }

  // ---- No server that draws anything is transparent to all requests -----------------------------

  lemma SplitExample(k: Casing, cfg: ServerConfig, apiKey: string)
    requires k.Lawful() && (Usable(cfg, apiKey) || (apiKey == "" && !cfg.requireAPIKey))
    ensures !Coherent(JobsOf(k, cfg, AllRequests()))
  {
    hide Decide, Preimage, JobPlan, TrimSpace, Example;
    ExampleText();
    ExampleRendered(k, cfg, apiKey, "a|b");
    var req := ExampleRequest(apiKey, "a|b");
    ExampleMovable();
    MovedRendered(k, cfg, req, "a", "b");
    var other := MovedRequest(req, Decide(k, cfg, req).job.cleaned, "a", "b");
    var a, b := Decide(k, cfg, req).job, Decide(k, cfg, other).job;
    assert a in JobsOf(k, cfg, AllRequests()) && b in JobsOf(k, cfg, AllRequests());
  }

  lemma ExampleText()
    ensures TrimSpace("a|b") == "a|b" && TrimSpace("a") == "a" && |"a|b"| <= 140
  {
    AmountPrinting.TrimNothing("a|b");
    AmountPrinting.TrimNothing("a");
  }

  lemma ExampleMovable()
    requires Iban.Bban(EXAMPLE_BBAN)
    ensures Movable(Example("A", "a|b", ""), "a", "b")
  {
    ExampleText();
    hide TrimSpace, ExampleIban;
    assert "a|b" == "a" + "|" + "b" && |"b"| == 1 && |""| == 0;
  }

  /**
   A cache that is switched on goes unnoticed by all requests exactly when nothing is ever
   drawn: no anonymous requests and no usable key.
   */
  lemma AlwaysTransparentIff(k: Casing, cfg: ServerConfig, c: Limits, hash: string -> string)
    requires k.Lawful() && Injective(hash) && c.maxBytes >= 1
    ensures cfg.requireAPIKey && (forall x :: !Usable(cfg, x)) <==>
      forall draw: Plan -> Option<Png>, reqs: seq<(Request, Clock)> :: AllIn(reqs, AllRequests()) ==>
        Session(k, cfg, c, hash, draw, [], reqs) == UncachedSession(k, cfg, draw, reqs)
  {
    hide Session, UncachedSession, JobPlan, Preimage, JobsOf;
    TransparentIff(k, cfg, c, hash, AllRequests());
    if cfg.requireAPIKey && (forall x :: !Usable(cfg, x)) {
      NothingDrawn(k, cfg);
    } else if !cfg.requireAPIKey {
      SplitExample(k, cfg, "");
    } else {
      var x :| Usable(cfg, x);
      SplitExample(k, cfg, x);
    }
  }

  lemma NothingDrawn(k: Casing, cfg: ServerConfig)
    requires cfg.requireAPIKey && forall x :: !Usable(cfg, x)
    ensures Coherent(JobsOf(k, cfg, AllRequests()))
  {
    hide CleanAndValidate, Build, TrimSpace, Preimage, JobPlan;
    forall r ensures !Decide(k, cfg, r).Render? {
      assert !Usable(cfg, r.apiKey);
    }
  }

  // ---- Requests under one key ------------------------------------------------------------------------

  /** The texts of a request, as they are joined. */
  function Texts(c: Clean): (f: seq<string>)
    ensures |f| == 7
  {
    [c.name, c.iban, c.bic] + Tail(c)
  }

  function Tail(c: Clean): (f: seq<string>)
    ensures |f| == 4
  {
    [c.purpose, c.remittanceReference, c.remittanceText, c.information]
  }

  function Numbers(job: Job): (f: seq<string>)
    ensures |f| == 4
  {
    [Printed(job.cleaned.amountCents), Printed(job.opt.size), Printed(EccNumber(job.opt.ecc)), PrintFixed(job.ratio, 4)]
  }

  lemma NumbersPlain(job: Job)
    ensures PipeFree(Numbers(job))
  {
    hide PrintFixed;
    FixedLacksPipe(job.ratio, 4);
  }

  lemma NumbersDetermine(a: Job, b: Job)
    requires a.ratio == b.ratio
    ensures Numbers(a) == Numbers(b) <==> a.cleaned.amountCents == b.cleaned.amountCents && a.opt == b.opt
  {
    hide Printed, PrintFixed;
    if Numbers(a) == Numbers(b) {
      var f, g := Numbers(a), Numbers(b);
      assert f[0] == g[0] && f[1] == g[1] && f[2] == g[2];
      PrintedInjective(a.cleaned.amountCents, b.cleaned.amountCents);
      PrintedInjective(a.opt.size, b.opt.size);
      PrintedInjective(EccNumber(a.opt.ecc), EccNumber(b.opt.ecc));
    }
  }

  lemma JoinAfter(h: seq<string>, f: seq<string>, g: seq<string>)
    requires h != [] && f != [] && g != []
    ensures Join(h + f, "|") == Join(h + g, "|") <==> Join(f, "|") == Join(g, "|")
  {
    hide Join;
    JoinConcat(h, f, "|");
    JoinConcat(h, g, "|");
    var x := Join(h, "|") + "|";
    assert (x + Join(f, "|"))[|x|..] == Join(f, "|") && (x + Join(g, "|"))[|x|..] == Join(g, "|");
  }

  /** The texts join to the same, and the amounts agree. */
  predicate Shares(c: Clean, d: Clean) {
    Join(Texts(c), "|") == Join(Texts(d), "|") && c.amountCents == d.amountCents
  }

  /** Under one key, or both anonymous, requests are hashed alike exactly when they share their texts. */
  lemma HashedAlikeIff(a: Job, b: Job)
    requires a.isPublic == b.isPublic && a.key == b.key && a.ratio == b.ratio && a.opt == b.opt
    ensures Preimage(a) == Preimage(b) <==> Shares(a.cleaned, b.cleaned)
  {
    hide Join, Head, Texts, Numbers;
    FieldsSplit(a);
    FieldsSplit(b);
    NumbersPlain(a);
    NumbersPlain(b);
    NumbersDetermine(a, b);
    var h := Head(a);
    assert h == Head(b) by { SameHeads(a, b); }
    TailsSplit(h + Texts(a.cleaned), Numbers(a), h + Texts(b.cleaned), Numbers(b));
    JoinAfter(h, Texts(a.cleaned), Texts(b.cleaned));
  }

  lemma SameHeads(a: Job, b: Job)
    requires a.isPublic == b.isPublic && a.key == b.key
    ensures Head(a) == Head(b)
  {}

  lemma FieldsSplit(job: Job)
    ensures Fields(job) == (Head(job) + Texts(job.cleaned)) + Numbers(job)
  {
    hide KeyFields, Printed, PrintFixed;
  }

  // ---- Reading the joined texts from the front ---------------------------------------------------------

  /** The first field of a joined text without '|' is no longer than the first field of any other reading. */
  lemma FirstField(a: string, s: string, b: string, t: string)
    requires a + "|" + s == b + "|" + t
    ensures Lacks(a, '|') ==> |a| <= |b|
    ensures |a| == |b| ==> a == b && s == t
    ensures |a| < |b| ==> b == a + "|" + b[|a| + 1..] && s == b[|a| + 1..] + "|" + t
  {
    var x, y := a + "|" + s, b + "|" + t;
    assert x[|a|] == '|' && y[|b|] == '|';
    assert x[..|a|] == a && y[..|b|] == b && x[|a| + 1..] == s && y[|b| + 1..] == t;
    if |b| < |a| { assert a[|b|] == x[|b|] == y[|b|]; }
    if |a| < |b| {
      var z := b[|a| + 1..];
      assert b == a + "|" + z by { assert b[..|a|] == a && b[|a|] == '|'; }
      assert s == x[|a| + 1..] == y[|a| + 1..] == z + "|" + t;
    }
  }

  lemma FirstFields(a: string, s: string, b: string, t: string)
    requires a + "|" + s == b + "|" + t && Lacks(a, '|') && Lacks(b, '|')
    ensures a == b && s == t
  {
    FirstField(a, s, b, t);
    FirstField(b, t, a, s);
  }

  lemma CountJoined(a: string, s: string)
    ensures CountChar(a + "|" + s, '|') == CountChar(a, '|') + 1 + CountChar(s, '|')
  {
    CountAppend(a + "|", s, '|');
    CountAppend(a, "|", '|');
    assert "|"[..0] == "";
  }

  lemma CodesArePlain(k: Casing, c: Clean)
    requires Stable(k, c)
    ensures Lacks(c.iban, '|') && |c.iban| >= 15 && Lacks(c.bic, '|') && 8 <= |c.bic| <= 11
  {
    hide Iban.Valid;
    ValidIsCode(c.iban);
  }

  lemma JoinHead(f: seq<string>)
    requires |f| >= 2
    ensures Join(f, "|") == f[0] + "|" + Join(f[1..], "|")
  {}

  lemma TextsJoined(c: Clean)
    ensures Join(Texts(c), "|") == c.name + "|" + (c.iban + "|" + (c.bic + "|" + Join(Tail(c), "|")))
  {
    hide Join, Tail;
    JoinHead(Texts(c));
    assert Texts(c)[1..] == [c.iban, c.bic] + Tail(c);
    JoinHead([c.iban, c.bic] + Tail(c));
    assert ([c.iban, c.bic] + Tail(c))[1..] == [c.bic] + Tail(c);
    JoinHead([c.bic] + Tail(c));
    assert ([c.bic] + Tail(c))[1..] == Tail(c);
  }

  lemma TailJoined(c: Clean)
    ensures Join(Tail(c), "|")
      == c.purpose + "|" + (c.remittanceReference + "|" + (c.remittanceText + "|" + c.information))
  {
    var x, n := c.remittanceText, c.information;
    assert Tail(c)[1..] == [c.remittanceReference, x, n] && [c.remittanceReference, x, n][1..] == [x, n] && [x, n][1..] == [n];
    assert Join([n], "|") == n;
    assert Join([x, n], "|") == x + "|" + n;
    assert Join([c.remittanceReference, x, n], "|") == c.remittanceReference + "|" + (x + "|" + n);
  }

  lemma TailCount(c: Clean)
    ensures CountChar(Join(Tail(c), "|"), '|') == 3 + TotalCount(Tail(c), '|')
  {
    hide TotalCount, CountChar, Join;
    JoinCount(Tail(c), '|');
  }

  // ---- '|' in the name ----------------------------------------------------------------------------------

  /** What follows the name in the joined texts. */
  function AfterName(c: Clean): string {
    c.iban + "|" + (c.bic + "|" + Join(Tail(c), "|"))
  }

  lemma AfterNameCount(k: Casing, c: Clean)
    requires Stable(k, c)
    ensures CountChar(AfterName(c), '|') == 5 + TotalCount(Tail(c), '|')
  {
    hide Join, CountChar, TotalCount, Tail, Stable;
    CodesArePlain(k, c);
    TailCount(c);
    CountZero(c.iban, '|');
    CountZero(c.bic, '|');
    CountJoined(c.bic, Join(Tail(c), "|"));
    CountJoined(c.iban, c.bic + "|" + Join(Tail(c), "|"));
  }

  /** Two readings whose names agree: the codes agree and the rest joins to the same. */
  lemma SameNames(k: Casing, c: Clean, d: Clean)
    requires Stable(k, c) && Stable(k, d) && Shares(c, d) && |c.name| == |d.name|
    ensures c.name == d.name && c.iban == d.iban && c.bic == d.bic && Join(Tail(c), "|") == Join(Tail(d), "|")
  {
    hide Join, Tail, Texts, Stable;
    TextsJoined(c);
    TextsJoined(d);
    CodesArePlain(k, c);
    CodesArePlain(k, d);
    FirstField(c.name, AfterName(c), d.name, AfterName(d));
    FirstFields(c.iban, c.bic + "|" + Join(Tail(c), "|"), d.iban, d.bic + "|" + Join(Tail(d), "|"));
    FirstFields(c.bic, Join(Tail(c), "|"), d.bic, Join(Tail(d), "|"));
  }

  /** A longer name takes up '|' that the other reading has after its name. */
  lemma LongerName(k: Casing, c: Clean, d: Clean)
    requires Stable(k, c) && Stable(k, d) && Shares(c, d) && |c.name| < |d.name|
    ensures TotalCount(Tail(c), '|') > TotalCount(Tail(d), '|') + CountChar(d.name[|c.name| + 1..], '|')
    ensures d.name == c.name + "|" + d.name[|c.name| + 1..] && AfterName(c) == d.name[|c.name| + 1..] + "|" + AfterName(d)
  {
    hide Join, Tail, Texts, Stable, CountChar, TotalCount, AfterName;
    TextsJoined(c);
    TextsJoined(d);
    assert AfterName(c) == c.iban + "|" + (c.bic + "|" + Join(Tail(c), "|")) by { AfterNameIs(c); }
    assert AfterName(d) == d.iban + "|" + (d.bic + "|" + Join(Tail(d), "|")) by { AfterNameIs(d); }
    FirstField(c.name, AfterName(c), d.name, AfterName(d));
    AfterNameCount(k, c);
    AfterNameCount(k, d);
    CountJoined(d.name[|c.name| + 1..], AfterName(d));
  }

  lemma AfterNameIs(c: Clean)
    ensures AfterName(c) == c.iban + "|" + (c.bic + "|" + Join(Tail(c), "|"))
  {}

  /** Reference, text and information cannot begin with two codes and a purpose. */
  lemma CodesDoNotFit(i: string, b: string, p: string, rest: string, r: string, x: string, n: string)
    requires Lacks(i, '|') && Lacks(b, '|') && Lacks(p, '|') && |i| >= 15 && |b| >= 8 && p != ""
    requires |r| <= 25 && (r == "" || x == "")
    ensures i + "|" + (b + "|" + (p + "|" + rest)) != r + "|" + (x + "|" + n)
  {
    var s, t := b + "|" + (p + "|" + rest), x + "|" + n;
    if i + "|" + s == r + "|" + t {
      FirstField(i, s, r, t);
      if |i| < |r| {
        var v := r[|i| + 1..];
        FirstField(b, p + "|" + rest, v, t);
        if |b| < |v| { FirstField(p, rest, v[|b| + 1..], t); } else { FirstField(p, rest, x, n); }
      } else {
        FirstField(b, p + "|" + rest, x, n);
      }
    }
  }

  /**
   Up to three '|' in the name of a request without '|' elsewhere do no harm: it shares its
   texts with no other accepted request.
   */
  lemma NamePipesAlone(k: Casing, c: Clean, d: Clean)
    requires Stable(k, c) && Stable(k, d) && Shares(c, d)
    requires PipeFree(Tail(c)) && CountChar(c.name, '|') <= 3
    ensures c == d
  {
    hide Join, Texts, Stable, CountChar, TotalCount, Split;
    TotalZero(Tail(c), '|');
    if |c.name| < |d.name| {
      LongerName(k, c, d);
    } else if |c.name| == |d.name| {
      SameNames(k, c, d);
      SplitsBackIff(Tail(c), '|');
      SplitsBackIff(Tail(d), '|');
      TailsAgree(k, c, d);
    } else {
      LongerName(k, d, c);
      NoCodesInName(k, c, d, c.name[|d.name| + 1..]);
    }
  }

  lemma TailsAgree(k: Casing, c: Clean, d: Clean)
    requires Stable(k, c) && Stable(k, d) && Shares(c, d)
    requires c.name == d.name && c.iban == d.iban && c.bic == d.bic && Tail(c) == Tail(d)
    ensures c == d
  {
    var f, g := Tail(c), Tail(d);
    assert f[0] == g[0] && f[1] == g[1] && f[2] == g[2] && f[3] == g[3];
  }

  lemma IbanIsLong(i: string, s: string, v: string, t: string)
    requires i + "|" + s == v + "|" + t && Lacks(i, '|')
    ensures |i| <= |v|
  {
    FirstField(i, s, v, t);
  }

  /** What precedes the codes of one reading inside the tail of the other contains '|'. */
  lemma TailBeforeCodes(k: Casing, c: Clean, d: Clean, w: string)
    requires Stable(k, c) && Stable(k, d) && PipeFree(Tail(c))
    requires Join(Tail(d), "|") == w + "|" + AfterName(c)
    ensures !Lacks(w, '|')
  {
    hide Join, Tail, Iban.Valid;
    CodesArePlain(k, c);
    TailJoined(c);
    TailJoined(d);
    assert Lacks(c.purpose, '|') && c.purpose != "" by { PurposeIsPlain(k, c); }
    var rest := d.remittanceReference + "|" + (d.remittanceText + "|" + d.information);
    var more := c.bic + "|" + Join(Tail(c), "|");
    if Lacks(w, '|') {
      FirstField(w, AfterName(c), d.purpose, rest);
      if |w| < |d.purpose| {
        IbanIsLong(c.iban, more, d.purpose[|w| + 1..], rest);
      } else {
        CodesDoNotFit(c.iban, c.bic, c.purpose, c.remittanceReference + "|" + (c.remittanceText + "|" + c.information),
                      d.remittanceReference, d.remittanceText, d.information);
      }
    }
  }

  lemma PurposeIsPlain(k: Casing, c: Clean)
    requires Stable(k, c) && PipeFree(Tail(c))
    ensures Lacks(c.purpose, '|') && c.purpose != "" && |c.purpose| <= 4
  {
    assert Tail(c)[0] == c.purpose;
  }

  /** The name of one reading holds the codes of the other: that takes four '|'. */
  lemma NoCodesInName(k: Casing, c: Clean, d: Clean, y: string)
    requires Stable(k, c) && Stable(k, d) && PipeFree(Tail(c))
    requires c.name == d.name + "|" + y && AfterName(d) == y + "|" + AfterName(c)
    ensures CountChar(c.name, '|') > 3
  {
    hide Join, Tail, Iban.Valid, CountChar;
    CodesArePlain(k, c);
    CodesArePlain(k, d);
    PurposeIsPlain(k, c);
    TailJoined(d);
    var s, tail := AfterName(c), Join(Tail(d), "|");
    var more := c.bic + "|" + Join(Tail(c), "|");
    FirstField(d.iban, d.bic + "|" + tail, y, s);
    if |d.iban| == |y| {
      FirstFields(d.bic, tail, c.iban, more);
    } else {
      var z := y[|d.iban| + 1..];
      FirstField(d.bic, tail, z, s);
      if |d.bic| == |z| {
        IbanIsLong(c.iban, more, d.purpose, d.remittanceReference + "|" + (d.remittanceText + "|" + d.information));
      } else {
        var w := z[|d.bic| + 1..];
        TailBeforeCodes(k, c, d, w);
        CountJoined(d.name, y);
        CountJoined(d.iban, z);
        CountJoined(d.bic, w);
        CountZero(w, '|');
      }
    }
  }

  // ---- One '|' elsewhere --------------------------------------------------------------------------------

  /** Five pieces as four texts: two neighbours are joined. */
  function Regrouped(q: seq<string>, m: nat): (f: seq<string>)
    requires m + 1 < |q|
    ensures |f| == |q| - 1
  {
    q[..m] + [q[m] + "|" + q[m + 1]] + q[m + 2..]
  }

  function WithTail(c: Clean, f: seq<string>): Clean
    requires |f| == 4
  {
    c.(purpose := f[0], remittanceReference := f[1], remittanceText := f[2], information := f[3])
  }

  function Pieces(c: Clean): seq<string> {
    Split(Join(Tail(c), "|"), '|')
  }

  lemma {:induction false} SplitPieces(s: string)
    ensures PipeFree(Split(s, '|')) && Join(Split(s, '|'), "|") == s
    decreases |s|
  {
    var i := IndexOf(s, '|');
    if i < |s| {
      SplitPieces(s[i + 1..]);
      assert s == s[..i] + "|" + s[i + 1..];
      JoinConcat([s[..i]], Split(s[i + 1..], '|'), "|");
    } else {
      assert s[..i] == s;
    }
  }

  lemma {:induction false} OneHolder(f: seq<string>) returns (m: nat)
    requires TotalCount(f, '|') == 1
    ensures m < |f| && CountChar(f[m], '|') == 1 && forall i :: 0 <= i < |f| && i != m ==> Lacks(f[i], '|')
  {
    hide CountChar;
    CountZero(f[0], '|');
    if CountChar(f[0], '|') == 1 {
      m := 0;
      TotalZero(f[1..], '|');
      assert forall i :: 0 < i < |f| ==> f[i] == f[1..][i - 1];
    } else {
      var n := OneHolder(f[1..]);
      m := n + 1;
      assert forall i :: 0 < i < |f| ==> f[i] == f[1..][i - 1];
    }
  }

  lemma CutAtPipe(x: string)
    requires CountChar(x, '|') == 1
    ensures var i := IndexOf(x, '|');
            i < |x| && x == x[..i] + "|" + x[i + 1..] && Lacks(x[..i], '|') && Lacks(x[i + 1..], '|')
  {
    hide CountChar, IndexOf;
    var i := IndexOf(x, '|');
    CountZero(x, '|');
    assert x == x[..i] + "|" + x[i + 1..];
    CountJoined(x[..i], x[i + 1..]);
    CountZero(x[..i], '|');
    CountZero(x[i + 1..], '|');
  }

  /** Texts that join to one piece more are those pieces with two neighbours joined. */
  lemma OneMerge(g: seq<string>, q: seq<string>) returns (m: nat)
    requires g != [] && |q| == |g| + 1 && PipeFree(q) && Join(g, "|") == Join(q, "|")
    ensures m < |g| && g == Regrouped(q, m)
  {
    hide Join, Split, CountChar, TotalCount;
    JoinCount(g, '|');
    JoinCount(q, '|');
    TotalZero(q, '|');
    m := OneHolder(g);
    CutAtPipe(g[m]);
    var i := IndexOf(g[m], '|');
    var u, v := g[m][..i], g[m][i + 1..];
    var f := g[..m] + [u, v] + g[m + 1..];
    JoinMerges(g[..m], u, v, g[m + 1..]);
    assert g == g[..m] + [u + "|" + v] + g[m + 1..];
    assert PipeFree(f);
    SplitJoin(f, '|');
    SplitJoin(q, '|');
    assert f == q;
    assert q[..m] == g[..m] && q[m] == u && q[m + 1] == v && q[m + 2..] == g[m + 1..];
  }

  /** What some request is cleaned to (`CleanTheorems.ResultsIff`). */
  ghost predicate Reachable(k: Casing, c: Clean) {
    Stable(k, c) && AllClipped(c)
  }

  /** With one '|' after the purpose and none before, both names end where the first '|' is. */
  lemma OnePipeNames(k: Casing, c: Clean, d: Clean)
    requires Stable(k, c) && Stable(k, d) && Shares(c, d)
    requires Lacks(c.name, '|') && TotalCount(Tail(c), '|') == 1
    ensures |c.name| == |d.name|
  {
    hide Join, Texts, Tail, Stable, CountChar, TotalCount;
    TextsJoined(c);
    TextsJoined(d);
    FirstField(c.name, AfterName(c), d.name, AfterName(d));
    if |c.name| < |d.name| {
      LongerName(k, c, d);
      var y := d.name[|c.name| + 1..];
      CountZero(y, '|');
      CodesArePlain(k, c);
      CodesArePlain(k, d);
      FirstFields(c.iban, c.bic + "|" + Join(Tail(c), "|"), y, AfterName(d));
      FirstFields(c.bic, Join(Tail(c), "|"), d.iban, d.bic + "|" + Join(Tail(d), "|"));
    }
  }

  lemma RegroupedShares(c: Clean, m: nat)
    requires |Pieces(c)| == 5 && m < 4
    ensures Shares(c, WithTail(c, Regrouped(Pieces(c), m)))
  {
    hide Join, Split;
    var q := Pieces(c);
    var d := WithTail(c, Regrouped(q, m));
    SplitPieces(Join(Tail(c), "|"));
    JoinMerges(q[..m], q[m], q[m + 1], q[m + 2..]);
    assert q == q[..m] + [q[m], q[m + 1]] + q[m + 2..];
    assert Tail(d) == Regrouped(q, m);
    TextsJoined(c);
    TextsJoined(d);
  }

  /**
   A request with one '|', in its purpose, reference, text or information, shares its texts
   with another accepted one exactly when moving the '|' to another of these four borders
   gives an accepted request.
   */
  lemma OnePipeIff(k: Casing, c: Clean)
    requires Reachable(k, c) && Lacks(c.name, '|') && TotalCount(Tail(c), '|') == 1
    ensures |Pieces(c)| == 5
    ensures (exists d :: Reachable(k, d) && d != c && Shares(c, d)) <==>
      exists m: nat :: m < 4 && WithTail(c, Regrouped(Pieces(c), m)) != c && Reachable(k, WithTail(c, Regrouped(Pieces(c), m)))
  {
    hide Join, Split, Texts, Stable, AllClipped, CountChar, TotalCount, Regrouped;
    var q := Pieces(c);
    SplitCount(Join(Tail(c), "|"), '|');
    TailCount(c);
    SplitPieces(Join(Tail(c), "|"));
    forall d | Reachable(k, d) && Shares(c, d)
      ensures exists m: nat :: m < 4 && WithTail(c, Regrouped(q, m)) == d
    {
      OnePipeNames(k, c, d);
      SameNames(k, c, d);
      var m := OneMerge(Tail(d), q);
      SameButTail(k, c, d);
      assert WithTail(c, Regrouped(q, m)) == d;
    }
    forall m: nat | m < 4 ensures Shares(c, WithTail(c, Regrouped(q, m))) {
      RegroupedShares(c, m);
    }
  }

  lemma SameButTail(k: Casing, c: Clean, d: Clean)
    requires Stable(k, c) && Stable(k, d) && Shares(c, d) && c.name == d.name && c.iban == d.iban && c.bic == d.bic
    ensures WithTail(c, Tail(d)) == d
  {}

  // ---- All readings of the joined texts --------------------------------------------------------------------

  /** All ways to join neighbouring pieces so that `n` fields are left. */
  function Regroupings(q: seq<string>, n: nat): set<seq<string>>
    decreases n
  {
    if n == 0 then {}
    else if n == 1 then (if q == [] then {} else {[Join(q, "|")]})
    else set k, g | 0 < k < |q| && g in Regroupings(q[k..], n - 1) :: [Join(q[..k], "|")] + g
  }

  lemma SplitPlain(a: string)
    requires Lacks(a, '|')
    ensures Split(a, '|') == [a]
  {
    IndexOfIs(a, '|', |a|);
  }

  lemma MoreFields(f: seq<string>, g: seq<string>, h: seq<string>)
    ensures f + (g + h) == (f + g) + h
  {}

  lemma MoreText(u: string, v: string, b: string)
    ensures (u + "|" + v) + "|" + b == u + "|" + (v + "|" + b)
  {}

  lemma {:induction false} SplitJoined(a: string, b: string)
    ensures Split(a + "|" + b, '|') == Split(a, '|') + Split(b, '|')
    decreases |a|
  {
    hide Split;
    var i := IndexOf(a, '|');
    if i == |a| {
      SplitHead(a, b, '|');
      SplitPlain(a);
    } else {
      var u, v := a[..i], a[i + 1..];
      assert a == u + "|" + v;
      MoreText(u, v, b);
      SplitHead(u, v + "|" + b, '|');
      SplitHead(u, v, '|');
      SplitJoined(v, b);
      MoreFields([u], Split(v, '|'), Split(b, '|'));
    }
  }

  /** The regroupings of a text's pieces are exactly the lists that join to the text. */
  lemma {:induction false} RegroupingsJoin(q: seq<string>, g: seq<string>)
    requires q != [] && PipeFree(q) && g != []
    ensures g in Regroupings(q, |g|) <==> Join(g, "|") == Join(q, "|")
    decreases |g|
  {
    hide Join, Split;
    if |g| == 1 {
      JoinOne(g);
    } else {
      var a, rest := g[0], g[1..];
      assert g == [a] + rest;
      JoinHead(g);
      if Join(g, "|") == Join(q, "|") {
        var k := |Split(a, '|')|;
        SplitJoin(q, '|');
        SplitJoined(a, Join(rest, "|"));
        SplitPieces(a);
        SplitPieces(Join(rest, "|"));
        assert q[..k] == Split(a, '|') && q[k..] == Split(Join(rest, "|"), '|');
        RegroupingsJoin(q[k..], rest);
        assert [Join(q[..k], "|")] + rest == g;
      }
      if g in Regroupings(q, |g|) {
        var k, h :| 0 < k < |q| && h in Regroupings(q[k..], |g| - 1) && [Join(q[..k], "|")] + h == g;
        assert h == rest;
        RegroupingsJoin(q[k..], rest);
        JoinConcat(q[..k], q[k..], "|");
        assert q == q[..k] + q[k..];
      }
    }
  }

  lemma JoinOne(g: seq<string>)
    requires |g| == 1
    ensures Join(g, "|") == g[0] && g == [g[0]]
  {}

  function WithTexts(c: Clean, f: seq<string>): Clean
    requires |f| == 7
  {
    c.(name := f[0], iban := f[1], bic := f[2], purpose := f[3], remittanceReference := f[4], remittanceText := f[5], information := f[6])
  }

  lemma WithTextsIs(k: Casing, c: Clean, d: Clean, f: seq<string>)
    requires Stable(k, c) && |f| == 7
    ensures Texts(WithTexts(c, f)) == f
    ensures Stable(k, d) && c.amountCents == d.amountCents ==> (WithTexts(c, f) == d <==> Texts(d) == f)
  {
    hide Iban.Valid;
    var e := WithTexts(c, f);
    assert Texts(e) == f;
    if Texts(d) == f { assert Texts(d)[0] == d.name && Texts(d)[3] == d.purpose; }
  }

  lemma RegroupingLength(q: seq<string>, n: nat, g: seq<string>)
    requires g in Regroupings(q, n)
    ensures |g| == n
    decreases n
  {
    hide Join;
    if n > 1 {
      var k, h :| 0 < k < |q| && h in Regroupings(q[k..], n - 1) && [Join(q[..k], "|")] + h == g;
      RegroupingLength(q[k..], n - 1, h);
    }
  }

  /**
   Wherever its '|' are, an accepted request shares its texts with another accepted one exactly
   when some other regrouping of the pieces between them is accepted.
   */
  lemma SharesIff(k: Casing, c: Clean)
    requires Reachable(k, c)
    ensures var q := Split(Join(Texts(c), "|"), '|');
            (exists d :: Reachable(k, d) && d != c && Shares(c, d)) <==>
              exists g :: g in Regroupings(q, 7) && |g| == 7 && g != Texts(c) && Reachable(k, WithTexts(c, g))
  {
    hide Join, Split, Texts, Stable, AllClipped, Regroupings, WithTexts;
    var q := Split(Join(Texts(c), "|"), '|');
    SplitPieces(Join(Texts(c), "|"));
    if d :| Reachable(k, d) && d != c && Shares(c, d) {
      RegroupingsJoin(q, Texts(d));
      WithTextsIs(k, c, d, Texts(d));
      WithTextsIs(k, c, c, Texts(d));
      assert WithTexts(c, Texts(d)) == d;
      assert Texts(d) in Regroupings(q, 7) && Texts(d) != Texts(c) by {
        if Texts(d) == Texts(c) { WithTextsIs(k, c, c, Texts(c)); }
      }
    }
    if g :| g in Regroupings(q, 7) && |g| == 7 && g != Texts(c) && Reachable(k, WithTexts(c, g)) {
      RegroupingsJoin(q, g);
      WithTextsIs(k, c, WithTexts(c, g), g);
      WithTextsAmount(c, g);
      assert Shares(c, WithTexts(c, g)) && WithTexts(c, g) != c;
    }
  }

  lemma WithTextsAmount(c: Clean, f: seq<string>)
    requires |f| == 7
    ensures WithTexts(c, f).amountCents == c.amountCents
  {}

  // ---- Four '|' in the name --------------------------------------------------------------------------------

  /** A name made of a name, two codes, a purpose and an empty rest. */
  function LongName(): string
    requires Iban.Bban(EXAMPLE_BBAN)
  {
    "A" + "|" + (ExampleIban() + "|" + ("INGDDEFFXXX" + "|" + ("GDDS" + "|")))
  }

  /** The same texts read with the name "A": the codes that were sent end up in the remittance text. */
  function ReadAgain(): Clean
    requires Iban.Bban(EXAMPLE_BBAN)
  {
    Example("A", ExampleIban() + "|" + ("INGDDEFFXXX" + "|" + "GDDS"), "||")
  }

  lemma ExampleTexts(name: string, text: string, info: string)
    requires Iban.Bban(EXAMPLE_BBAN)
    ensures Join(Texts(Example(name, text, info)), "|")
      == name + "|" + (ExampleIban() + "|" + ("INGDDEFFXXX" + "|" + ("GDDS" + "|" + ("" + "|" + (text + "|" + info)))))
  {
    hide Join, ExampleIban;
    TextsJoined(Example(name, text, info));
    TailJoined(Example(name, text, info));
  }

  lemma EmptyField(p: string, rest: string)
    ensures (p + "|") + "|" + rest == p + "|" + ("" + "|" + rest)
  {}

  lemma LongNameSplits(i: string, b: string, p: string, rest: string)
    ensures ("A" + "|" + (i + "|" + (b + "|" + (p + "|")))) + "|" + rest
      == "A" + "|" + (i + "|" + (b + "|" + (p + "|" + ("" + "|" + rest))))
  {
    MoreText("A", i + "|" + (b + "|" + (p + "|")), rest);
    MoreText(i, b + "|" + (p + "|"), rest);
    MoreText(b, p + "|", rest);
    EmptyField(p, rest);
  }

  lemma ReadAgainShares()
    requires Iban.Bban(EXAMPLE_BBAN)
    ensures Shares(Example(LongName(), "", ""), ReadAgain())
  {
    hide Join, ExampleIban, Texts;
    var i, b, p := ExampleIban(), "INGDDEFFXXX", "GDDS";
    ExampleTexts(LongName(), "", "");
    ExampleTexts("A", i + "|" + (b + "|" + p), "||");
    assert "" + "|" + ("" + "|" + "") == "||";
    MoreText(i, b + "|" + p, "||");
    MoreText(b, p, "||");
    LongNameSplits(i, b, p, i + "|" + (b + "|" + (p + "|" + "||")));
  }

  lemma ExampleCode()
    ensures Iban.Bban(EXAMPLE_BBAN) && |ExampleIban()| == 15 && Lacks(ExampleIban(), '|') && ExampleIban()[0] == 'N'
  {
    ExampleIbanValid();
    ValidIsCode(ExampleIban());
  }

  lemma LongNameCount()
    requires Iban.Bban(EXAMPLE_BBAN)
    ensures CountChar(LongName(), '|') == 4
  {
    ExampleCode();
    hide CountChar, ExampleIban;
    var i, b, p := ExampleIban(), "INGDDEFFXXX", "GDDS";
    CountZero("A", '|');
    CountZero(i, '|');
    CountZero(b, '|');
    CountZero(p, '|');
    CountZero("", '|');
    assert p + "|" == p + "|" + "";
    CountJoined(p, "");
    CountJoined(b, p + "|");
    CountJoined(i, b + "|" + (p + "|"));
    CountJoined("A", i + "|" + (b + "|" + (p + "|")));
  }

  lemma ExampleReachable(k: Casing, name: string, text: string, info: string)
    requires k.Lawful() && name != "" && |name| <= 70 && |text| <= 140 && |info| <= 70
    requires TrimSpace(name) == name && TrimSpace(text) == text && TrimSpace(info) == info
    ensures Iban.Bban(EXAMPLE_BBAN) && Reachable(k, Example(name, text, info))
  {
    hide TrimSpace, Stable, ExampleIban;
    ExampleAccepted(k, false, name, text, info);
    AcceptedIsStable(k, false, Feedback(Example(name, text, info)));
    AcceptedIsClipped(k, false, Feedback(Example(name, text, info)));
  }

  lemma LongTexts()
    requires Iban.Bban(EXAMPLE_BBAN)
    ensures var text := ExampleIban() + "|" + ("INGDDEFFXXX" + "|" + "GDDS");
            && TrimSpace(LongName()) == LongName() && |LongName()| <= 70
            && TrimSpace(text) == text && |text| <= 140
  {
    ExampleCode();
    hide ExampleIban;
    var text := ExampleIban() + "|" + ("INGDDEFFXXX" + "|" + "GDDS");
    assert text[0] == 'N' && text[|text| - 1] == 'S';
    assert LongName()[0] == 'A' && LongName()[|LongName()| - 1] == '|';
    AmountPrinting.TrimNothing(text);
    AmountPrinting.TrimNothing(LongName());
  }

  /** Three is the most for `NamePipesAlone`: with four '|' in the name an accepted request can share its texts with another. */
  lemma FourNamePipesShare(k: Casing)
    requires k.Lawful()
    ensures Iban.Bban(EXAMPLE_BBAN) && CountChar(LongName(), '|') == 4
    ensures var c := Example(LongName(), "", "");
            PipeFree(Tail(c)) && Reachable(k, c) && Reachable(k, ReadAgain()) && Shares(c, ReadAgain()) && c != ReadAgain()
  {
    ExampleCode();
    hide ExampleIban, CountChar, TrimSpace, Shares, Reachable;
    LongNameCount();
    LongTexts();
    assert TrimSpace("") == "" by { NothingToTrim(); }
    assert "||"[0] == '|' && "||"[1] == '|' && |"||"| == 2;
    AmountPrinting.TrimNothing("||");
    assert LongName() != "";
    ExampleReachable(k, LongName(), "", "");
    AmountPrinting.TrimNothing("A");
    ExampleReachable(k, "A", ExampleIban() + "|" + ("INGDDEFFXXX" + "|" + "GDDS"), "||");
    ReadAgainShares();
    assert |LongName()| > |"A"|;
  }
}
