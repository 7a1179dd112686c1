/**
 The cache in front of the renderer: when it cannot be noticed, and how the two endpoints
 agree.
 */
module HandlerTheorems {
  import opened Wrappers
  import opened Text
  import opened Cache
  import opened Validate
  import opened Epc
  import opened CleanTheorems
  import opened Handler
  import opened CacheKeys
  import Amount
  import Iban

  // ---- Both endpoints decide alike -----------------------------------------------------------

  /**
   For POST requests validation answers "ok" exactly when generation goes on to render; both
   report the same code otherwise, and the payload never fails to build.
   */
  lemma EndpointsAgree(k: Casing, cfg: ServerConfig, req: Request)
    requires k.Lawful() && req.verb == POST
    ensures Check(k, cfg, req).None? <==> Decide(k, cfg, req).Render?
    ensures Check(k, cfg, req).Some? ==> Decide(k, cfg, req) == Answer(Failed(Check(k, cfg, req).value))
    ensures Decide(k, cfg, req) != Answer(Failed(PayloadBuildFailed))
  {
    hide CleanAndValidate, Build;
    if req.input.Some? && CleanAndValidate(k, cfg.lenientOCR, req.input.value).Ok? {
      AcceptedBuilds(k, cfg.lenientOCR, req.input.value, false);
    }
  }

  // ---- Pictures in the cache ----------------------------------------------------------------------

  ghost predicate Injective(hash: string -> string) {
    forall x, y :: hash(x) == hash(y) ==> x == y
  }

  /** The item was drawn for some job of the family with that key. */
  ghost predicate Drawn(jobs: iset<Job>, hash: string -> string, draw: Plan -> Option<Png>, key: string, png: Png) {
    exists a :: a in jobs && hash(Preimage(a)) == key && draw(JobPlan(a)) == Some(png)
  }

  ghost predicate Genuine(jobs: iset<Job>, hash: string -> string, draw: Plan -> Option<Png>, q: seq<Item>) {
    forall i :: 0 <= i < |q| ==> Drawn(jobs, hash, draw, q[i].key, q[i].value)
  }

  lemma GetKeepsGenuine(jobs: iset<Job>, hash: string -> string, draw: Plan -> Option<Png>,
                        c: Limits, q: seq<Item>, key: string, now: int)
    requires Genuine(jobs, hash, draw, q)
    ensures Genuine(jobs, hash, draw, GetSpec(c, q, key, now).0)
    ensures var hit := GetSpec(c, q, key, now).1; hit.Some? ==> Drawn(jobs, hash, draw, key, hit.value)
  {
    hide Drawn, Locate;
  }

  lemma SetKeepsGenuine(jobs: iset<Job>, hash: string -> string, draw: Plan -> Option<Png>,
                        c: Limits, q: seq<Item>, key: string, png: Png, now: int)
    requires Genuine(jobs, hash, draw, q) && Drawn(jobs, hash, draw, key, png)
    ensures Genuine(jobs, hash, draw, SetSpec(c, q, key, png, now))
  {
    hide Drawn;
    if Accepted(c, png) { FitIsLongest(Stored(c, q, key, png, now), c.maxBytes); }
  }

  /** Every job of the family that is hashed like this one is also drawn like it. */
  ghost predicate Determined(jobs: iset<Job>, job: Job) {
    forall a :: a in jobs && Preimage(a) == Preimage(job) ==> JobPlan(a) == JobPlan(job)
  }

  /** Whatever is found under a determined job's key is what the renderer would draw for it. */
  lemma DrawnIsDrawn(jobs: iset<Job>, hash: string -> string, draw: Plan -> Option<Png>, job: Job, png: Png)
    requires Injective(hash) && Determined(jobs, job) && Drawn(jobs, hash, draw, hash(Preimage(job)), png)
    ensures draw(JobPlan(job)) == Some(png)
  {
    hide Preimage, JobPlan;
  }

  // ---- Handlers that interleave ----------------------------------------------------------------------

  /** Cache operations of handlers that may interleave: a job is looked up, or stored after drawing. */
  datatype Traffic = Lookup(job: Job, now: int) | Store(job: Job, png: Png, now: int)

  function AfterTraffic(c: Limits, hash: string -> string, ops: seq<Traffic>): seq<Item> {
    if ops == [] then []
    else
      var q := AfterTraffic(c, hash, ops[..|ops| - 1]);
      match ops[|ops| - 1]
      case Lookup(job, now) => GetSpec(c, q, hash(Preimage(job)), now).0
      case Store(job, png, now) => SetSpec(c, q, hash(Preimage(job)), png, now)
  }

  /** The jobs are of the family, and only what was drawn for a job is stored for it. */
  ghost predicate Honest(jobs: iset<Job>, draw: Plan -> Option<Png>, ops: seq<Traffic>) {
    forall i :: 0 <= i < |ops| ==>
      && ops[i].job in jobs
      && (ops[i].Store? ==> draw(JobPlan(ops[i].job)) == Some(ops[i].png))
  }

  lemma {:induction false} TrafficGenuine(jobs: iset<Job>, c: Limits, hash: string -> string,
                                          draw: Plan -> Option<Png>, ops: seq<Traffic>)
    requires Honest(jobs, draw, ops)
    ensures Genuine(jobs, hash, draw, AfterTraffic(c, hash, ops))
  {
    hide GetSpec, SetSpec, Preimage, JobPlan;
    if ops != [] {
      var n := |ops| - 1;
      TrafficGenuine(jobs, c, hash, draw, ops[..n]);
      var q := AfterTraffic(c, hash, ops[..n]);
      match ops[n]
      case Lookup(job, now) => GetKeepsGenuine(jobs, hash, draw, c, q, hash(Preimage(job)), now);
      case Store(job, png, now) => SetKeepsGenuine(jobs, hash, draw, c, q, hash(Preimage(job)), png, now);
    }
  }

  /** However handlers interleave, a hit for a determined job is the picture the renderer would draw for it. */
  lemma HitsAreDrawn(jobs: iset<Job>, c: Limits, hash: string -> string, draw: Plan -> Option<Png>,
                     ops: seq<Traffic>, job: Job, now: int)
    requires Injective(hash) && Determined(jobs, job) && Honest(jobs, draw, ops)
    ensures var hit := GetSpec(c, AfterTraffic(c, hash, ops), hash(Preimage(job)), now).1;
            hit.Some? ==> draw(JobPlan(job)) == hit
  {
    hide GetSpec, AfterTraffic, Preimage, JobPlan, Genuine, Drawn, Honest, Determined;
    var q, key := AfterTraffic(c, hash, ops), hash(Preimage(job));
    TrafficGenuine(jobs, c, hash, draw, ops);
    GetKeepsGenuine(jobs, hash, draw, c, q, key, now);
    var hit := GetSpec(c, q, key, now).1;
    if hit.Some? { DrawnIsDrawn(jobs, hash, draw, job, hit.value); }
  }

  // ---- Whole sessions ---------------------------------------------------------------------------------------

  /** The jobs that a family of requests gives rise to. */
  ghost function JobsOf(k: Casing, cfg: ServerConfig, family: iset<Request>): iset<Job> {
    iset r | r in family && Decide(k, cfg, r).Render? :: Decide(k, cfg, r).job
  }

  ghost predicate Anything(req: Request) {
    true
  }

  ghost function AllRequests(): iset<Request> {
    iset r: Request | Anything(r)
  }

  ghost predicate AllIn(reqs: seq<(Request, Clock)>, family: iset<Request>) {
    forall i :: 0 <= i < |reqs| ==> reqs[i].0 in family
  }

  lemma RenderedPlan(k: Casing, cfg: ServerConfig, req: Request)
    requires Decide(k, cfg, req).Render?
    ensures var d := Decide(k, cfg, req);
            JobPlan(d.job) == PlanOf(d.job.isPublic, d.payload, d.job.key, d.job.ratio, d.job.opt)
  {
    hide CleanAndValidate, Build, PlanOf;
  }

  /** Requests served one after another, starting from cache contents `q`. */
  function Session(k: Casing, cfg: ServerConfig, c: Limits, hash: string -> string, draw: Plan -> Option<Png>,
                   q: seq<Item>, reqs: seq<(Request, Clock)>): (r: seq<Response>)
    ensures |r| == |reqs|
    decreases reqs
  {
    if reqs == [] then []
    else
      var (q', r) := Draw(k, cfg, c, hash, draw, q, reqs[0].0, reqs[0].1);
      [r] + Session(k, cfg, c, hash, draw, q', reqs[1..])
  }

  function UncachedSession(k: Casing, cfg: ServerConfig, draw: Plan -> Option<Png>, reqs: seq<(Request, Clock)>): (r: seq<Response>)
    ensures |r| == |reqs|
    decreases reqs
  {
    if reqs == [] then [] else [DrawUncached(k, cfg, draw, reqs[0].0)] + UncachedSession(k, cfg, draw, reqs[1..])
  }

  /** One request keeps every item drawn; a picture it is answered with was drawn for a job hashed like its own. */
  lemma DrawKeepsGenuine(k: Casing, cfg: ServerConfig, c: Limits, hash: string -> string, draw: Plan -> Option<Png>,
                         family: iset<Request>, q: seq<Item>, req: Request, clock: Clock)
    requires req in family && Genuine(JobsOf(k, cfg, family), hash, draw, q)
    ensures Genuine(JobsOf(k, cfg, family), hash, draw, Draw(k, cfg, c, hash, draw, q, req, clock).0)
    ensures var r, d := Draw(k, cfg, c, hash, draw, q, req, clock).1, Decide(k, cfg, req);
            r.Picture? && d.Render? ==> Drawn(JobsOf(k, cfg, family), hash, draw, hash(Preimage(d.job)), r.png)
  {
    hide Decide, GetSpec, SetSpec, Preimage, PlanOf, JobPlan, Genuine;
    var d := Decide(k, cfg, req);
    if d.Render? {
      var jobs, key := JobsOf(k, cfg, family), hash(Preimage(d.job));
      RenderedPlan(k, cfg, req);
      assert d.job in jobs;
      GetKeepsGenuine(jobs, hash, draw, c, q, key, clock.lookup);
      var (q', hit) := GetSpec(c, q, key, clock.lookup);
      if hit.None? && draw(JobPlan(d.job)).Some? {
        SetKeepsGenuine(jobs, hash, draw, c, q', key, draw(JobPlan(d.job)).value, clock.store);
      }
    }
  }

  /** One request of a determined job is answered as without the cache. */
  lemma DrawIsUncached(k: Casing, cfg: ServerConfig, c: Limits, hash: string -> string, draw: Plan -> Option<Png>,
                       family: iset<Request>, q: seq<Item>, req: Request, clock: Clock)
    requires Injective(hash) && Genuine(JobsOf(k, cfg, family), hash, draw, q)
    requires Decide(k, cfg, req).Render? ==> Determined(JobsOf(k, cfg, family), Decide(k, cfg, req).job)
    ensures Draw(k, cfg, c, hash, draw, q, req, clock).1 == DrawUncached(k, cfg, draw, req)
  {
    hide Decide, GetSpec, SetSpec, Preimage, PlanOf, JobPlan, Genuine, Determined, Drawn;
    var d := Decide(k, cfg, req);
    if d.Render? {
      var jobs, key := JobsOf(k, cfg, family), hash(Preimage(d.job));
      RenderedPlan(k, cfg, req);
      GetKeepsGenuine(jobs, hash, draw, c, q, key, clock.lookup);
      var hit := GetSpec(c, q, key, clock.lookup).1;
      if hit.Some? { DrawnIsDrawn(jobs, hash, draw, d.job, hit.value); }
    }
  }

  /** Every answer of a session is given from some contents that hold drawn pictures only. */
  lemma {:induction false} SessionAnswer(k: Casing, cfg: ServerConfig, c: Limits, hash: string -> string, draw: Plan -> Option<Png>,
                                         family: iset<Request>, q: seq<Item>, reqs: seq<(Request, Clock)>, i: nat)
      returns (at: seq<Item>)
    requires Genuine(JobsOf(k, cfg, family), hash, draw, q) && AllIn(reqs, family) && i < |reqs|
    ensures Genuine(JobsOf(k, cfg, family), hash, draw, at)
    ensures Session(k, cfg, c, hash, draw, q, reqs)[i] == Draw(k, cfg, c, hash, draw, at, reqs[i].0, reqs[i].1).1
    decreases reqs
  {
    hide Draw, Genuine, JobsOf, Decide;
    if i == 0 {
      at := q;
    } else {
      DrawKeepsGenuine(k, cfg, c, hash, draw, family, q, reqs[0].0, reqs[0].1);
      at := SessionAnswer(k, cfg, c, hash, draw, family, Draw(k, cfg, c, hash, draw, q, reqs[0].0, reqs[0].1).0, reqs[1..], i - 1);
    }
  }

  /**
   Whatever else is served, a request whose job is determined among all that may be served is
   answered as without the cache: for any clock readings, cache limits and renderer.
   */
  lemma AnswerIsUncached(k: Casing, cfg: ServerConfig, c: Limits, hash: string -> string, draw: Plan -> Option<Png>,
                         family: iset<Request>, reqs: seq<(Request, Clock)>, i: nat)
    requires Injective(hash) && AllIn(reqs, family) && i < |reqs|
    requires Decide(k, cfg, reqs[i].0).Render? ==> Determined(JobsOf(k, cfg, family), Decide(k, cfg, reqs[i].0).job)
    ensures Session(k, cfg, c, hash, draw, [], reqs)[i] == DrawUncached(k, cfg, draw, reqs[i].0)
  {
    hide Draw, DrawUncached, Determined;
    var at := SessionAnswer(k, cfg, c, hash, draw, family, [], reqs, i);
    DrawIsUncached(k, cfg, c, hash, draw, family, at, reqs[i].0, reqs[i].1);
  }

  /**
   Anonymous requests and requests with a key never get each other's pictures: whatever is
   served in a session was drawn for a job of the asker's kind, even where texts collide; and
   an anonymous job has no style, palette or logo and the server's size.
   */
  lemma PicturesKeepToTheirKind(k: Casing, cfg: ServerConfig, c: Limits, hash: string -> string, draw: Plan -> Option<Png>,
                                reqs: seq<(Request, Clock)>, i: nat)
    requires Injective(hash) && i < |reqs| && Session(k, cfg, c, hash, draw, [], reqs)[i].Picture?
    ensures exists a ::
      && a in JobsOf(k, cfg, AllRequests())
      && a.isPublic == (TrimSpace(reqs[i].0.apiKey) == "")
      && draw(JobPlan(a)) == Some(Session(k, cfg, c, hash, draw, [], reqs)[i].png)
      && (a.isPublic ==>
            var p := JobPlan(a);
            p.style == None && p.recolor == BlackOnTransparent && p.logo == NoLogo && p.opt == Options(cfg.qrSize, Medium))
  {
    hide Draw, Session, Preimage, JobPlan, Decide, DrawUncached;
    var family := AllRequests();
    var req, clock := reqs[i].0, reqs[i].1;
    var at := SessionAnswer(k, cfg, c, hash, draw, family, [], reqs, i);
    var png := Draw(k, cfg, c, hash, draw, at, req, clock).1.png;
    PictureMeansRender(k, cfg, c, hash, draw, at, req, clock);
    DrawKeepsGenuine(k, cfg, c, hash, draw, family, at, req, clock);
    var job := Decide(k, cfg, req).job;
    var a :| a in JobsOf(k, cfg, family) && hash(Preimage(a)) == hash(Preimage(job)) && draw(JobPlan(a)) == Some(png);
    PreimageStart(a);
    PreimageStart(job);
    var r :| Decide(k, cfg, r).Render? && Decide(k, cfg, r).job == a;
    PublicPlan(k, cfg, r);
  }

  lemma PictureMeansRender(k: Casing, cfg: ServerConfig, c: Limits, hash: string -> string, draw: Plan -> Option<Png>,
                           q: seq<Item>, req: Request, clock: Clock)
    requires Draw(k, cfg, c, hash, draw, q, req, clock).1.Picture?
    ensures Decide(k, cfg, req).Render? && Decide(k, cfg, req).job.isPublic == (TrimSpace(req.apiKey) == "")
  {
    hide CleanAndValidate, Build, Preimage, PlanOf, GetSpec, SetSpec, TrimSpace;
  }

  lemma PublicPlan(k: Casing, cfg: ServerConfig, req: Request)
    requires Decide(k, cfg, req).Render?
    ensures var job := Decide(k, cfg, req).job;
            var p := JobPlan(job);
            job.isPublic ==>
              p.style == None && p.recolor == BlackOnTransparent && p.logo == NoLogo && p.opt == Options(cfg.qrSize, Medium)
  {
    hide CleanAndValidate, Build, TrimSpace;
  }

  // ---- Exactly when the cache is transparent -----------------------------------------------------------------

  /** Jobs hashed alike are drawn alike. */
  ghost predicate Coherent(jobs: iset<Job>) {
    forall a, b :: a in jobs && b in jobs && Preimage(a) == Preimage(b) ==> JobPlan(a) == JobPlan(b)
  }

  /** What was just stored in an empty cache is found at once. */
  lemma FreshHit(c: Limits, key: string, png: Png, now: int)
    requires Accepted(c, png)
    ensures GetSpec(c, [], key, now) == ([], None)
    ensures GetSpec(c, SetSpec(c, [], key, png, now), key, now).1 == Some(png)
  {
    SetKeepsNewest(c, [], key, png, now);
  }

  /**
   The consequence of a shared preimage, for any two requests: with the cache on, the second
   is answered with the picture of the first, whatever its own picture is.
   */
  lemma SharedKeySharesPicture(k: Casing, cfg: ServerConfig, c: Limits, hash: string -> string, draw: Plan -> Option<Png>,
                               ra: Request, rb: Request, now: int, png: Png)
    requires Decide(k, cfg, ra).Render? && Decide(k, cfg, rb).Render?
    requires Preimage(Decide(k, cfg, ra).job) == Preimage(Decide(k, cfg, rb).job)
    requires DrawUncached(k, cfg, draw, ra) == Picture(png) && Accepted(c, png)
    ensures var clock := Clock(now, now, now);
            Session(k, cfg, c, hash, draw, [], [(ra, clock), (rb, clock)]) == [Picture(png), Picture(png)]
  {
    hide Decide, GetSpec, SetSpec, Preimage, PlanOf, Accepted;
    var clock := Clock(now, now, now);
    FreshHit(c, hash(Preimage(Decide(k, cfg, ra).job)), png, now);
    var reqs := [(ra, clock), (rb, clock)];
    var q := Draw(k, cfg, c, hash, draw, [], ra, clock).0;
    assert reqs[1..] == [(rb, clock)] && reqs[1..][1..] == [];
    assert Session(k, cfg, c, hash, draw, [], reqs) == [Picture(png)] + Session(k, cfg, c, hash, draw, q, reqs[1..]);
    assert Session(k, cfg, c, hash, draw, q, reqs[1..]) ==
      [Draw(k, cfg, c, hash, draw, q, rb, clock).1] + Session(k, cfg, c, hash, draw, Draw(k, cfg, c, hash, draw, q, rb, clock).0, []);
  }

  lemma {:induction false} UncachedAt(k: Casing, cfg: ServerConfig, draw: Plan -> Option<Png>, reqs: seq<(Request, Clock)>, i: nat)
    requires i < |reqs|
    ensures UncachedSession(k, cfg, draw, reqs)[i] == DrawUncached(k, cfg, draw, reqs[i].0)
    decreases reqs
  {
    hide DrawUncached;
    if i > 0 { UncachedAt(k, cfg, draw, reqs[1..], i - 1); }
  }

  const DOT: Png := [0]

  /** A renderer that tells one list of arguments from all others. */
  function Telltale(p: Plan): Plan -> Option<Png> {
    q => if q == p then Some(DOT) else Some(DOT + DOT)
  }

  /** Two requests of the family that are hashed alike and drawn otherwise are enough to be noticed. */
  lemma IncoherentTold(k: Casing, cfg: ServerConfig, c: Limits, hash: string -> string, ra: Request, rb: Request, now: int)
    requires c.maxBytes >= 1 && Decide(k, cfg, ra).Render? && Decide(k, cfg, rb).Render?
    requires Preimage(Decide(k, cfg, ra).job) == Preimage(Decide(k, cfg, rb).job)
    requires JobPlan(Decide(k, cfg, ra).job) != JobPlan(Decide(k, cfg, rb).job)
    ensures var draw := Telltale(JobPlan(Decide(k, cfg, ra).job));
            var clock := Clock(now, now, now);
            var reqs := [(ra, clock), (rb, clock)];
            Session(k, cfg, c, hash, draw, [], reqs) != UncachedSession(k, cfg, draw, reqs)
  {
    hide Decide, Preimage, JobPlan, PlanOf, Session, UncachedSession;
    var draw := Telltale(JobPlan(Decide(k, cfg, ra).job));
    var clock := Clock(now, now, now);
    assert |DOT| == 1 && |DOT + DOT| == 2;
    RenderedPlan(k, cfg, ra);
    RenderedPlan(k, cfg, rb);
    SharedKeySharesPicture(k, cfg, c, hash, draw, ra, rb, now, DOT);
    UncachedAt(k, cfg, draw, [(ra, clock), (rb, clock)], 1);
  }

  /**
   A cache that is switched on goes unnoticed by a family of requests, whatever is drawn and
   in whatever order they come, exactly when requests that are hashed alike are drawn alike.
   */
  lemma TransparentIff(k: Casing, cfg: ServerConfig, c: Limits, hash: string -> string, family: iset<Request>)
    requires Injective(hash) && c.maxBytes >= 1
    ensures Coherent(JobsOf(k, cfg, family)) <==>
      forall draw: Plan -> Option<Png>, reqs: seq<(Request, Clock)> :: AllIn(reqs, family) ==>
        Session(k, cfg, c, hash, draw, [], reqs) == UncachedSession(k, cfg, draw, reqs)
  {
    hide Decide, Preimage, JobPlan, Session, UncachedSession, Draw, DrawUncached;
    if Coherent(JobsOf(k, cfg, family)) {
      forall draw: Plan -> Option<Png>, reqs: seq<(Request, Clock)> | AllIn(reqs, family)
        ensures Session(k, cfg, c, hash, draw, [], reqs) == UncachedSession(k, cfg, draw, reqs)
      {
        CoherentTransparent(k, cfg, c, hash, draw, family, reqs);
      }
    } else {
      var a, b :| a in JobsOf(k, cfg, family) && b in JobsOf(k, cfg, family) && Preimage(a) == Preimage(b) && JobPlan(a) != JobPlan(b);
      var ra :| ra in family && Decide(k, cfg, ra).Render? && Decide(k, cfg, ra).job == a;
      var rb :| rb in family && Decide(k, cfg, rb).Render? && Decide(k, cfg, rb).job == b;
      IncoherentTold(k, cfg, c, hash, ra, rb, 0);
      assert AllIn([(ra, Clock(0, 0, 0)), (rb, Clock(0, 0, 0))], family);
    }
  }

  lemma CoherentTransparent(k: Casing, cfg: ServerConfig, c: Limits, hash: string -> string, draw: Plan -> Option<Png>,
                            family: iset<Request>, reqs: seq<(Request, Clock)>)
    requires Injective(hash) && Coherent(JobsOf(k, cfg, family)) && AllIn(reqs, family)
    ensures Session(k, cfg, c, hash, draw, [], reqs) == UncachedSession(k, cfg, draw, reqs)
  {
    hide Decide, Preimage, JobPlan, Draw, DrawUncached, Session, UncachedSession;
    forall i: nat | i < |reqs|
      ensures Session(k, cfg, c, hash, draw, [], reqs)[i] == UncachedSession(k, cfg, draw, reqs)[i]
    {
      AnswerIsUncached(k, cfg, c, hash, draw, family, reqs, i);
      UncachedAt(k, cfg, draw, reqs, i);
    }
  }

  // ---- Requests without '|' ---------------------------------------------------------------------------------

  /** No '|' in the texts of the request. */
  ghost predicate PlainRequest(req: Request) {
    req.input.Some? ==>
      var i := req.input.value;
      && Lacks(i.name, '|') && Lacks(i.purpose, '|') && Lacks(i.remittanceReference, '|')
      && Lacks(i.remittanceText, '|') && Lacks(i.information, '|')
  }

  ghost function PlainRequests(): iset<Request> {
    iset r: Request | PlainRequest(r)
  }

  lemma TrimLacks(s: string, c: char)
    requires Lacks(s, c)
    ensures Lacks(TrimSpace(s), c)
  {
    TrimLeftShrinks(s);
    TrimRightTidies(TrimLeft(s));
  }

  lemma UpperLacks(k: Casing, s: string)
    requires k.Lawful() && Lacks(s, '|')
    ensures Lacks(k.Upper(s), '|')
  {}

  lemma CleanKeepsPlain(k: Casing, lenient: bool, i: Input)
    requires k.Lawful() && CleanAndValidate(k, lenient, i).Ok?
    requires Lacks(i.name, '|') && Lacks(i.purpose, '|') && Lacks(i.remittanceReference, '|')
    requires Lacks(i.remittanceText, '|') && Lacks(i.information, '|')
    ensures PlainText(CleanAndValidate(k, lenient, i).value)
  {
    hide TrimSpace, RemoveAll, Amount.ParseAmount, Iban.Valid, MatchBic;
    TrimLacks(i.name, '|');
    TrimLacks(i.purpose, '|');
    TrimLacks(i.remittanceReference, '|');
    TrimLacks(i.remittanceText, '|');
    TrimLacks(i.information, '|');
    var purpose := TrimSpace(i.purpose);
    UpperLacks(k, TruncateRunes(if purpose == "" then "GDDS" else purpose, 4));
  }

  /** What is known of a job that is rendered. */
  lemma RenderedJob(k: Casing, cfg: ServerConfig, req: Request)
    requires k.Lawful() && Decide(k, cfg, req).Render?
    ensures var job := Decide(k, cfg, req).job;
            && Stable(k, job.cleaned) && (PlainRequest(req) ==> PlainText(job.cleaned))
            && job.isPublic == (TrimSpace(req.apiKey) == "") && job.ratio == cfg.logoMaxRatio
            && job.opt == OptionsFor(cfg, job.isPublic, job.key)
            && (if job.isPublic then job.key == NO_KEY else Usable(cfg, req.apiKey) && job.key == cfg.keys[req.apiKey])
  {
    hide CleanAndValidate, Build, PlainText, Stable, TrimSpace;
    AcceptedIsStable(k, cfg.lenientOCR, req.input.value);
    if PlainRequest(req) { CleanKeepsPlain(k, cfg.lenientOCR, req.input.value); }
  }

  /** Equal fields under keys with one text mean equal arguments for the renderer. */
  lemma PlansAgree(k: Casing, cfg: ServerConfig, ra: Request, rb: Request)
    requires k.Lawful() && KeysDistinguished(cfg) && Decide(k, cfg, ra).Render? && Decide(k, cfg, rb).Render?
    requires var a, b := Decide(k, cfg, ra).job, Decide(k, cfg, rb).job;
             && a.isPublic == b.isPublic && a.cleaned == b.cleaned && a.opt == b.opt
             && (!a.isPublic ==> KeyText(a.key) == KeyText(b.key))
    ensures JobPlan(Decide(k, cfg, ra).job) == JobPlan(Decide(k, cfg, rb).job)
  {
    hide Decide, Build, KeyText, Stable, PlainText, PlanOf, OptionsFor;
    RenderedJob(k, cfg, ra);
    RenderedJob(k, cfg, rb);
    var a, b := Decide(k, cfg, ra).job, Decide(k, cfg, rb).job;
    if !a.isPublic {
      var payload := match Build(a.cleaned) case Ok(p) => p case Err(_) => "";
      KeyPlanPayload(cfg, a.key, b.key, payload);
    }
  }

  /** Among requests without '|', those hashed alike are drawn alike when keys are told apart. */
  lemma PlainCoherent(k: Casing, cfg: ServerConfig)
    requires k.Lawful() && KeysDistinguished(cfg)
    ensures Coherent(JobsOf(k, cfg, PlainRequests()))
  {
    hide Decide, Preimage, JobPlan, PlainRequest, PlainText, Stable, KeyText, KeysDistinguished, OptionsFor;
    var family := PlainRequests();
    forall a, b | a in JobsOf(k, cfg, family) && b in JobsOf(k, cfg, family) && Preimage(a) == Preimage(b)
      ensures JobPlan(a) == JobPlan(b)
    {
      var ra :| ra in family && Decide(k, cfg, ra).Render? && Decide(k, cfg, ra).job == a;
      var rb :| rb in family && Decide(k, cfg, rb).Render? && Decide(k, cfg, rb).job == b;
      RenderedJob(k, cfg, ra);
      RenderedJob(k, cfg, rb);
      PreimageAlikeIff(k, a, b);
      PlansAgree(k, cfg, ra, rb);
    }
  }

  function ExampleRequest(apiKey: string, text: string): Request
    requires Iban.Bban(EXAMPLE_BBAN)
  {
    Request("ip", POST, true, apiKey, Some(Feedback(Example("A", text, ""))))
  }

  lemma ExampleRendered(k: Casing, cfg: ServerConfig, apiKey: string, text: string)
    requires k.Lawful() && TrimSpace(text) == text && |text| <= 140
    requires Usable(cfg, apiKey) || (apiKey == "" && !cfg.requireAPIKey)
    ensures Iban.Bban(EXAMPLE_BBAN)
    ensures var d := Decide(k, cfg, ExampleRequest(apiKey, text));
            d.Render? && d.job.cleaned == Example("A", text, "")
  {
    hide Build, CleanAndValidate, Feedback, Stable, Example;
    assert |"A"| <= 70 && "A" != "" && TrimSpace("") == "" && TrimSpace("A") == "A" && |""| <= 70;
    ExampleAccepted(k, cfg.lenientOCR, "A", text, "");
    AcceptedBuilds(k, cfg.lenientOCR, Feedback(Example("A", text, "")), false);
  }

  lemma ExamplePlain(apiKey: string)
    requires Iban.Bban(EXAMPLE_BBAN)
    ensures PlainRequest(ExampleRequest(apiKey, ""))
  {
    hide ExampleIban, PrintedAmount;
  }

  lemma PlainCoherentOnlyIf(k: Casing, cfg: ServerConfig, x: string, y: string)
    requires k.Lawful() && Usable(cfg, x) && Usable(cfg, y)
    requires KeyText(cfg.keys[x]) == KeyText(cfg.keys[y])
    requires OptionsFor(cfg, false, cfg.keys[x]) == OptionsFor(cfg, false, cfg.keys[y])
    requires KeyPlan(cfg, cfg.keys[x], "") != KeyPlan(cfg, cfg.keys[y], "")
    ensures !Coherent(JobsOf(k, cfg, PlainRequests()))
  {
    hide Decide, Preimage, PlainRequest, PlainText, Stable, KeyText, OptionsFor, PlanOf, Build, Example, TrimSpace;
    assert TrimSpace("") == "" by { NothingToTrim(); }
    ExampleRendered(k, cfg, x, "");
    ExampleRendered(k, cfg, y, "");
    var rx, ry := ExampleRequest(x, ""), ExampleRequest(y, "");
    ExamplePlain(x);
    ExamplePlain(y);
    RenderedJob(k, cfg, rx);
    RenderedJob(k, cfg, ry);
    var a, b := Decide(k, cfg, rx).job, Decide(k, cfg, ry).job;
    PreimageAlikeIff(k, a, b);
    var payload := match Build(a.cleaned) case Ok(p) => p case Err(_) => "";
    KeyPlanPayload(cfg, a.key, b.key, payload);
    var family := PlainRequests();
    assert a in JobsOf(k, cfg, family) && b in JobsOf(k, cfg, family);
    assert JobPlan(a) != JobPlan(b);
  }

  lemma NothingToTrim()
    ensures TrimSpace("") == ""
  {}

  /**
   Cache transparency.  Requests without '|' in their texts are answered as without the cache,
   in any sequence, at any clock readings and whatever is drawn, exactly when the configured
   keys are told apart by their texts.
   */
  lemma CacheTransparentIff(k: Casing, cfg: ServerConfig, c: Limits, hash: string -> string)
    requires k.Lawful() && Injective(hash) && c.maxBytes >= 1
    ensures KeysDistinguished(cfg) <==>
      forall draw: Plan -> Option<Png>, reqs: seq<(Request, Clock)> ::
        AllIn(reqs, PlainRequests()) ==>
        Session(k, cfg, c, hash, draw, [], reqs) == UncachedSession(k, cfg, draw, reqs)
  {
    hide *;
    TransparentIff(k, cfg, c, hash, PlainRequests());
    PlainCoherentIff(k, cfg);
  }

  lemma PlainCoherentIff(k: Casing, cfg: ServerConfig)
    requires k.Lawful()
    ensures Coherent(JobsOf(k, cfg, PlainRequests())) <==> KeysDistinguished(cfg)
  {
    hide Coherent, JobsOf, PlainRequest, KeyText, OptionsFor, KeyPlan;
    if KeysDistinguished(cfg) {
      PlainCoherent(k, cfg);
    } else {
      var x, y :|
        && Usable(cfg, x) && Usable(cfg, y)
        && KeyText(cfg.keys[x]) == KeyText(cfg.keys[y])
        && OptionsFor(cfg, false, cfg.keys[x]) == OptionsFor(cfg, false, cfg.keys[y])
        && KeyPlan(cfg, cfg.keys[x], "") != KeyPlan(cfg, cfg.keys[y], "");
      PlainCoherentOnlyIf(k, cfg, x, y);
    }
  }

  /**
   Two usable keys that differ only in the angle of a gradient in use, where both angles print
   alike as 0.0001 and 0.0002 do, get each other's pictures: some renderer and some sequence of
   requests without '|' show it.
   */
  lemma FractionCollision(k: Casing, cfg: ServerConfig, c: Limits, hash: string -> string, x: string, y: string, angle: real)
    requires k.Lawful() && Injective(hash) && c.maxBytes >= 1 && Usable(cfg, x) && Usable(cfg, y)
    requires var g := cfg.keys[x].fgGradient;
             && g.from != "" && g.to != "" && angle != g.angle && Alike(angle, g.angle, 3)
             && cfg.keys[y] == cfg.keys[x].(fgGradient := g.(angle := angle))
    ensures exists draw: Plan -> Option<Png>, reqs: seq<(Request, Clock)> ::
      && AllIn(reqs, PlainRequests())
      && Session(k, cfg, c, hash, draw, [], reqs) != UncachedSession(k, cfg, draw, reqs)
    ensures Alike(0.0001, 0.0002, 3)
  {
    hide *;
    SmallAnglesAlike();
    AlikeAnglesClash(cfg, x, y, angle);
    CacheTransparentIff(k, cfg, c, hash);
  }

  // ---- Among requests with '|' --------------------------------------------------------------------------

  /** A request without '|', under a key without '|', shares its hashed text with no request that is drawn otherwise. */
  lemma PlainDetermined(k: Casing, cfg: ServerConfig, req: Request)
    requires k.Lawful() && KeysDistinguished(cfg) && PlainRequest(req) && Decide(k, cfg, req).Render?
    requires Usable(cfg, req.apiKey) ==> PlainKey(cfg.keys[req.apiKey])
    ensures Determined(JobsOf(k, cfg, AllRequests()), Decide(k, cfg, req).job)
  {
    hide Decide, Preimage, JobPlan, PlainRequest, PlainText, PlainKey, Stable, KeyText, KeysDistinguished, OptionsFor;
    var family, job := AllRequests(), Decide(k, cfg, req).job;
    RenderedJob(k, cfg, req);
    forall a | a in JobsOf(k, cfg, family) && Preimage(a) == Preimage(job) ensures JobPlan(a) == JobPlan(job) {
      var ra :| ra in family && Decide(k, cfg, ra).Render? && Decide(k, cfg, ra).job == a;
      RenderedJob(k, cfg, ra);
      PlainAlone(k, a, job);
      PlansAgree(k, cfg, ra, req);
    }
  }

  lemma PlainAlone(k: Casing, a: Job, b: Job)
    requires Stable(k, a.cleaned) && Stable(k, b.cleaned) && Preimage(a) == Preimage(b)
    requires PlainText(b.cleaned) && (!b.isPublic ==> PlainKey(b.key))
    ensures a.isPublic == b.isPublic && a.cleaned == b.cleaned && a.opt == b.opt
    ensures !a.isPublic ==> KeyText(a.key) == KeyText(b.key)
  {
    hide CommonFields, KeyFields, Join, Split, Stable, PlainText, PlainKey;
    PreimageStart(a);
    PreimageStart(b);
    CommonPipeFreeIff(k, b);
    if !b.isPublic { KeyPipeFree(b.key); }
    SplitsBackIff(Fields(a), '|');
    SplitsBackIff(Fields(b), '|');
    assert Fields(a) == Fields(b);
    var f, g := Fields(a), Fields(b);
    if a.isPublic {
      assert f[1..] == CommonFields(a) && g[1..] == CommonFields(b);
    } else {
      assert f[1..16] == KeyFields(a.key) && g[1..16] == KeyFields(b.key);
      assert f[16..] == CommonFields(a) && g[16..] == CommonFields(b);
    }
    CommonDetermine(k, a, b);
  }

  /**
   Nobody else's '|' matters: in a session of any requests, one without '|', anonymous or
   under a key without '|', is answered as without the cache.
   */
  lemma PlainAnswersStand(k: Casing, cfg: ServerConfig, c: Limits, hash: string -> string, draw: Plan -> Option<Png>,
                          reqs: seq<(Request, Clock)>, i: nat)
    requires k.Lawful() && Injective(hash) && KeysDistinguished(cfg) && i < |reqs| && PlainRequest(reqs[i].0)
    requires Usable(cfg, reqs[i].0.apiKey) ==> PlainKey(cfg.keys[reqs[i].0.apiKey])
    ensures Session(k, cfg, c, hash, draw, [], reqs)[i] == DrawUncached(k, cfg, draw, reqs[i].0)
  {
    hide Decide, Session, DrawUncached, PlainRequest, PlainKey, KeysDistinguished, Usable, JobsOf, Determined;
    var family := AllRequests();
    assert AllIn(reqs, family);
    if Decide(k, cfg, reqs[i].0).Render? { PlainDetermined(k, cfg, reqs[i].0); }
    AnswerIsUncached(k, cfg, c, hash, draw, family, reqs, i);
  }

  /** And however handlers interleave, what such a request finds in the cache is its own picture. */
  lemma PlainHitsAreDrawn(k: Casing, cfg: ServerConfig, c: Limits, hash: string -> string, draw: Plan -> Option<Png>,
                          ops: seq<Traffic>, req: Request, now: int)
    requires k.Lawful() && Injective(hash) && KeysDistinguished(cfg) && Honest(JobsOf(k, cfg, AllRequests()), draw, ops)
    requires PlainRequest(req) && Decide(k, cfg, req).Render?
    requires Usable(cfg, req.apiKey) ==> PlainKey(cfg.keys[req.apiKey])
    ensures var job := Decide(k, cfg, req).job;
            var hit := GetSpec(c, AfterTraffic(c, hash, ops), hash(Preimage(job)), now).1;
            hit.Some? ==> draw(JobPlan(job)) == hit
  {
    hide *;
    PlainDetermined(k, cfg, req);
    HitsAreDrawn(JobsOf(k, cfg, AllRequests()), c, hash, draw, ops, Decide(k, cfg, req).job, now);
  }
}
