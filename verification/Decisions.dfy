/**
 Which requests the endpoints answer how, and what the renderer is told under a key
 (server/server.go), in terms of the request and of the settings alone.
 */
module Decisions {
  import opened Wrappers
  import opened Text
  import opened Validate
  import opened Epc
  import opened CleanTheorems
  import opened Cache
  import opened Handler
  import Raster

  /** No key was sent: none at all or one of blanks only. */
  predicate Anonymous(req: Request) {
    forall i :: 0 <= i < |req.apiKey| ==> IsSpace(req.apiKey[i])
  }

  lemma AnonymousIs(req: Request)
    ensures Anonymous(req) <==> TrimSpace(req.apiKey) == ""
  {
    BlankIff(req.apiKey);
  }

  /** A HEAD request without parameters. */
  predicate BareHead(req: Request) {
    req.verb == HEAD && req.emptyQuery
  }

  /** The caller may use the service: anonymously when that is allowed, or with a key that exists. */
  predicate MayUse(cfg: ServerConfig, req: Request) {
    if Anonymous(req) then !cfg.requireAPIKey else req.apiKey in cfg.keys
  }

  predicate Readable(k: Casing, cfg: ServerConfig, req: Request) {
    req.input.Some? && CleanAndValidate(k, cfg.lenientOCR, req.input.value).Ok?
  }

  /**
   Every decision, exactly.  A bare HEAD request is answered with headers even under an unknown
   key, but not anonymously when keys are required; callers who may not use the service are
   refused; what cannot be decoded is invalid JSON in a POST and invalid input in a query; what
   cleaning refuses is invalid input; everything else is rendered, and a build never fails.
   */
  lemma DecisionIff(k: Casing, cfg: ServerConfig, req: Request)
    requires k.Lawful()
    ensures var d := Decide(k, cfg, req);
            var heads := BareHead(req) && !(Anonymous(req) && cfg.requireAPIKey);
            && (d == Answer(HeadersOnly) <==> heads)
            && (d == Answer(Failed(Unauthorized)) <==> !heads && !MayUse(cfg, req))
            && (d == Answer(Failed(InvalidJSON)) <==> !heads && MayUse(cfg, req) && req.input.None? && req.verb == POST)
            && (d == Answer(Failed(InvalidInput)) <==>
                  !heads && MayUse(cfg, req) && !Readable(k, cfg, req) && (req.input.Some? || req.verb != POST))
            && (d.Render? <==> !heads && MayUse(cfg, req) && Readable(k, cfg, req))
            && (d.Answer? ==> d.response in {HeadersOnly, Failed(Unauthorized), Failed(InvalidJSON), Failed(InvalidInput)})
  {
    hide CleanAndValidate, Build, TrimSpace, Anonymous;
    AnonymousIs(req);
    if Readable(k, cfg, req) { AcceptedBuilds(k, cfg.lenientOCR, req.input.value, false); }
  }

  /** The same for the validating endpoint. */
  lemma CheckIff(k: Casing, cfg: ServerConfig, req: Request)
    ensures var r := Check(k, cfg, req);
            && (r == Some(Unauthorized) <==> !MayUse(cfg, req))
            && (r == Some(InvalidJSON) <==> MayUse(cfg, req) && req.input.None?)
            && (r == Some(InvalidInput) <==> MayUse(cfg, req) && req.input.Some? && !Readable(k, cfg, req))
            && (r == None <==> MayUse(cfg, req) && Readable(k, cfg, req))
  {
    hide CleanAndValidate, TrimSpace, Anonymous;
    AnonymousIs(req);
  }

  /** What an admitted request is answered when nothing is cached. */
  lemma AnswerIff(k: Casing, cfg: ServerConfig, draw: Plan -> Option<Png>, req: Request)
    requires k.Lawful()
    ensures var r := DrawUncached(k, cfg, draw, req);
            var heads := BareHead(req) && !(Anonymous(req) && cfg.requireAPIKey);
            var drawn := !heads && MayUse(cfg, req) && Readable(k, cfg, req);
            && (drawn ==> Decide(k, cfg, req).Render?)
            && (drawn ==> r == match draw(JobPlan(Decide(k, cfg, req).job)) case Some(png) => Picture(png) case None => Failed(QREncodeFailed))
            && (!drawn ==> r.HeadersOnly? || (r.Failed? && r.code in {Unauthorized, InvalidJSON, InvalidInput}))
            && (r == HeadersOnly <==> heads)
            && (r == Failed(Unauthorized) <==> !heads && !MayUse(cfg, req))
            && (r == Failed(InvalidJSON) <==> !heads && MayUse(cfg, req) && req.input.None? && req.verb == POST)
  {
    hide CleanAndValidate, Build, TrimSpace, Anonymous, PlanOf, MayUse, Readable;
    DecisionIff(k, cfg, req);
    var d := Decide(k, cfg, req);
    if d.Render? { PayloadIs(k, cfg, req); }
    hide Decide;
  }

  lemma PayloadIs(k: Casing, cfg: ServerConfig, req: Request)
    requires Decide(k, cfg, req).Render?
    ensures var d := Decide(k, cfg, req); Build(d.job.cleaned) == Ok(d.payload)
  {
    hide CleanAndValidate, Build, TrimSpace;
  }

  // ---- What the renderer is told --------------------------------------------------------------------

  /** Both ends of a gradient are set. */
  predicate InUse(g: Gradient) {
    |g.from| > 0 && |g.to| > 0
  }

  /**
   Everything the renderer gets for a request under a key, from the settings of that very key:
   the payload of the cleaned request; the key's size if it has one; the highest error
   correction exactly for keys with a logo; the key's palette with black on white as defaults
   and those gradients that have two ends, unless the key has no colours at all; the styled
   renderer exactly when a style, a radius or a quiet zone asks for it; and the logo.
   */
  lemma DrawnUnderKey(k: Casing, cfg: ServerConfig, req: Request)
    requires k.Lawful() && Decide(k, cfg, req).Render? && !Anonymous(req)
    ensures req.input.Some? && req.apiKey in cfg.keys
    ensures var cleaned := CleanAndValidate(k, cfg.lenientOCR, req.input.value);
            var job := Decide(k, cfg, req).job;
            cleaned == Ok(job.cleaned) && Build(job.cleaned) == Ok(JobPlan(job).payload)
    ensures var key, p := cfg.keys[req.apiKey], JobPlan(Decide(k, cfg, req).job);
            && p.opt.size == (if key.qrSize > 0 then key.qrSize else cfg.qrSize)
            && (p.opt.ecc == Highest <==> key.logoPath != "")
            && PaintedWith(key, p.recolor) && StyledWith(key, p.style) && LogoOf(key, cfg.logoMaxRatio, p.logo)
  {
    hide CleanAndValidate, Build, TrimSpace, Anonymous;
    AnonymousIs(req);
  }

  /** What recolouring is told for a key. */
  ghost predicate PaintedWith(key: KeyConfig, r: Recolor) {
    if key.fg == "" && key.bg == "" && key.fgGradient.from == "" && key.bgGradient.from == "" then r == Keep
    else
      && r.Paint?
      && (if key.fg != "" then r.fg == key.fg else r.fg == "#000000")
      && (if key.bg != "" then r.bg == key.bg else r.bg == "#ffffff")
      && (if InUse(key.fgGradient) then r.fgGradient == Some(key.fgGradient) else r.fgGradient == None)
      && (if InUse(key.bgGradient) then r.bgGradient == Some(key.bgGradient) else r.bgGradient == None)
  }

  /** What the styled renderer is told for a key, when it is used. */
  ghost predicate StyledWith(key: KeyConfig, s: Option<Raster.Style>) {
    if key.moduleStyle in {"rounded", "blob"} || key.cornerRadius > 0 || key.quietZone > 0 then
      && s.Some? && s.value.cornerRadius == key.cornerRadius && s.value.moduleStyle == key.moduleStyle
      && s.value.moduleRadius == key.moduleRadius && s.value.quietZone == key.quietZone
    else s == None
  }

  ghost predicate LogoOf(key: KeyConfig, ratio: real, logo: Logo) {
    if key.logoPath == "" then logo == NoLogo
    else logo.Logo? && logo.path == key.logoPath && logo.ratio == ratio && logo.shape == key.logoBGShape
  }

  /** And for an anonymous request: the payload, the server's size, medium correction, black on transparent, nothing else. */
  lemma DrawnAnonymously(k: Casing, cfg: ServerConfig, req: Request)
    requires k.Lawful() && Decide(k, cfg, req).Render? && Anonymous(req)
    ensures req.input.Some?
    ensures var cleaned := CleanAndValidate(k, cfg.lenientOCR, req.input.value);
            var p := JobPlan(Decide(k, cfg, req).job);
            && cleaned.Ok? && Build(cleaned.value) == Ok(p.payload)
            && p.opt.size == cfg.qrSize && p.opt.ecc == Medium
            && p.recolor == BlackOnTransparent && p.style == None && p.logo == NoLogo
  {
    hide CleanAndValidate, Build, TrimSpace, Anonymous;
    AnonymousIs(req);
  }
}
