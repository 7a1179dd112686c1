/**
 The picture endpoint and its validating sibling (server/server.go): decisions, cache key
 and the arguments that reach the renderer.
 */
module Handler {
  import opened Wrappers
  import opened Text
  import opened Cache
  import Limiter
  import opened Validate
  import opened Epc
  import Raster

  datatype Gradient = Gradient(from: string, to: string, angle: real)

  /** Settings of one API key, as the key store hands them out: sizes and radii are not negative. */
  datatype KeyConfig = KeyConfig(
    name: string, qrSize: nat, logoPath: string, logoBGShape: string, fg: string, bg: string,
    fgGradient: Gradient, bgGradient: Gradient, cornerRadius: nat, moduleStyle: string,
    moduleRadius: real, quietZone: nat)

  const NO_KEY := KeyConfig("", 0, "", "", "", "", Gradient("", "", 0.0), Gradient("", "", 0.0), 0, "", 0.0, 0)

  datatype Ecc = Medium | Highest

  datatype Options = Options(size: nat, ecc: Ecc)

  datatype ServerConfig = ServerConfig(
    requireAPIKey: bool, qrSize: nat, logoMaxRatio: real, lenientOCR: bool, keys: map<string, KeyConfig>)

  datatype Verb = POST | GET | HEAD | OPTIONS | OTHER

  /** `input` is None when the body or the query could not be decoded. */
  datatype Request = Request(ip: string, verb: Verb, emptyQuery: bool, apiKey: string, input: Option<Input>)

  datatype Code =
    InvalidJSON | InvalidInput | Unauthorized | RateLimited | MethodNotAllowed | PayloadBuildFailed | QREncodeFailed

  datatype Response = AllowHeader | Failed(code: Code) | HeadersOnly | Picture(png: Png)

  // ---- Cache key ---------------------------------------------------------------------------

  /** Everything a cache key is made from. */
  datatype Job = Job(isPublic: bool, cleaned: Clean, key: KeyConfig, ratio: real, opt: Options)

  /** Nearest integer, ties to even, of a non-negative number. */
  function RoundHalfEven(x: real): (n: int)
    requires x >= 0.0
    ensures n >= 0
  {
    var f := x.Floor;
    var d := x - f as real;
    if d < 0.5 || (d == 0.5 && f % 2 == 0) then f else f + 1
  }

  function Scaled(x: real, places: nat): nat {
    RoundHalfEven((if x < 0.0 then -x else x) * PowerOfTen(places) as real)
  }

  /** The last `width` decimal digits of `n`. */
  function Padded(n: nat, width: nat): (s: string)
    ensures |s| == width && IsDigits(s)
  {
    if width == 0 then "" else Padded(n / 10, width - 1) + [DigitChar(n % 10)]
  }

  /** "%.3f", "%.4f" */
  function PrintFixed(x: real, places: nat): string {
    (if x < 0.0 then "-" else "") + WithPoint(Scaled(x, places), PowerOfTen(places), places)
  }

  function WithPoint(n: nat, unit: nat, places: nat): string
    requires unit > 0
  {
    Printed(n / unit) + "." + Padded(n % unit, places)
  }

  function EccNumber(e: Ecc): nat {
    match e
    case Medium => 1
    case Highest => 3
  }

  function KeyFields(key: KeyConfig): (f: seq<string>)
    ensures |f| == 15
  {
    [key.name, key.fg, key.bg,
     key.fgGradient.from, key.fgGradient.to, PrintFixed(key.fgGradient.angle, 3),
     key.bgGradient.from, key.bgGradient.to, PrintFixed(key.bgGradient.angle, 3),
     key.logoPath, key.logoBGShape, key.moduleStyle, PrintFixed(key.moduleRadius, 3),
     Printed(key.cornerRadius), Printed(key.quietZone)]
  }

  function CommonFields(job: Job): (f: seq<string>)
    ensures |f| == 11
  {
    var c := job.cleaned;
    [c.name, c.iban, c.bic, c.purpose, c.remittanceReference, c.remittanceText, c.information,
     Printed(c.amountCents), Printed(job.opt.size), Printed(EccNumber(job.opt.ecc)), PrintFixed(job.ratio, 4)]
  }

  function Fields(job: Job): (f: seq<string>)
    ensures |f| == if job.isPublic then 12 else 27
  {
    if job.isPublic then ["p"] + CommonFields(job) else ["a"] + KeyFields(job.key) + CommonFields(job)
  }

  /** What is hashed. */
  function Preimage(job: Job): string {
    Join(Fields(job), "|")
  }

  // ---- Rendering ---------------------------------------------------------------------------

  datatype Recolor =
    | Keep
    | BlackOnTransparent
    | Paint(fg: string, bg: string, fgGradient: Option<Gradient>, bgGradient: Option<Gradient>)

  datatype Logo = NoLogo | Logo(path: string, ratio: real, shape: string)

  /** Everything the rendering libraries are given. */
  datatype Plan = Plan(payload: string, opt: Options, style: Option<Raster.Style>, recolor: Recolor, logo: Logo)

  function OptionalGradient(g: Gradient): Option<Gradient> {
    if g.from != "" && g.to != "" then Some(g) else None
  }

  /** The styled renderer is used; otherwise the library's own. */
  predicate Styled(key: KeyConfig) {
    key.moduleStyle == "rounded" || key.moduleStyle == "blob" || key.cornerRadius > 0 || key.quietZone > 0
  }

  function PlanOf(isPublic: bool, payload: string, key: KeyConfig, ratio: real, opt: Options): Plan {
    var style :=
      if !isPublic && Styled(key)
      then Some(Raster.Style(key.cornerRadius, key.moduleStyle, key.moduleRadius, key.quietZone)) else None;
    var recolor :=
      if isPublic then BlackOnTransparent
      else if key.fg != "" || key.bg != "" || key.fgGradient.from != "" || key.bgGradient.from != "" then
        Paint(if key.fg == "" then "#000000" else key.fg, if key.bg == "" then "#ffffff" else key.bg,
              OptionalGradient(key.fgGradient), OptionalGradient(key.bgGradient))
      else Keep;
    var logo := if !isPublic && key.logoPath != "" then Logo(key.logoPath, ratio, key.logoBGShape) else NoLogo;
    Plan(payload, opt, style, recolor, logo)
  }

  function JobPlan(job: Job): Plan {
    PlanOf(job.isPublic, match Build(job.cleaned) case Ok(p) => p case Err(_) => "", job.key, job.ratio, job.opt)
  }

  // ---- Decisions ------------------------------------------------------------------------------

  datatype Decision = Answer(response: Response) | Render(job: Job, payload: string)

  function OptionsFor(cfg: ServerConfig, isPublic: bool, key: KeyConfig): Options {
    if isPublic then Options(cfg.qrSize, Medium)
    else Options(if key.qrSize > 0 then key.qrSize else cfg.qrSize, if key.logoPath != "" then Highest else Medium)
  }

  /** What becomes of a request that passed the rate limit. */
  function Decide(k: Casing, cfg: ServerConfig, req: Request): Decision {
    var isPublic := TrimSpace(req.apiKey) == "";
    if cfg.requireAPIKey && isPublic then Answer(Failed(Unauthorized))
    else if req.verb == HEAD && req.emptyQuery then Answer(HeadersOnly)
    else if !isPublic && req.apiKey !in cfg.keys then Answer(Failed(Unauthorized))
    else if req.input.None? then Answer(Failed(if req.verb == POST then InvalidJSON else InvalidInput))
    else
      var key := if isPublic then NO_KEY else cfg.keys[req.apiKey];
      match CleanAndValidate(k, cfg.lenientOCR, req.input.value)
      case Err(_) => Answer(Failed(InvalidInput))
      case Ok(c) =>
        match Build(c)
        case Err(_) => Answer(Failed(PayloadBuildFailed))
        case Ok(payload) =>
          Render(Job(isPublic, c, key, cfg.logoMaxRatio, OptionsFor(cfg, isPublic, key)), payload)
  }

  /** Clock readings of one request: at the rate limit, at the cache lookup and at the cache store. */
  datatype Clock = Clock(allow: int, lookup: int, store: int)

  function Served(verb: Verb): bool {
    verb == POST || verb == GET || verb == HEAD
  }

  /** The endpoint with its cache: new cache contents and the answer to an admitted request. */
  function Draw(k: Casing, cfg: ServerConfig, c: Limits, hash: string -> string, draw: Plan -> Option<Png>,
                q: seq<Item>, req: Request, clock: Clock): (seq<Item>, Response) {
    match Decide(k, cfg, req)
    case Answer(r) => (q, r)
    case Render(job, payload) =>
      var key := hash(Preimage(job));
      var (q', hit) := GetSpec(c, q, key, clock.lookup);
      if hit.Some? then (q', Picture(hit.value))
      else
        match draw(PlanOf(job.isPublic, payload, job.key, job.ratio, job.opt))
        case None => (q', Failed(QREncodeFailed))
        case Some(png) => (SetSpec(c, q', key, png, clock.store), Picture(png))
  }

  /** The endpoint without a cache. */
  function DrawUncached(k: Casing, cfg: ServerConfig, draw: Plan -> Option<Png>, req: Request): Response {
    match Decide(k, cfg, req)
    case Answer(r) => r
    case Render(job, payload) =>
      match draw(PlanOf(job.isPublic, payload, job.key, job.ratio, job.opt))
      case None => Failed(QREncodeFailed)
      case Some(png) => Picture(png)
  }

  /** The validating endpoint, after the rate limit: None means "ok". */
  function Check(k: Casing, cfg: ServerConfig, req: Request): Option<Code> {
    var isPublic := TrimSpace(req.apiKey) == "";
    if cfg.requireAPIKey && isPublic then Some(Unauthorized)
    else if !isPublic && req.apiKey !in cfg.keys then Some(Unauthorized)
    else if req.input.None? then Some(InvalidJSON)
    else if CleanAndValidate(k, cfg.lenientOCR, req.input.value).Err? then Some(InvalidInput)
    else None
  }

  class Server {
    const casing: Casing
    const cfg: ServerConfig
    const hash: string -> string
    const draw: Plan -> Option<Png>
    const limiter: Limiter.IpLimiter
    const pngCache: PngCache

    constructor (casing: Casing, cfg: ServerConfig, hash: string -> string, draw: Plan -> Option<Png>,
                 limiter: Limiter.IpLimiter, pngCache: PngCache)
      ensures this.casing == casing && this.cfg == cfg && this.hash == hash && this.draw == draw
      ensures this.limiter == limiter && this.pngCache == pngCache
    {
      this.casing, this.cfg, this.hash, this.draw := casing, cfg, hash, draw;
      this.limiter, this.pngCache := limiter, pngCache;
    }

    /** One request to the picture endpoint. */
    method HandleSEPA(req: Request, clock: Clock) returns (r: Response)
      requires limiter.Valid() && pngCache.Valid()
      modifies limiter, limiter.byIP.Values, pngCache, pngCache.ll
      ensures limiter.Valid() && pngCache.Valid()
      ensures var admitted := Limiter.Step(limiter.cfg, old(limiter.Contents()), req.ip, clock.allow);
              if req.verb == OPTIONS then
                r == AllowHeader && limiter.Contents() == old(limiter.Contents()) && pngCache.Contents() == old(pngCache.Contents())
              else if !Served(req.verb) then
                r == Failed(MethodNotAllowed) && limiter.Contents() == old(limiter.Contents()) && pngCache.Contents() == old(pngCache.Contents())
              else
                && limiter.Contents() == admitted.0
                && (pngCache.Contents(), r) ==
                     if admitted.1
                     then Draw(casing, cfg, pngCache.Settings(), hash, draw, old(pngCache.Contents()), req, clock)
                     else (old(pngCache.Contents()), Failed(RateLimited))
    {
      hide Draw, Limiter.Step;
      if req.verb == OPTIONS {
        return AllowHeader;
      }
      if req.verb != POST && !(req.verb == GET || req.verb == HEAD) {
        return Failed(MethodNotAllowed);
      }
      var admitted := limiter.Allow(req.ip, clock.allow);
      if !admitted {
        return Failed(RateLimited);
      }
      r := DrawPicture(req, clock);
    }

    /** The rest of the endpoint, once the request is admitted. */
    method DrawPicture(req: Request, clock: Clock) returns (r: Response)
      requires pngCache.Valid()
      modifies pngCache, pngCache.ll
      ensures pngCache.Valid()
      ensures (pngCache.Contents(), r) ==
        Draw(casing, cfg, pngCache.Settings(), hash, draw, old(pngCache.Contents()), req, clock)
    {
      hide Decide, GetSpec, SetSpec, Preimage, PlanOf;
      var decision := Decide(casing, cfg, req);
      if decision.Answer? {
        return decision.response;
      }
      var job, payload := decision.job, decision.payload;
      var key := hash(Preimage(job));
      var hit := pngCache.Get(key, clock.lookup);
      if hit.Some? {
        return Picture(hit.value);
      }
      var png := draw(PlanOf(job.isPublic, payload, job.key, job.ratio, job.opt));
      if png.None? {
        return Failed(QREncodeFailed);
      }
      pngCache.Set(key, png.value, clock.store);
      return Picture(png.value);
    }

    /** One request to the validating endpoint. */
    method HandleValidate(req: Request, now: int) returns (r: Option<Code>)
      requires limiter.Valid()
      modifies limiter, limiter.byIP.Values
      ensures limiter.Valid()
      ensures var admitted := Limiter.Step(limiter.cfg, old(limiter.Contents()), req.ip, now);
              if req.verb != POST then r == Some(MethodNotAllowed) && limiter.Contents() == old(limiter.Contents())
              else
                limiter.Contents() == admitted.0 && r == if admitted.1 then Check(casing, cfg, req) else Some(RateLimited)
    {
      if req.verb != POST {
        return Some(MethodNotAllowed);
      }
      var admitted := limiter.Allow(req.ip, now);
      if !admitted {
        return Some(RateLimited);
      }
      var isPublic := TrimSpace(req.apiKey) == "";
      if cfg.requireAPIKey && isPublic {
        return Some(Unauthorized);
      }
      if !isPublic && req.apiKey !in cfg.keys {
        return Some(Unauthorized);
      }
      if req.input.None? {
        return Some(InvalidJSON);
      }
      var cleaned := CleanAndValidate(casing, cfg.lenientOCR, req.input.value);
      return if cleaned.Err? then Some(InvalidInput) else None;
    }
  }
}
