/**
 Token buckets per client address, with periodic deletion of idle buckets
 (server/ratelimit.go).  Instants and durations are integers in nanoseconds,
 as in Go; token levels are reals.
 */
module Limiter {
  import opened Wrappers

  const SECOND: int := 1_000_000_000

  datatype Config = Config(rate: real, burst: int, ttl: int, gcEvery: int)
  {
    ghost predicate Valid() {
      rate > 0.0 && burst >= 1 && (ttl > 0 ==> gcEvery > 0)
    }
  }

  /** Level of one bucket and the instant it was last served. */
  datatype Level = Level(tokens: real, last: int)

  datatype State = State(buckets: map<string, Level>, lastGC: Option<int>)

  const EMPTY := State(map[], None)

  function Seconds(ns: int): real {
    ns as real / 1_000_000_000.0
  }

  /** Tokens earned while `ns` nanoseconds pass; negative when the clock reading went back. */
  function Earned(rate: real, ns: int): real {
    Seconds(ns) * rate
  }

  /** Go's `/ 2`, which truncates toward zero. */
  function Half(d: int): int {
    if d >= 0 then d / 2 else -(-d / 2)
  }

  /** The settings `newIPLimiter` stores for the values it is given. */
  function Settings(rate: real, burst: int, ttl: int): (c: Config)
    ensures c.Valid()
    ensures ttl > 0 ==> c.gcEvery >= SECOND
    ensures c.ttl == ttl && (rate > 0.0 ==> c.rate == rate) && (burst >= 1 ==> c.burst == burst)
  {
    Config(
      if rate <= 0.0 then 10.0 else rate,
      if burst < 1 then 1 else burst,
      ttl,
      if ttl > 0 && Half(ttl) < SECOND then SECOND else Half(ttl))
  }

  /** One bucket's answer to a request at `now`; a missing bucket counts as full. */
  function Serve(c: Config, prior: Option<Level>, now: int): (Level, bool) {
    match prior
    case None => (Level(c.burst as real - 1.0, now), true)
    case Some(b) =>
      var refilled := b.tokens + Earned(c.rate, now - b.last);
      var level := if refilled > c.burst as real then c.burst as real else refilled;
      if level < 1.0 then (Level(level, now), false) else (Level(level - 1.0, now), true)
  }

  function Lookup(bs: map<string, Level>, ip: string): Option<Level> {
    if ip in bs then Some(bs[ip]) else None
  }

  function Collect(c: Config, bs: map<string, Level>, now: int): map<string, Level> {
    map ip | ip in bs && now - bs[ip].last <= c.ttl :: bs[ip]
  }

  predicate Due(c: Config, s: State, now: int) {
    c.ttl > 0 && c.gcEvery > 0 && (s.lastGC.None? || now - s.lastGC.value >= c.gcEvery)
  }

  function MaybeCollect(c: Config, s: State, now: int): State {
    if Due(c, s, now) then State(Collect(c, s.buckets, now), Some(now)) else s
  }

  function Step(c: Config, s: State, ip: string, now: int): (State, bool) {
    var (b, ok) := Serve(c, Lookup(s.buckets, ip), now);
    (MaybeCollect(c, s.(buckets := s.buckets[ip := b]), now), ok)
  }

  class Bucket {
    var tokens: real
    var last: int

    constructor (tokens: real, last: int)
      ensures this.tokens == tokens && this.last == last
    {
      this.tokens, this.last := tokens, last;
    }
  }

  class IpLimiter {
    const cfg: Config
    var lastGC: Option<int>
    var byIP: map<string, Bucket>

    ghost predicate Valid()
      reads this
    {
      && cfg.Valid()
      && forall a, b :: a in byIP && b in byIP && a != b ==> byIP[a] != byIP[b]
    }

    ghost function Contents(): State
      reads this, byIP.Values
    {
      State(map ip | ip in byIP :: Level(byIP[ip].tokens, byIP[ip].last), lastGC)
    }

    constructor (rate: real, burst: int, ttl: int)
      ensures Valid() && fresh(byIP.Values)
      ensures cfg == Settings(rate, burst, ttl) && Contents() == EMPTY
    {
      var r := rate;
      if r <= 0.0 { r := 10.0; }
      var n := burst;
      if n < 1 { n := 1; }
      var gcEvery := Half(ttl);
      if ttl > 0 && gcEvery < SECOND { gcEvery := SECOND; }
      cfg := Config(r, n, ttl, gcEvery);
      lastGC := None;
      byIP := map[];
    }

    /** One call under the mutex; `now` is the clock reading taken before the lock. */
    method Allow(ip: string, now: int) returns (ok: bool)
      requires Valid()
      modifies this, byIP.Values
      ensures Valid() && forall b :: b in byIP.Values ==> b in old(byIP.Values) || fresh(b)
      ensures (Contents(), ok) == Step(cfg, old(Contents()), ip, now)
    {
      ghost var prior := Contents();
      ghost var served := Serve(cfg, Lookup(prior.buckets, ip), now);
      if ip !in byIP {
        var b := new Bucket(cfg.burst as real - 1.0, now);
        byIP := byIP[ip := b];
        ok := true;
      } else {
        var b := byIP[ip];
        assert b in byIP.Values;
        b.tokens := b.tokens + Earned(cfg.rate, now - b.last);
        if b.tokens > cfg.burst as real {
          b.tokens := cfg.burst as real;
        }
        b.last := now;
        ok := b.tokens >= 1.0;
        if ok {
          b.tokens := b.tokens - 1.0;
        }
      }
      assert ok == served.1 && Level(byIP[ip].tokens, byIP[ip].last) == served.0;
      assert Contents().buckets == prior.buckets[ip := served.0];
      MaybeGC(now);
    }

    method MaybeGC(now: int)
      requires Valid()
      modifies this
      ensures Valid() && byIP.Values <= old(byIP.Values)
      ensures Contents() == MaybeCollect(cfg, old(Contents()), now)
    {
      if cfg.ttl <= 0 || cfg.gcEvery <= 0 {
        return;
      }
      if lastGC.None? || now - lastGC.value >= cfg.gcEvery {
        lastGC := Some(now);
        GC(now);
      }
    }

    /** Deletes in whatever order the map is iterated. */
    method GC(now: int)
      requires Valid() && cfg.ttl > 0
      modifies `byIP
      ensures Valid() && byIP.Values <= old(byIP.Values)
      ensures Contents() == old(Contents()).(buckets := Collect(cfg, old(Contents()).buckets, now))
    {
      var todo := byIP.Keys;
      while todo != {}
        invariant todo <= byIP.Keys <= old(byIP.Keys)
        invariant forall ip :: ip in byIP ==> byIP[ip] == old(byIP)[ip]
        invariant forall ip :: ip in old(byIP) ==>
          (ip in byIP <==> ip in todo || now - old(byIP)[ip].last <= cfg.ttl)
      {
        var ip :| ip in todo;
        todo := todo - {ip};
        if now - byIP[ip].last > cfg.ttl {
          byIP := byIP - {ip};
        }
      }
      assert forall ip :: ip in byIP ==> ip in old(byIP) && byIP[ip] in old(byIP.Values);
    }
  }
}
