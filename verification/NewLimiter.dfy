/**
 What a new limiter does with the rate, burst and ttl it is given (server/ratelimit.go).
 */
module NewLimiter {
  import opened Limiter
  import opened LimiterRuns

  function No(k: nat): (r: seq<bool>)
    ensures |r| == k
  {
    seq(k, _ => false)
  }

  function Least(a: nat, b: nat): nat {
    if a < b then a else b
  }

  /** After `n` calls of `ip` at one reading its bucket has lost a token for each, down to none. */
  ghost predicate Spent(c: Config, s: State, ip: string, now: int, n: nat)
    requires c.Valid()
  {
    && (ip in s.buckets <==> n > 0)
    && (n > 0 ==> s.buckets[ip] == Level((c.burst - Least(n, c.burst)) as real, now))
  }

  lemma SpendOne(c: Config, s: State, ip: string, now: int, n: nat)
    requires c.Valid() && Spent(c, s, ip, now, n)
    ensures Spent(c, Step(c, s, ip, now).0, ip, now, n + 1) && (Step(c, s, ip, now).1 <==> n < c.burst)
  {
    assert Earned(c.rate, 0) == 0.0;
  }

  lemma {:induction false} CallsAtOnce(c: Config, ip: string, now: int, n: nat)
    requires c.Valid()
    ensures var (s, answers) := Run(c, Copies(Event(ip, now), n));
            Spent(c, s, ip, now, n) && answers == Yes(Least(n, c.burst)) + No(n - Least(n, c.burst))
  {
    hide Step, Spent, Run;
    if n == 0 {
      NothingSpent(c, ip, now);
    } else {
      var before, e := Copies(Event(ip, now), n - 1), Event(ip, now);
      CallsAtOnce(c, ip, now, n - 1);
      SpendOne(c, Run(c, before).0, ip, now, n - 1);
      RunSnoc(c, before, e);
      assert Copies(e, n) == before + [e];
      OneMoreAnswer(n - 1, c.burst);
    }
  }

  lemma NothingSpent(c: Config, ip: string, now: int)
    requires c.Valid()
    ensures Run(c, Copies(Event(ip, now), 0)) == (EMPTY, []) && Spent(c, EMPTY, ip, now, 0)
    ensures Yes(Least(0, c.burst)) + No(0 - Least(0, c.burst)) == []
  {}

  lemma OneMoreAnswer(n: nat, burst: nat)
    ensures Yes(Least(n, burst)) + No(n - Least(n, burst)) + [n < burst]
         == Yes(Least(n + 1, burst)) + No(n + 1 - Least(n + 1, burst))
  {}

  lemma LaterCall(c: Config, s: State, ip: string, now: int, n: nat, later: int)
    requires c.Valid() && n >= c.burst && Spent(c, s, ip, now, n)
    ensures Step(c, s, ip, later).1 <==> Earned(c.rate, later - now) >= 1.0
  {}

  /**
   A new limiter admits exactly the first `burst` of any number of simultaneous calls of an
   address, and then a call exactly when at least one token has been earned at `rate` per second.
   A rate that is not positive counts as 10, a burst below 1 as 1.
   */
  lemma NewLimiterAnswers(rate: real, burst: int, ttl: int, ip: string, now: int, n: nat, later: int)
    ensures var c := Settings(rate, burst, ttl);
            var ev := Copies(Event(ip, now), n);
            var full := if burst < 1 then 1 else burst;
            && (n <= full ==> Run(c, ev).1 == Yes(n))
            && (n >= full ==>
                  && Run(c, ev).1 == Yes(full) + No(n - full)
                  && (Run(c, ev + [Event(ip, later)]).1[n] <==>
                        (if rate <= 0.0 then 10.0 else rate) * ((later - now) as real / 1_000_000_000.0) >= 1.0))
  {
    hide Step, Run, Spent, Settings;
    var c := Settings(rate, burst, ttl);
    var ev, e := Copies(Event(ip, now), n), Event(ip, later);
    SettingsGiven(rate, burst, ttl);
    CallsAtOnce(c, ip, now, n);
    assert Yes(n) + No(0) == Yes(n);
    if n >= c.burst {
      LaterCall(c, Run(c, ev).0, ip, now, n, later);
      RunSnoc(c, ev, e);
      EarnedIs(c.rate, later - now);
    }
  }

  lemma SettingsGiven(rate: real, burst: int, ttl: int)
    ensures var c := Settings(rate, burst, ttl);
            && c.rate == (if rate <= 0.0 then 10.0 else rate) && c.burst == (if burst < 1 then 1 else burst) && c.ttl == ttl
  {}

  lemma EarnedIs(rate: real, ns: int)
    ensures Earned(rate, ns) == rate * (ns as real / 1_000_000_000.0)
  {}

  /** Idle buckets are looked for on the first call, and then once half the ttl has passed, but not within a second; never when the ttl is not positive. */
  lemma CollectionDueIff(rate: real, burst: int, ttl: int, s: State, now: int)
    ensures var period := if ttl < 2_000_000_000 then 1_000_000_000 else ttl / 2;
            Due(Settings(rate, burst, ttl), s, now) <==> ttl > 0 && (s.lastGC.None? || now - s.lastGC.value >= period)
  {}

  /** So the server's limiter, whatever its rate and burst, keeps no bucket that has been idle for seven and a half minutes. */
  lemma ServerIdleBounded(rate: real, burst: int, ev: seq<Event>, ip: string)
    requires Skewed(ev, 300 * SECOND) && ev != []
    ensures var s := Run(Settings(rate, burst, 300 * SECOND), ev).0;
            ip in s.buckets ==> ev[|ev| - 1].now - s.buckets[ip].last < 450 * SECOND
  {
    var c := Settings(rate, burst, 300 * SECOND);
    assert c.gcEvery == 150 * SECOND;
    IdleAgeBounded(c, ev, 300 * SECOND);
  }
}
