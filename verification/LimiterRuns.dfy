/**
 Whole runs of the limiter: a run is the sequence of `Allow` calls in lock order.
 */
module LimiterRuns {
  import opened Wrappers
  import opened Limiter

  datatype Event = Event(ip: string, now: int)

  /** Final state and all answers of a run. */
  function Run(c: Config, ev: seq<Event>): (r: (State, seq<bool>))
    ensures |r.1| == |ev|
  {
    if ev == [] then (EMPTY, [])
    else
      var (s, answers) := Run(c, ev[..|ev| - 1]);
      var e := ev[|ev| - 1];
      var (s', ok) := Step(c, s, e.ip, e.now);
      (s', answers + [ok])
  }

  lemma RunSnoc(c: Config, ev: seq<Event>, e: Event)
    ensures var (s, answers) := Run(c, ev);
            var (s', ok) := Step(c, s, e.ip, e.now);
            Run(c, ev + [e]) == (s', answers + [ok])
  {
    assert (ev + [e])[..|ev|] == ev;
  }

  /**
   No clock reading is more than `skew` behind an earlier call's: readings are taken before
   the lock, so calls may pass each other.  With `skew == 0` lock order is clock order.
   */
  ghost predicate Skewed(ev: seq<Event>, skew: nat) {
    forall i, j :: 0 <= i < j < |ev| ==> ev[i].now <= ev[j].now + skew
  }

  /** The same limiter with deletion switched off. */
  function NeverCollect(c: Config): Config {
    c.(ttl := 0)
  }

  /**
   An idle bucket refills completely before its deletion can matter.  Deletion needs an age of
   at least ttl + 1 ns; a reading that went back may have cost the bucket `skew` of refill
   before, and may count `skew` less afterwards.
   */
  ghost predicate RefillsBeforeCollection(c: Config, skew: nat) {
    c.ttl <= 0 || Earned(c.rate, c.ttl + 1 - 2 * skew) >= c.burst as real
  }

  /** Nobody can tell from the answers that buckets are deleted. */
  ghost predicate GcInvisible(c: Config, skew: nat) {
    forall ev :: Skewed(ev, skew) ==> Run(c, ev).1 == Run(NeverCollect(c), ev).1
  }

  // ---- One address on its own -------------------------------------------------

  function TimesOf(ev: seq<Event>, ip: string): seq<int> {
    if ev == [] then []
    else
      var e := ev[|ev| - 1];
      TimesOf(ev[..|ev| - 1], ip) + if e.ip == ip then [e.now] else []
  }

  function AnswersTo(ev: seq<Event>, answers: seq<bool>, ip: string): (r: seq<bool>)
    requires |ev| == |answers|
    ensures |r| == |TimesOf(ev, ip)|
  {
    if ev == [] then []
    else
      var n := |ev| - 1;
      AnswersTo(ev[..n], answers[..n], ip) + if ev[n].ip == ip then [answers[n]] else []
  }

  /** A single bucket that is never deleted, serving requests at the given times. */
  function Alone(c: Config, ts: seq<int>): (r: (Option<Level>, seq<bool>))
    ensures |r.1| == |ts|
    ensures r.0.None? <==> ts == []
    ensures ts != [] ==> r.0.value.last == ts[|ts| - 1]
  {
    if ts == [] then (None, [])
    else
      var (b, answers) := Alone(c, ts[..|ts| - 1]);
      var (b', ok) := Serve(c, b, ts[|ts| - 1]);
      (Some(b'), answers + [ok])
  }

  function Count(bs: seq<bool>): nat {
    if bs == [] then 0 else Count(bs[..|bs| - 1]) + if bs[|bs| - 1] then 1 else 0
  }

  lemma EarnedAdds(rate: real, d: int, e: int)
    ensures Earned(rate, d) + Earned(rate, e) == Earned(rate, d + e)
  {
    assert Seconds(d) + Seconds(e) == Seconds(d + e);
  }

  lemma EarnedGrows(rate: real, d: int, e: int)
    requires rate > 0.0 && d <= e
    ensures Earned(rate, d) <= Earned(rate, e)
    ensures 0 <= e ==> 0.0 <= Earned(rate, e)
  {
    assert Seconds(d) <= Seconds(e);
  }

  // ---- How far a level can fall ------------------------------------------------

  ghost predicate SkewedTimes(ts: seq<int>, skew: nat) {
    forall i, j :: 0 <= i < j < |ts| ==> ts[i] <= ts[j] + skew
  }

  lemma {:induction false} TimesWithin(ev: seq<Event>, ip: string, bound: int)
    requires forall i :: 0 <= i < |ev| ==> ev[i].now <= bound
    ensures forall i :: 0 <= i < |TimesOf(ev, ip)| ==> TimesOf(ev, ip)[i] <= bound
  {
    if ev != [] { TimesWithin(ev[..|ev| - 1], ip, bound); }
  }

  lemma {:induction false} TimesSkewed(ev: seq<Event>, ip: string, skew: nat)
    requires Skewed(ev, skew)
    ensures SkewedTimes(TimesOf(ev, ip), skew)
  {
    if ev != [] {
      var n := |ev| - 1;
      TimesSkewed(ev[..n], ip, skew);
      TimesWithin(ev[..n], ip, ev[n].now + skew);
    }
  }

  /** At the latest reading `top` the bucket held no debt, whatever order the readings came in. */
  lemma {:induction false} NoDebtAtTop(c: Config, ts: seq<int>) returns (top: int)
    requires c.Valid() && ts != []
    ensures top in ts && forall i :: 0 <= i < |ts| ==> ts[i] <= top
    ensures Alone(c, ts).0.value.tokens + Earned(c.rate, top - ts[|ts| - 1]) >= 0.0
  {
    var n := |ts| - 1;
    top := ts[n];
    assert Earned(c.rate, 0) == 0.0;
    if n > 0 {
      var before := NoDebtAtTop(c, ts[..n]);
      if before > top { top := before; }
      assert ts[..n][n - 1] == ts[n - 1];
      assert ts[n] in ts && forall t :: t in ts[..n] ==> t in ts;
      EarnedAdds(c.rate, top - ts[n], ts[n] - ts[n - 1]);
      EarnedGrows(c.rate, before - ts[n - 1], top - ts[n - 1]);
      EarnedGrows(c.rate, 0, top - ts[n]);
    }
  }

  /** Readings that go back can leave a debt of at most `skew` of refill. */
  lemma DebtBounded(c: Config, ts: seq<int>, skew: nat)
    requires c.Valid() && SkewedTimes(ts, skew) && ts != []
    ensures Alone(c, ts).0.value.tokens >= -Earned(c.rate, skew)
  {
    var top := NoDebtAtTop(c, ts);
    var i :| 0 <= i < |ts| && ts[i] == top;
    EarnedGrows(c.rate, top - ts[|ts| - 1], skew);
  }

  // ---- Collection cannot be observed ------------------------------------------

  /** Latest reading so far. */
  function Top(ev: seq<Event>): (t: int)
    requires ev != []
    ensures exists i :: 0 <= i < |ev| && ev[i].now == t
  {
    var n := |ev| - 1;
    if n == 0 || Top(ev[..n]) <= ev[n].now then ev[n].now else Top(ev[..n])
  }

  /**
   The bucket of `ip` in the collecting limiter is the one that lives alone, or was deleted
   when that one was older than ttl, at a reading no later than `top`.
   */
  ghost predicate Follows(c: Config, s: State, alone: Option<Level>, ip: string, top: int) {
    if ip in s.buckets then alone == Some(s.buckets[ip])
    else alone.Some? ==> c.ttl > 0 && top - alone.value.last > c.ttl
  }

  lemma ServeAgrees(c: Config, s: State, alone: Option<Level>, ip: string, top: int, now: int, skew: nat)
    requires c.Valid() && RefillsBeforeCollection(c, skew) && Follows(c, s, alone, ip, top) && top <= now + skew
    requires alone.Some? ==> alone.value.tokens >= -Earned(c.rate, skew)
    ensures Serve(c, Lookup(s.buckets, ip), now) == Serve(c, alone, now)
  {
    if ip !in s.buckets && alone.Some? {
      var idle := now - alone.value.last;
      EarnedAdds(c.rate, 0 - skew, idle);
      EarnedAdds(c.rate, 0 - skew, skew);
      EarnedGrows(c.rate, c.ttl + 1 - 2 * skew, idle - skew);
      assert Earned(c.rate, 0) == 0.0;
    }
  }

  lemma FollowsServed(c: Config, s: State, alone: Option<Level>, ip: string, now: int, top: int)
    requires c.Valid() && now <= top && Serve(c, Lookup(s.buckets, ip), now) == Serve(c, alone, now)
    ensures Follows(c, Step(c, s, ip, now).0, Some(Serve(c, alone, now).0), ip, top)
  {}

  lemma FollowsOther(c: Config, s: State, alone: Option<Level>, ip: string, other: string, now: int, top: int, later: int)
    requires Follows(c, s, alone, ip, top) && other != ip && top <= later && now <= later
    ensures Follows(c, Step(c, s, other, now).0, alone, ip, later)
  {}

  lemma {:induction false} Tracks(c: Config, ev: seq<Event>, ip: string, skew: nat)
    requires c.Valid() && RefillsBeforeCollection(c, skew) && Skewed(ev, skew) && ev != []
    ensures Follows(c, Run(c, ev).0, Alone(c, TimesOf(ev, ip)).0, ip, Top(ev))
    decreases ev, 1
  {
    var n := |ev| - 1;
    var e, earlier := ev[n], TimesOf(ev[..n], ip);
    if e.ip == ip {
      AnswersAgree(c, ev, skew);
      AloneSnoc(c, earlier, e.now);
      FollowsServed(c, Run(c, ev[..n]).0, Alone(c, earlier).0, ip, e.now, Top(ev));
    } else {
      assert TimesOf(ev, ip) == earlier;
      if n > 0 {
        Tracks(c, ev[..n], ip, skew);
        FollowsOther(c, Run(c, ev[..n]).0, Alone(c, earlier).0, ip, e.ip, e.now, Top(ev[..n]), Top(ev));
      }
    }
  }

  /** The last call is served as the lone bucket would serve it. */
  lemma {:induction false} AnswersAgree(c: Config, ev: seq<Event>, skew: nat)
    requires c.Valid() && RefillsBeforeCollection(c, skew) && Skewed(ev, skew) && ev != []
    ensures var n := |ev| - 1;
            Serve(c, Lookup(Run(c, ev[..n]).0.buckets, ev[n].ip), ev[n].now)
              == Serve(c, Alone(c, TimesOf(ev[..n], ev[n].ip)).0, ev[n].now)
    decreases ev, 0
  {
    var n := |ev| - 1;
    var ip := ev[n].ip;
    if n > 0 {
      var earlier := TimesOf(ev[..n], ip);
      Tracks(c, ev[..n], ip, skew);
      TimesSkewed(ev[..n], ip, skew);
      if earlier != [] { DebtBounded(c, earlier, skew); }
      var i :| 0 <= i < n && ev[..n][i].now == Top(ev[..n]);
      ServeAgrees(c, Run(c, ev[..n]).0, Alone(c, earlier).0, ip, Top(ev[..n]), ev[n].now, skew);
    }
  }

  /** The last answer of a run is the one the lone bucket would give. */
  lemma LastAnswer(c: Config, ev: seq<Event>, skew: nat)
    requires c.Valid() && RefillsBeforeCollection(c, skew) && Skewed(ev, skew) && ev != []
    ensures var n := |ev| - 1;
            var own := Alone(c, TimesOf(ev[..n], ev[n].ip)).0;
            Run(c, ev).1 == Run(c, ev[..n]).1 + [Serve(c, own, ev[n].now).1]
  {
    AnswersAgree(c, ev, skew);
  }

  lemma AloneSnoc(c: Config, ts: seq<int>, t: int)
    ensures Alone(c, ts + [t]).1 == Alone(c, ts).1 + [Serve(c, Alone(c, ts).0, t).1]
    ensures Alone(c, ts + [t]).0 == Some(Serve(c, Alone(c, ts).0, t).0)
  {
    assert (ts + [t])[..|ts|] == ts;
  }

  /**
   Isolation: what one address is told depends on its own request times only,
   whatever the others send and whenever buckets are deleted.
   */
  lemma {:induction false} Isolation(c: Config, ev: seq<Event>, ip: string, skew: nat)
    requires c.Valid() && RefillsBeforeCollection(c, skew) && Skewed(ev, skew)
    ensures AnswersTo(ev, Run(c, ev).1, ip) == Alone(c, TimesOf(ev, ip)).1
  {
    if ev != [] {
      var n := |ev| - 1;
      Isolation(c, ev[..n], ip, skew);
      LastAnswer(c, ev, skew);
      var before, after := Run(c, ev[..n]).1, Run(c, ev).1;
      assert after[..n] == before;
      if ev[n].ip == ip {
        AloneSnoc(c, TimesOf(ev[..n], ip), ev[n].now);
        assert AnswersTo(ev, after, ip) == AnswersTo(ev[..n], before, ip) + [after[n]];
      } else {
        assert AnswersTo(ev, after, ip) == AnswersTo(ev[..n], before, ip);
        assert TimesOf(ev, ip) == TimesOf(ev[..n], ip);
      }
    }
  }

  lemma {:induction false} AloneIgnoresTtl(c: Config, ts: seq<int>)
    ensures Alone(c, ts) == Alone(NeverCollect(c), ts)
  {
    if ts != [] {
      var n := |ts| - 1;
      AloneIgnoresTtl(c, ts[..n]);
      var b := Alone(c, ts[..n]).0;
      assert Serve(c, b, ts[n]) == Serve(NeverCollect(c), b, ts[n]);
    }
  }

  lemma {:induction false} AnswersMatch(c: Config, ev: seq<Event>, skew: nat)
    requires c.Valid() && RefillsBeforeCollection(c, skew) && Skewed(ev, skew)
    ensures Run(c, ev).1 == Run(NeverCollect(c), ev).1
  {
    if ev != [] {
      var n := |ev| - 1;
      AnswersMatch(c, ev[..n], skew);
      LastAnswer(c, ev, skew);
      LastAnswer(NeverCollect(c), ev, skew);
      var ts := TimesOf(ev[..n], ev[n].ip);
      AloneIgnoresTtl(c, ts);
      var b := Alone(c, ts).0;
      assert Serve(c, b, ev[n].now) == Serve(NeverCollect(c), b, ev[n].now);
    }
  }

  // ---- Admission bounds ---------------------------------------------------------

  /** Requests admitted at a time in start..end. */
  function AdmittedWithin(ts: seq<int>, answers: seq<bool>, start: int, end: int): nat
    requires |ts| == |answers|
  {
    if ts == [] then 0
    else
      var n := |ts| - 1;
      AdmittedWithin(ts[..n], answers[..n], start, end) + if answers[n] && start <= ts[n] <= end then 1 else 0
  }

  /**
   Admissions of a lone bucket in a window, for readings in any order: `first` is the reading of
   the first of them, and they are paid for by one full bucket and the refill since.
   */
  lemma {:induction false} AloneWindow(c: Config, ts: seq<int>, start: int, end: int) returns (first: int)
    requires c.Valid() && start <= end
    ensures var w := AdmittedWithin(ts, Alone(c, ts).1, start, end);
            && w as real <= c.burst as real + Earned(c.rate, end - start)
            && (w > 0 ==> start <= first && w as real + Alone(c, ts).0.value.tokens
                          <= c.burst as real + Earned(c.rate, ts[|ts| - 1] - first))
  {
    EarnedGrows(c.rate, 0, end - start);
    first := start;
    if ts != [] {
      var n := |ts| - 1;
      first := AloneWindow(c, ts[..n], start, end);
      assert Alone(c, ts).1[..n] == Alone(c, ts[..n]).1;
      if AdmittedWithin(ts[..n], Alone(c, ts[..n]).1, start, end) == 0 {
        first := ts[n];
        assert Earned(c.rate, 0) == 0.0;
      } else {
        EarnedAdds(c.rate, ts[n - 1] - first, ts[n] - ts[n - 1]);
      }
      if ts[n] <= end { EarnedGrows(c.rate, ts[n] - first, end - start); }
    }
  }

  /** Window bound: at most burst + rate * (end - start) requests of one address pass between two readings. */
  lemma WindowBound(c: Config, ev: seq<Event>, ip: string, start: int, end: int, skew: nat)
    requires c.Valid() && RefillsBeforeCollection(c, skew) && Skewed(ev, skew) && start <= end
    ensures AdmittedWithin(TimesOf(ev, ip), AnswersTo(ev, Run(c, ev).1, ip), start, end) as real
         <= c.burst as real + Earned(c.rate, end - start)
  {
    Isolation(c, ev, ip, skew);
    var first := AloneWindow(c, TimesOf(ev, ip), start, end);
  }

  /** Requests of `ip` admitted from call number `from` on. */
  function AdmittedFrom(ev: seq<Event>, answers: seq<bool>, ip: string, from: nat): nat
    requires |ev| == |answers|
  {
    if |ev| <= from then 0
    else
      var n := |ev| - 1;
      AdmittedFrom(ev[..n], answers[..n], ip, from) + if answers[n] && ev[n].ip == ip then 1 else 0
  }

  /** The bucket of `ip` exists after each of the calls from..|ev| - 1. */
  ghost predicate KeptSince(c: Config, ev: seq<Event>, ip: string, from: nat) {
    forall k :: from < k <= |ev| ==> ip in Run(c, ev[..k]).0.buckets
  }

  /** Tokens left plus requests admitted since `start` are paid for by burst and refill. */
  ghost predicate Solvent(c: Config, s: State, ip: string, start: int, admitted: nat) {
    && ip in s.buckets
    && admitted as real + s.buckets[ip].tokens <= c.burst as real + Earned(c.rate, s.buckets[ip].last - start)
  }

  lemma StepSolvent(c: Config, s: State, e: Event, ip: string, start: int, admitted: nat)
    requires c.Valid() && Solvent(c, s, ip, start, admitted) && ip in Step(c, s, e.ip, e.now).0.buckets
    ensures var (s', ok) := Step(c, s, e.ip, e.now);
            && Solvent(c, s', ip, start, admitted + if ok && e.ip == ip then 1 else 0)
            && (e.ip == ip ==> s'.buckets[ip].last == e.now && (ok ==> s'.buckets[ip].tokens >= 0.0))
  {
    EarnedAdds(c.rate, s.buckets[ip].last - start, e.now - s.buckets[ip].last);
  }

  lemma FirstSolvent(c: Config, s: State, e: Event)
    requires c.Valid() && Step(c, s, e.ip, e.now).1 && e.ip in Step(c, s, e.ip, e.now).0.buckets
    ensures var s' := Step(c, s, e.ip, e.now).0;
            Solvent(c, s', e.ip, e.now, 1) && s'.buckets[e.ip].last == e.now && s'.buckets[e.ip].tokens >= 0.0
  {}

  lemma {:induction false} TokensPayForAdmissions(c: Config, ev: seq<Event>, ip: string, from: nat)
    requires c.Valid() && from < |ev| && ev[from].ip == ip && Run(c, ev).1[from] && KeptSince(c, ev, ip, from)
    ensures Solvent(c, Run(c, ev).0, ip, ev[from].now, AdmittedFrom(ev, Run(c, ev).1, ip, from))
    ensures ev[|ev| - 1].ip == ip ==>
            && Run(c, ev).0.buckets[ip].last == ev[|ev| - 1].now
            && (Run(c, ev).1[|ev| - 1] ==> Run(c, ev).0.buckets[ip].tokens >= 0.0)
  {
    var n := |ev| - 1;
    var s, answers := Run(c, ev[..n]).0, Run(c, ev).1;
    assert ev[..|ev|] == ev;
    assert answers[..n] == Run(c, ev[..n]).1;
    if from < n {
      KeptPrefix(c, ev, ip, from);
      TokensPayForAdmissions(c, ev[..n], ip, from);
      StepSolvent(c, s, ev[n], ip, ev[from].now, AdmittedFrom(ev[..n], answers[..n], ip, from));
    } else {
      FirstSolvent(c, s, ev[n]);
    }
  }

  lemma KeptPrefix(c: Config, ev: seq<Event>, ip: string, from: nat)
    requires KeptSince(c, ev, ip, from) && ev != []
    ensures KeptSince(c, ev[..|ev| - 1], ip, from)
  {
    var n := |ev| - 1;
    forall k | from < k <= n ensures ip in Run(c, ev[..n][..k]).0.buckets {
      assert ev[..n][..k] == ev[..k];
    }
  }

  /**
   The same bound from one admitted request to a later one in lock order, for any clock
   readings, even ones that run backwards, as long as the bucket is not deleted in between.
   */
  lemma BoundInLockOrder(c: Config, ev: seq<Event>, ip: string, from: nat)
    requires c.Valid() && from < |ev| && KeptSince(c, ev, ip, from)
    requires ev[from].ip == ip && Run(c, ev).1[from]
    requires ev[|ev| - 1].ip == ip && Run(c, ev).1[|ev| - 1]
    ensures AdmittedFrom(ev, Run(c, ev).1, ip, from) as real
         <= c.burst as real + Earned(c.rate, ev[|ev| - 1].now - ev[from].now)
  {
    TokensPayForAdmissions(c, ev, ip, from);
  }

  /** Consecutive requests are at least 1/rate apart. */
  ghost predicate Spaced(c: Config, ts: seq<int>) {
    forall i :: 0 < i < |ts| ==> Earned(c.rate, ts[i] - ts[i - 1]) >= 1.0
  }

  ghost predicate Paid(s: State, ts: seq<int>, ip: string) {
    ip in s.buckets ==>
      ts != [] && s.buckets[ip].last == ts[|ts| - 1] && s.buckets[ip].tokens >= 0.0
  }

  lemma SpacedStart(ip: string)
    ensures Paid(EMPTY, [], ip)
  {}

  lemma SpacedStep(c: Config, s: State, e: Event, ts: seq<int>, ip: string)
    requires c.Valid() && Paid(s, ts, ip)
    requires e.ip == ip ==> Spaced(c, ts + [e.now])
    ensures e.ip == ip ==> Step(c, s, ip, e.now).1
    ensures Paid(Step(c, s, e.ip, e.now).0, if e.ip == ip then ts + [e.now] else ts, ip)
  {
    if e.ip == ip && ip in s.buckets {
      var next := ts + [e.now];
      assert Earned(c.rate, next[|ts|] - next[|ts| - 1]) >= 1.0;
    }
  }

  /** Requests spaced at least 1/rate apart are never denied, whatever other addresses do and however clocks read. */
  lemma {:induction false} SpacedNeverDenied(c: Config, ev: seq<Event>, ip: string)
    requires c.Valid() && Spaced(c, TimesOf(ev, ip))
    ensures forall i :: 0 <= i < |ev| && ev[i].ip == ip ==> Run(c, ev).1[i]
    ensures Paid(Run(c, ev).0, TimesOf(ev, ip), ip)
  {
    hide Step, Paid;
    if ev == [] {
      assert Paid(EMPTY, [], ip) by { SpacedStart(ip); }
    } else {
      var n := |ev| - 1;
      var before := TimesOf(ev[..n], ip);
      assert TimesOf(ev, ip) == if ev[n].ip == ip then before + [ev[n].now] else before;
      assert forall i :: 0 <= i < |before| ==> TimesOf(ev, ip)[i] == before[i];
      SpacedNeverDenied(c, ev[..n], ip);
      SpacedStep(c, Run(c, ev[..n]).0, ev[n], before, ip);
      assert Run(c, ev).1 == Run(c, ev[..n]).1 + [Step(c, Run(c, ev[..n]).0, ev[n].ip, ev[n].now).1];
      forall i | 0 <= i < n && ev[i].ip == ip ensures Run(c, ev).1[i] {
        assert ev[..n][i] == ev[i];
      }
    }
  }

  // ---- Greedy optimality ----------------------------------------------------------

  /**
   Level of a (rate, burst) bucket that started full, under a policy that answers `ds`
   to requests at `ts`, whatever its reasons.
   */
  function PolicyLevel(c: Config, ts: seq<int>, ds: seq<bool>): real
    requires |ts| == |ds|
  {
    if ts == [] then c.burst as real
    else
      var n := |ts| - 1;
      var level := PolicyLevel(c, ts[..n], ds[..n]) + if n == 0 then 0.0 else Earned(c.rate, ts[n] - ts[n - 1]);
      (if level > c.burst as real then c.burst as real else level) - if ds[n] then 1.0 else 0.0
  }

  /** A policy that never overdraws its bucket. */
  ghost predicate Feasible(c: Config, ts: seq<int>, ds: seq<bool>) {
    && |ts| == |ds|
    && forall k :: 0 <= k <= |ts| ==> PolicyLevel(c, ts[..k], ds[..k]) >= 0.0
  }

  lemma FeasiblePrefix(c: Config, ts: seq<int>, ds: seq<bool>)
    requires Feasible(c, ts, ds) && ts != []
    ensures Feasible(c, ts[..|ts| - 1], ds[..|ts| - 1])
  {
    var n := |ts| - 1;
    forall k | 0 <= k <= n ensures PolicyLevel(c, ts[..n][..k], ds[..n][..k]) >= 0.0 {
      assert ts[..n][..k] == ts[..k] && ds[..n][..k] == ds[..k];
    }
  }

  lemma CountSnoc(bs: seq<bool>, b: bool)
    ensures Count(bs + [b]) == Count(bs) + if b then 1 else 0
  {
    assert (bs + [b])[..|bs|] == bs;
  }

  lemma PolicyLast(c: Config, ts: seq<int>, ds: seq<bool>)
    requires |ts| == |ds| > 0
    ensures var n := |ts| - 1;
            var level := PolicyLevel(c, ts[..n], ds[..n]) + if n == 0 then 0.0 else Earned(c.rate, ts[n] - ts[n - 1]);
            PolicyLevel(c, ts, ds) == (if level > c.burst as real then c.burst as real else level) - if ds[n] then 1.0 else 0.0
  {}

  lemma PolicySnoc(c: Config, ts: seq<int>, t: int, ds: seq<bool>, d: bool)
    requires |ts| == |ds|
    ensures var level := PolicyLevel(c, ts, ds) + if ts == [] then 0.0 else Earned(c.rate, t - ts[|ts| - 1]);
            PolicyLevel(c, ts + [t], ds + [d])
              == (if level > c.burst as real then c.burst as real else level) - if d then 1.0 else 0.0
  {
    hide Earned, PolicyLevel;
    PolicyLast(c, ts + [t], ds + [d]);
    assert (ts + [t])[..|ts|] == ts && (ds + [d])[..|ds|] == ds;
  }

  lemma FeasibleNow(c: Config, ts: seq<int>, ds: seq<bool>)
    requires Feasible(c, ts, ds)
    ensures |ts| == |ds| && PolicyLevel(c, ts, ds) >= 0.0
  {
    assert ts[..|ts|] == ts && ds[..|ts|] == ds;
  }

  /**
   A policy that is `lead` admissions behind holds at most a full bucket, and at most `lead`
   tokens more than the limiter's bucket, if there is one.
   */
  ghost predicate Ahead(c: Config, s: State, ip: string, ts: seq<int>, policy: real, lead: int) {
    && lead >= 0 && policy <= c.burst as real
    && (ip in s.buckets ==>
          ts != [] && s.buckets[ip].last == ts[|ts| - 1] && policy <= s.buckets[ip].tokens + lead as real)
  }

  lemma OwnStep(c: Config, s: State, ip: string, now: int, ts: seq<int>, policy: real, lead: int, d: bool)
    requires c.Valid() && Ahead(c, s, ip, ts, policy, lead)
    ensures var level := policy + if ts == [] then 0.0 else Earned(c.rate, now - ts[|ts| - 1]);
            var p := (if level > c.burst as real then c.burst as real else level) - if d then 1.0 else 0.0;
            var (s', ok) := Step(c, s, ip, now);
            p >= 0.0 ==> Ahead(c, s', ip, ts + [now], p, lead + (if ok then 1 else 0) - if d then 1 else 0)
  {}

  lemma OtherStep(c: Config, s: State, ip: string, other: string, now: int, ts: seq<int>, policy: real, lead: int)
    requires Ahead(c, s, ip, ts, policy, lead) && other != ip
    ensures Ahead(c, Step(c, s, other, now).0, ip, ts, policy, lead)
  {}

  lemma {:induction false} StaysAhead(c: Config, ev: seq<Event>, ip: string, ds: seq<bool>)
    requires c.Valid() && Feasible(c, TimesOf(ev, ip), ds)
    ensures |TimesOf(ev, ip)| == |ds|
    ensures Ahead(c, Run(c, ev).0, ip, TimesOf(ev, ip), PolicyLevel(c, TimesOf(ev, ip), ds),
                  Count(AnswersTo(ev, Run(c, ev).1, ip)) - Count(ds))
  {
    hide Step, Earned, Feasible, Count, Ahead, Run, TimesOf, AnswersTo, PolicyLevel;
    FeasibleNow(c, TimesOf(ev, ip), ds);
    if ev == [] {
      StartsAhead(c, ip);
    } else {
      var n := |ev| - 1;
      var e, s := ev[n], Run(c, ev[..n]).0;
      var earlier, before := TimesOf(ev[..n], ip), AnswersTo(ev[..n], Run(c, ev[..n]).1, ip);
      OneMoreCall(c, ev, ip);
      if e.ip == ip {
        var k := |earlier|;
        assert (earlier + [e.now])[..k] == earlier && ds == ds[..k] + [ds[k]];
        FeasiblePrefix(c, earlier + [e.now], ds);
        StaysAhead(c, ev[..n], ip, ds[..k]);
        PolicySnoc(c, earlier, e.now, ds[..k], ds[k]);
        CountSnoc(ds[..k], ds[k]);
        CountSnoc(before, Step(c, s, ip, e.now).1);
        OwnStep(c, s, ip, e.now, earlier, PolicyLevel(c, earlier, ds[..k]), Count(before) - Count(ds[..k]), ds[k]);
      } else {
        assert earlier + [] == earlier && before + [] == before;
        StaysAhead(c, ev[..n], ip, ds);
        OtherStep(c, s, ip, e.ip, e.now, earlier, PolicyLevel(c, earlier, ds), Count(before) - Count(ds));
      }
    }
  }

  /** What one more call adds to the history of an address. */
  lemma OneMoreCall(c: Config, ev: seq<Event>, ip: string)
    requires ev != []
    ensures var n := |ev| - 1;
            var s := Run(c, ev[..n]).0;
            var (s', ok) := Step(c, s, ev[n].ip, ev[n].now);
            && Run(c, ev).0 == s'
            && TimesOf(ev, ip) == TimesOf(ev[..n], ip) + (if ev[n].ip == ip then [ev[n].now] else [])
            && AnswersTo(ev, Run(c, ev).1, ip) == AnswersTo(ev[..n], Run(c, ev[..n]).1, ip) + if ev[n].ip == ip then [ok] else []
  {
    hide Step;
    var n := |ev| - 1;
    assert Run(c, ev).1[..n] == Run(c, ev[..n]).1;
  }

  lemma StartsAhead(c: Config, ip: string)
    ensures Run(c, []).0 == EMPTY && TimesOf([], ip) == [] && AnswersTo([], [], ip) == []
    ensures Ahead(c, EMPTY, ip, [], PolicyLevel(c, [], []), Count([]) - Count([]))
  {}

  lemma ServeKeepsNonNegative(c: Config, b: Option<Level>, now: int)
    requires c.Valid() && (b.Some? ==> b.value.tokens >= 0.0 && b.value.last <= now)
    ensures Serve(c, b, now).0.tokens >= 0.0
  {
    if b.Some? { EarnedGrows(c.rate, 0, now - b.value.last); }
  }

  /** A bucket that is served keeps the level of the policy that answers as it does. */
  lemma ServedLevel(c: Config, prior: Option<Level>, now: int, level: real, earned: real)
    requires c.Valid() && (prior.None? ==> level == c.burst as real && earned == 0.0)
    requires prior.Some? ==> level == prior.value.tokens && earned == Earned(c.rate, now - prior.value.last)
    ensures var sum := level + earned;
            (if sum > c.burst as real then c.burst as real else sum) - (if Serve(c, prior, now).1 then 1.0 else 0.0)
              == Serve(c, prior, now).0.tokens
  {}

  /** What `Allow` does is itself such a policy when readings do not go back, so the bound below is attained. */
  lemma {:induction false} GreedyIsFeasible(c: Config, ts: seq<int>)
    requires c.Valid() && SkewedTimes(ts, 0)
    ensures Feasible(c, ts, Alone(c, ts).1)
    ensures ts != [] ==> PolicyLevel(c, ts, Alone(c, ts).1) == Alone(c, ts).0.value.tokens
  {
    hide Serve, Alone, PolicyLevel, Feasible;
    if ts == [] {
      NothingFeasible(c);
    } else {
      var n := |ts| - 1;
      var (prior, ds) := Alone(c, ts[..n]);
      var d := Serve(c, prior, ts[n]).1;
      GreedyIsFeasible(c, ts[..n]);
      FeasibleNow(c, ts[..n], ds);
      assert ts == ts[..n] + [ts[n]] && (ds + [d])[..n] == ds;
      AloneSnoc(c, ts[..n], ts[n]);
      PolicySnoc(c, ts[..n], ts[n], ds, d);
      PolicyStarts(c);
      ServedLevel(c, prior, ts[n], PolicyLevel(c, ts[..n], ds), if n == 0 then 0.0 else Earned(c.rate, ts[n] - ts[n - 1]));
      ServeKeepsNonNegative(c, prior, ts[n]);
      FeasibleSnoc(c, ts, ds + [d]);
    }
  }

  lemma PolicyStarts(c: Config)
    ensures PolicyLevel(c, [], []) == c.burst as real
  {}

  lemma NothingFeasible(c: Config)
    requires c.Valid()
    ensures Alone(c, []) == (None, []) && Feasible(c, [], [])
  {}

  lemma FeasibleSnoc(c: Config, ts: seq<int>, ds: seq<bool>)
    requires |ts| == |ds| > 0 && Feasible(c, ts[..|ts| - 1], ds[..|ts| - 1]) && PolicyLevel(c, ts, ds) >= 0.0
    ensures Feasible(c, ts, ds)
  {
    var n := |ts| - 1;
    forall k | 0 <= k <= |ts| ensures PolicyLevel(c, ts[..k], ds[..k]) >= 0.0 {
      if k <= n {
        assert ts[..k] == ts[..n][..k] && ds[..k] == ds[..n][..k];
      } else {
        assert ts[..k] == ts && ds[..k] == ds;
      }
    }
  }

  /**
   Greedy optimality, for all settings and all clock readings: no policy that keeps its own
   (rate, burst) bucket non-negative admits more requests of an address in any run than the
   collecting limiter does.
   */
  lemma GreedyOptimal(c: Config, ev: seq<Event>, ip: string, ds: seq<bool>)
    requires c.Valid() && Feasible(c, TimesOf(ev, ip), ds)
    ensures Count(ds) <= Count(AnswersTo(ev, Run(c, ev).1, ip))
  {
    StaysAhead(c, ev, ip, ds);
  }

  /** When idle buckets refill before they are deleted and readings do not go back, the limiter is itself such a policy. */
  lemma LimiterIsFeasible(c: Config, ev: seq<Event>, ip: string)
    requires c.Valid() && RefillsBeforeCollection(c, 0) && Skewed(ev, 0)
    ensures Feasible(c, TimesOf(ev, ip), AnswersTo(ev, Run(c, ev).1, ip))
  {
    Isolation(c, ev, ip, 0);
    TimesSkewed(ev, ip, 0);
    GreedyIsFeasible(c, TimesOf(ev, ip));
  }

  // ---- Idle buckets ----------------------------------------------------------------

  /**
   After every call the bucket just served is stored, and no stored bucket has been idle for
   ttl + gcEvery or longer; readings that go back further than ttl lengthen that by as much.
   */
  lemma {:induction false} IdleAgeBounded(c: Config, ev: seq<Event>, skew: nat)
    requires c.Valid() && c.ttl > 0 && Skewed(ev, skew) && ev != []
    ensures var s := Run(c, ev).0;
            var e := ev[|ev| - 1];
            var age := if c.ttl < skew then skew else c.ttl;
            && e.ip in s.buckets && s.buckets[e.ip].last == e.now
            && s.lastGC.Some? && (exists i :: 0 <= i < |ev| && ev[i].now == s.lastGC.value)
            && e.now < s.lastGC.value + c.gcEvery
            && forall ip :: ip in s.buckets ==>
                 s.lastGC.value - age <= s.buckets[ip].last && e.now - s.buckets[ip].last < age + c.gcEvery
  {
    var n := |ev| - 1;
    if n > 0 {
      IdleAgeBounded(c, ev[..n], skew);
      var s := Run(c, ev[..n]).0;
      var i :| 0 <= i < n && ev[..n][i].now == s.lastGC.value;
      assert ev[i].now <= ev[n].now + skew;
      assert Run(c, ev).0 == Step(c, s, ev[n].ip, ev[n].now).0;
      if Due(c, s, ev[n].now) {
        assert Run(c, ev).0.lastGC.value == ev[n].now;
      } else {
        assert Run(c, ev).0.lastGC.value == ev[i].now;
      }
    } else {
      assert Run(c, ev).0.lastGC.value == ev[0].now;
    }
  }

  // ---- When collection can be observed -----------------------------------------------

  function Copies(e: Event, k: nat): (r: seq<Event>)
    ensures |r| == k
  {
    seq(k, _ => e)
  }

  function Yes(k: nat): (r: seq<bool>)
    ensures |r| == k
  {
    seq(k, _ => true)
  }

  /** `k` tokens of a fresh bucket are gone at instant `now`; nothing is due for collection. */
  ghost predicate Drained(c: Config, s: State, ip: string, now: int, k: nat, lastGC: int) {
    && s.lastGC == Some(lastGC) && now - lastGC < c.gcEvery
    && (if k == 0 then ip !in s.buckets
        else ip in s.buckets && s.buckets[ip] == Level((c.burst - k) as real, now))
  }

  lemma DrainOne(c: Config, s: State, ip: string, now: int, k: nat, lastGC: int)
    requires c.Valid() && k < c.burst && Drained(c, s, ip, now, k, lastGC)
    ensures Step(c, s, ip, now).1 && Drained(c, Step(c, s, ip, now).0, ip, now, k + 1, lastGC)
  {
    assert Earned(c.rate, 0) == 0.0;
  }

  /** A fresh bucket admits a simultaneous burst in full, in a run where no collection falls due meanwhile. */
  lemma {:induction false} BurstAdmitted(c: Config, ev: seq<Event>, e: Event, k: nat, lastGC: int)
    requires c.Valid() && k <= c.burst && Drained(c, Run(c, ev).0, e.ip, e.now, 0, lastGC)
    ensures Drained(c, Run(c, ev + Copies(e, k)).0, e.ip, e.now, k, lastGC)
    ensures Run(c, ev + Copies(e, k)).1 == Run(c, ev).1 + Yes(k)
  {
    hide Step, Drained, Run;
    if k == 0 {
      assert ev + Copies(e, k) == ev;
    } else {
      var shorter := ev + Copies(e, k - 1);
      BurstAdmitted(c, ev, e, k - 1, lastGC);
      RunSnoc(c, shorter, e);
      DrainOne(c, Run(c, shorter).0, e.ip, e.now, k - 1, lastGC);
      assert ev + Copies(e, k) == shorter + [e] by { assert Copies(e, k) == Copies(e, k - 1) + [e]; }
      assert Yes(k) == Yes(k - 1) + [true];
    }
  }

  /** Reading of the first call, which collects: the next collection is due at `ReturnTime` and not before. */
  function StartTime(c: Config, skew: nat): int {
    if ReturnTime(c, skew) < c.gcEvery then ReturnTime(c, skew) - c.gcEvery else 0
  }

  function ReturnTime(c: Config, skew: nat): int {
    c.ttl + 1 - skew
  }

  function DrainPhase(c: Config, skew: nat): (ev: seq<Event>)
    requires c.Valid()
    ensures |ev| == c.burst + 1
  {
    [Event("w", StartTime(c, skew))] + Copies(Event("v", 0), c.burst)
  }

  function CollectPhase(c: Config, skew: nat): (ev: seq<Event>)
    requires c.Valid()
    ensures |ev| == c.burst + 3
  {
    DrainPhase(c, skew) + [Event("v", 0 - skew)] + [Event("w", ReturnTime(c, skew))]
  }

  /**
   The run that gives collection away: `v` drains its bucket and calls once more with a
   reading that went back, another address triggers a collection exactly when v's bucket is
   ttl + 1 old, and v asks for a full burst again, with readings that went back.
   */
  function Tell(c: Config, skew: nat): seq<Event>
    requires c.Valid()
  {
    CollectPhase(c, skew) + Copies(Event("v", ReturnTime(c, skew) - skew), c.burst)
  }

  /** Calls of `v` that ask for a burst. */
  predicate Probe(c: Config, skew: nat, i: int)
    requires c.Valid()
  {
    0 <= i < |Tell(c, skew)| && Tell(c, skew)[i].ip == "v" && i != c.burst + 1
  }

  lemma OverdrawnDenied(c: Config, s: State, skew: nat, lastGC: int)
    requires c.Valid() && Drained(c, s, "v", 0, c.burst, lastGC) && 0 - skew - lastGC < c.gcEvery
    ensures var s' := Step(c, s, "v", 0 - skew).0;
            s'.lastGC == Some(lastGC) && "v" in s'.buckets && s'.buckets["v"].last == 0 - skew
  {
    EarnedGrows(c.rate, 0 - skew, 0);
    assert Earned(c.rate, 0) == 0.0;
  }

  lemma IdleOneIsCollected(c: Config, s: State, back: int, skew: nat, lastGC: int)
    requires c.Valid() && c.ttl > 0 && s.lastGC == Some(lastGC) && back - lastGC >= c.gcEvery
    requires "v" in s.buckets && back - s.buckets["v"].last > c.ttl
    ensures Drained(c, Step(c, s, "w", back).0, "v", back - skew, 0, back)
  {
    assert "v" != "w";
    var b := Serve(c, Lookup(s.buckets, "w"), back).0;
    assert s.buckets["w" := b]["v"] == s.buckets["v"];
  }

  lemma TellSetup(c: Config, e: Event, now: int)
    requires c.Valid() && c.ttl > 0 && e.ip == "w" && now - e.now < c.gcEvery
    ensures Drained(c, Run(c, [e]).0, "v", now, 0, e.now)
  {
    assert [] + [e] == [e];
    RunSnoc(c, [], e);
    assert "v" != "w";
  }

  lemma TellCollects(c: Config, skew: nat)
    requires c.Valid() && c.ttl > 0 && skew <= c.ttl
    ensures var (s, answers) := Run(c, CollectPhase(c, skew));
            && Drained(c, s, "v", ReturnTime(c, skew) - skew, 0, ReturnTime(c, skew))
            && answers[..c.burst + 1] == Run(c, [Event("w", StartTime(c, skew))]).1 + Yes(c.burst)
  {
    hide Step, Drained;
    var start, back := Event("w", StartTime(c, skew)), Event("w", ReturnTime(c, skew));
    var drained := DrainPhase(c, skew);
    TellSetup(c, start, 0);
    BurstAdmitted(c, [start], Event("v", 0), c.burst, start.now);
    OverdrawnDenied(c, Run(c, drained).0, skew, start.now);
    RunSnoc(c, drained, Event("v", 0 - skew));
    RunSnoc(c, drained + [Event("v", 0 - skew)], back);
    IdleOneIsCollected(c, Run(c, drained + [Event("v", 0 - skew)]).0, back.now, skew, start.now);
  }

  /** With collection, every call of `v` that asks for a burst is admitted. */
  lemma TellAllAdmitted(c: Config, skew: nat)
    requires c.Valid() && c.ttl > 0 && skew <= c.ttl
    ensures forall i :: Probe(c, skew, i) ==> Run(c, Tell(c, skew)).1[i]
  {
    hide Step;
    var back := ReturnTime(c, skew);
    var first, middle := Run(c, [Event("w", StartTime(c, skew))]).1, Run(c, CollectPhase(c, skew)).1;
    TellCollects(c, skew);
    BurstAdmitted(c, CollectPhase(c, skew), Event("v", back - skew), c.burst, back);
    var all := Run(c, Tell(c, skew)).1;
    assert all == middle + Yes(c.burst);
    forall i | Probe(c, skew, i) ensures all[i] {
      if i < c.burst + 3 {
        assert i != 0 && i != c.burst + 2;
        assert all[i] == middle[..c.burst + 1][i] == (first + Yes(c.burst))[i];
      }
    }
  }

  lemma TellSkewed(c: Config, skew: nat)
    requires c.Valid() && c.ttl > 0 && skew <= c.ttl
    ensures Skewed(Tell(c, skew), skew)
  {}

  /** Every call from `from` on, but for `other` and the next, is an admitted one of `ip`: then so many are admitted. */
  lemma {:induction false} CountWhenAllAdmitted(ev: seq<Event>, answers: seq<bool>, ip: string, from: nat, other: nat)
    requires |ev| == |answers| && from <= other
    requires forall i :: from <= i < |ev| && i != other && i != other + 1 ==> ev[i].ip == ip && answers[i]
    ensures AdmittedFrom(ev, answers, ip, from) >=
      |ev| - from - (if other + 1 < |ev| then 2 else if other < |ev| then 1 else 0)
  {
    if |ev| > from { CountWhenAllAdmitted(ev[..|ev| - 1], answers[..|ev| - 1], ip, from, other); }
  }

  lemma NeverCollectedStays(c: Config, ev: seq<Event>, k: nat, ip: string)
    requires c.ttl <= 0 && k < |ev| && ev[k].ip == ip
    ensures ip in Run(c, ev).0.buckets
  {
    if k < |ev| - 1 {
      NeverCollectedStays(c, ev[..|ev| - 1], k, ip);
    }
  }

  /** Without collection, one of these calls is denied. */
  lemma TellDenied(c: Config, skew: nat)
    requires c.Valid() && skew <= c.ttl && !RefillsBeforeCollection(c, skew)
    ensures exists i :: Probe(c, skew, i) && !Run(NeverCollect(c), Tell(c, skew)).1[i]
  {
    hide Run, AdmittedFrom;
    var nc, ev := NeverCollect(c), Tell(c, skew);
    var answers := Run(nc, ev).1;
    if forall i :: Probe(c, skew, i) ==> answers[i] {
      forall k | 1 < k <= |ev| ensures "v" in Run(nc, ev[..k]).0.buckets {
        NeverCollectedStays(nc, ev[..k], 1, "v");
      }
      assert Probe(c, skew, 1) && Probe(c, skew, |ev| - 1);
      BoundInLockOrder(nc, ev, "v", 1);
      forall i | 1 <= i < |ev| && i != c.burst + 1 && i != c.burst + 2 ensures ev[i].ip == "v" && answers[i] {
        assert Probe(c, skew, i);
      }
      CountWhenAllAdmitted(ev, answers, "v", 1, c.burst + 1);
      assert false;
    }
  }

  /**
   Deleting idle buckets cannot be observed on any run whose readings go back by at most
   `skew` exactly when an idle bucket refills completely within ttl + 1 ns less twice the skew.
   */
  lemma CollectionInvisibleIff(c: Config, skew: nat)
    requires c.Valid()
    ensures GcInvisible(c, skew) <==> RefillsBeforeCollection(c, skew)
  {
    if RefillsBeforeCollection(c, skew) {
      forall ev | Skewed(ev, skew) ensures Run(c, ev).1 == Run(NeverCollect(c), ev).1 {
        AnswersMatch(c, ev, skew);
      }
    } else {
      var s: nat := if skew <= c.ttl then skew else c.ttl;
      if s < skew { EarnedGrows(c.rate, c.ttl + 1 - 2 * s, 0); }
      TellSkewed(c, s);
      TellAllAdmitted(c, s);
      TellDenied(c, s);
      assert Skewed(Tell(c, s), skew);
    }
  }

  // ---- Exactly when the bounds hold ----------------------------------------------------

  /** Every call from `from` on, but for `other` and the next, is admitted to `ip` in the window: then so many are. */
  lemma {:induction false} CountWithin(ev: seq<Event>, answers: seq<bool>, ip: string, start: int, end: int, from: nat, other: nat)
    requires |ev| == |answers| && from <= other
    requires forall i :: from <= i < |ev| && i != other && i != other + 1 ==>
      ev[i].ip == ip && answers[i] && start <= ev[i].now <= end
    ensures AdmittedWithin(TimesOf(ev, ip), AnswersTo(ev, answers, ip), start, end) >=
      |ev| - from - (if other + 1 < |ev| then 2 else if other < |ev| then 1 else 0)
  {
    hide AdmittedWithin;
    if |ev| > from {
      var n := |ev| - 1;
      CountWithin(ev[..n], answers[..n], ip, start, end, from, other);
      if ev[n].ip == ip {
        var ts, ds := TimesOf(ev[..n], ip), AnswersTo(ev[..n], answers[..n], ip);
        WithinSnoc(ts, ds, ev[n].now, answers[n], start, end);
        assert TimesOf(ev, ip) == ts + [ev[n].now] && AnswersTo(ev, answers, ip) == ds + [answers[n]];
      } else {
        assert TimesOf(ev, ip) == TimesOf(ev[..n], ip) && AnswersTo(ev, answers, ip) == AnswersTo(ev[..n], answers[..n], ip);
      }
    }
  }

  lemma WithinSnoc(ts: seq<int>, ds: seq<bool>, t: int, d: bool, start: int, end: int)
    requires |ts| == |ds|
    ensures AdmittedWithin(ts + [t], ds + [d], start, end)
         == AdmittedWithin(ts, ds, start, end) + if d && start <= t <= end then 1 else 0
  {
    assert (ts + [t])[..|ts|] == ts && (ds + [d])[..|ds|] == ds;
  }

  /** In the telling run two full bursts pass between the readings 0 and `ReturnTime - skew`. */
  lemma TellCounts(c: Config, skew: nat)
    requires c.Valid() && c.ttl > 0 && 2 * skew <= c.ttl + 1
    ensures var ev := Tell(c, skew);
            AdmittedWithin(TimesOf(ev, "v"), AnswersTo(ev, Run(c, ev).1, "v"), 0, ReturnTime(c, skew) - skew) >= 2 * c.burst
  {
    hide Run, AdmittedWithin, TimesOf, AnswersTo;
    var ev := Tell(c, skew);
    var answers := Run(c, ev).1;
    TellAllAdmitted(c, skew);
    forall i | 1 <= i < |ev| && i != c.burst + 1 && i != c.burst + 2
      ensures ev[i].ip == "v" && answers[i] && 0 <= ev[i].now <= ReturnTime(c, skew) - skew
    {
      assert Probe(c, skew, i);
    }
    CountWithin(ev, answers, "v", 0, ReturnTime(c, skew) - skew, 1, c.burst + 1);
  }

  /** The window bound of one run. */
  ghost predicate WindowBounded(c: Config, ev: seq<Event>, ip: string, start: int, end: int) {
    start <= end ==>
      AdmittedWithin(TimesOf(ev, ip), AnswersTo(ev, Run(c, ev).1, ip), start, end) as real
        <= c.burst as real + Earned(c.rate, end - start)
  }

  /**
   The window bound holds on all runs, readings going back by at most `skew`, exactly when
   collection is invisible on them; for skews up to half of ttl + 1.
   */
  lemma WindowBoundIff(c: Config, skew: nat)
    requires c.Valid() && (c.ttl <= 0 || 2 * skew <= c.ttl + 1)
    ensures RefillsBeforeCollection(c, skew) <==>
      forall ev, ip, start, end :: Skewed(ev, skew) ==> WindowBounded(c, ev, ip, start, end)
  {
    if RefillsBeforeCollection(c, skew) {
      forall ev, ip, start, end | Skewed(ev, skew) ensures WindowBounded(c, ev, ip, start, end) {
        if start <= end { WindowBound(c, ev, ip, start, end, skew); }
      }
    } else {
      TellSkewed(c, skew);
      TellCounts(c, skew);
      assert !WindowBounded(c, Tell(c, skew), "v", 0, ReturnTime(c, skew) - skew);
    }
  }

  /** Any policy that never overdraws its bucket keeps the window bound. */
  lemma {:induction false} FeasibleWindow(c: Config, ts: seq<int>, ds: seq<bool>, start: int, end: int) returns (first: int)
    requires c.Valid() && Feasible(c, ts, ds) && start <= end
    ensures var w := AdmittedWithin(ts, ds, start, end);
            && w as real <= c.burst as real + Earned(c.rate, end - start)
            && (w > 0 ==> start <= first && w as real + PolicyLevel(c, ts, ds)
                          <= c.burst as real + Earned(c.rate, ts[|ts| - 1] - first))
  {
    hide Feasible;
    FeasibleNow(c, ts, ds);
    EarnedGrows(c.rate, 0, end - start);
    first := start;
    if ts != [] {
      var n := |ts| - 1;
      FeasiblePrefix(c, ts, ds);
      first := FeasibleWindow(c, ts[..n], ds[..n], start, end);
      if AdmittedWithin(ts[..n], ds[..n], start, end) == 0 {
        first := ts[n];
        assert Earned(c.rate, 0) == 0.0;
      } else {
        EarnedAdds(c.rate, ts[n - 1] - first, ts[n] - ts[n - 1]);
      }
      if ts[n] <= end { EarnedGrows(c.rate, ts[n] - first, end - start); }
    }
  }

  /** The limiter is itself a policy that never overdraws, on all clock-ordered runs, exactly when collection is invisible on them. */
  lemma LimiterIsFeasibleIff(c: Config)
    requires c.Valid()
    ensures RefillsBeforeCollection(c, 0) <==>
      forall ev, ip :: Skewed(ev, 0) ==> Feasible(c, TimesOf(ev, ip), AnswersTo(ev, Run(c, ev).1, ip))
  {
    hide Run, Feasible, TimesOf, AnswersTo, Tell;
    if RefillsBeforeCollection(c, 0) {
      forall ev, ip | Skewed(ev, 0) ensures Feasible(c, TimesOf(ev, ip), AnswersTo(ev, Run(c, ev).1, ip)) {
        LimiterIsFeasible(c, ev, ip);
      }
    } else {
      TellSkewed(c, 0);
      TellOverdraws(c);
    }
  }

  lemma TellOverdraws(c: Config)
    requires c.Valid() && !RefillsBeforeCollection(c, 0)
    ensures var ev := Tell(c, 0); !Feasible(c, TimesOf(ev, "v"), AnswersTo(ev, Run(c, ev).1, "v"))
  {
    hide Run, Feasible, AdmittedWithin, TimesOf, AnswersTo, Tell;
    var ev := Tell(c, 0);
    TellCounts(c, 0);
    if Feasible(c, TimesOf(ev, "v"), AnswersTo(ev, Run(c, ev).1, "v")) {
      var first := FeasibleWindow(c, TimesOf(ev, "v"), AnswersTo(ev, Run(c, ev).1, "v"), 0, c.ttl + 1);
    }
  }

  // ---- A bound for all settings -------------------------------------------------------

  /** Requests of `ip` seen so far: the last one's bucket is in debt to nobody, or was deleted when older than ttl. */
  ghost predicate Kept(c: Config, s: State, ip: string, ts: seq<int>, now: int) {
    if ip in s.buckets then ts != [] && s.buckets[ip].last == ts[|ts| - 1] && s.buckets[ip].tokens >= 0.0
    else ts != [] ==> c.ttl > 0 && now - ts[|ts| - 1] > c.ttl
  }

  lemma KeptStep(c: Config, s: State, e: Event, ip: string, ts: seq<int>, now: int)
    requires c.Valid() && Kept(c, s, ip, ts, now) && now <= e.now && (ts != [] ==> ts[|ts| - 1] <= now)
    ensures Kept(c, Step(c, s, e.ip, e.now).0, ip, if e.ip == ip then ts + [e.now] else ts, e.now)
  {
    if e.ip == ip && ip in s.buckets { EarnedGrows(c.rate, 0, e.now - s.buckets[ip].last); }
  }

  /** Full bursts a window may hold: one, and one more for each time a bucket can be deleted in it. */
  function Bursts(c: Config, length: int): int
    requires length >= 0
  {
    1 + if c.ttl > 0 then length / (c.ttl + 1) else 0
  }

  lemma MoreTimes(a: int, b: int, d: int)
    requires d > 0
    ensures a > b ==> a * d >= d * b + d
  {
    if a > b {
      var k := a - b - 1;
      assert a * d == (b + 1 + k) * d == b * d + d + k * d;
    }
  }

  lemma BurstsAre(c: Config, m: int, span: int, length: int)
    requires m >= 1 && (m > 1 ==> c.ttl > 0) && (m - 1) * (c.ttl + 1) <= span <= length && 0 <= span
    ensures m <= Bursts(c, length)
  {
    if c.ttl > 0 {
      var q := length / (c.ttl + 1);
      assert length == (c.ttl + 1) * q + length % (c.ttl + 1);
      MoreTimes(m - 1, q, c.ttl + 1);
    }
  }

  /** `w` admissions between the readings `first` and `last` were paid for by `m` buckets. */
  ghost predicate Funded(c: Config, first: int, last: int, m: int, w: int, tokens: real) {
    && first <= last && m >= 1 && (m > 1 ==> c.ttl > 0) && (m - 1) * (c.ttl + 1) <= last - first
    && w as real + tokens <= (m * c.burst) as real + Earned(c.rate, last - first)
  }

  function TokensOf(s: State, ip: string): real {
    if ip in s.buckets then s.buckets[ip].tokens else 0.0
  }

  /** One more request of an address with admissions in the window; a deleted bucket counts as one more. */
  lemma FundedOwn(c: Config, s: State, ip: string, now: int, ts: seq<int>, before: int, first: int, m: int, w: int, within: bool)
    returns (m': int)
    requires c.Valid() && Kept(c, s, ip, ts, before) && before <= now && ts != [] && ts[|ts| - 1] <= before
    requires Funded(c, first, ts[|ts| - 1], m, w, TokensOf(s, ip))
    ensures var (s', ok) := Step(c, s, ip, now);
            ip in s'.buckets && Funded(c, first, now, m', w + if ok && within then 1 else 0, s'.buckets[ip].tokens)
  {
    var last := ts[|ts| - 1];
    EarnedAdds(c.rate, last - first, now - last);
    EarnedGrows(c.rate, 0, now - last);
    m' := if ip in s.buckets then m else m + 1;
    if ip !in s.buckets { OneMoreBucket(m, c.ttl + 1, c.burst, last - first, now - first); }
  }

  lemma OneMoreBucket(m: int, d: int, burst: int, before: int, after: int)
    requires (m - 1) * d <= before && before + d <= after
    ensures m * d <= after && (m + 1) * burst == m * burst + burst
  {}

  /** The first admission in the window is paid for by a full bucket. */
  lemma FundedFirst(c: Config, s: State, ip: string, now: int)
    requires c.Valid() && Step(c, s, ip, now).1
    ensures var s' := Step(c, s, ip, now).0;
            ip in s'.buckets && Funded(c, now, now, 1, 1, s'.buckets[ip].tokens)
  {
    assert Earned(c.rate, 0) == 0.0;
  }

  lemma FundedBound(c: Config, first: int, last: int, m: int, w: int, tokens: real, start: int, end: int)
    requires c.Valid() && Funded(c, first, last, m, w, tokens) && tokens >= 0.0 && start <= first && last <= end
    ensures w as real <= (Bursts(c, end - start) * c.burst) as real + Earned(c.rate, end - start)
  {
    BurstsAre(c, m, last - first, end - start);
    EarnedGrows(c.rate, last - first, end - start);
    assert m * c.burst <= Bursts(c, end - start) * c.burst;
  }

  function LastReading(ev: seq<Event>): int {
    if ev == [] then 0 else ev[|ev| - 1].now
  }

  lemma {:induction false} WindowFunded(c: Config, ev: seq<Event>, ip: string, start: int, end: int) returns (first: int, m: int)
    requires c.Valid() && Skewed(ev, 0) && start <= end
    ensures var ts, s := TimesOf(ev, ip), Run(c, ev).0;
            var w := AdmittedWithin(ts, AnswersTo(ev, Run(c, ev).1, ip), start, end);
            && Kept(c, s, ip, ts, LastReading(ev)) && (ts != [] ==> ev != [] && ts[|ts| - 1] <= LastReading(ev))
            && w as real <= (Bursts(c, end - start) * c.burst) as real + Earned(c.rate, end - start)
            && (w > 0 ==> ts != [] && start <= first && Funded(c, first, ts[|ts| - 1], m, w, TokensOf(s, ip)))
  {
    hide Step, Earned, Bursts, Funded, Kept, AdmittedWithin, Run, TimesOf, AnswersTo;
    first, m := start, 1;
    if ev == [] {
      NothingFunded(c, ip, start, end);
    } else {
      var n := |ev| - 1;
      var e, s, last := ev[n], Run(c, ev[..n]).0, LastReading(ev[..n]);
      var ts, ds := TimesOf(ev[..n], ip), AnswersTo(ev[..n], Run(c, ev[..n]).1, ip);
      var (s', ok) := Step(c, s, e.ip, e.now);
      first, m := WindowFunded(c, ev[..n], ip, start, end);
      OneMoreCall(c, ev, ip);
      assert n > 0 ==> ev[n - 1].now <= e.now;
      KeptOnwards(c, s, e, ip, ts, ev[..n]);
      var w := AdmittedWithin(ts, ds, start, end);
      if e.ip == ip {
        WithinSnoc(ts, ds, e.now, ok, start, end);
        var within := start <= e.now <= end;
        if w > 0 {
          m := FundedOwn(c, s, ip, e.now, ts, last, first, m, w, within);
        } else if ok && within {
          first, m := e.now, 1;
          FundedFirst(c, s, ip, e.now);
        }
        if ok && within {
          KeptTokens(c, s', ip, ts + [e.now], e.now);
          FundedBound(c, first, e.now, m, w + 1, TokensOf(s', ip), start, end);
        }
      } else {
        assert ts + [] == ts && ds + [] == ds;
        if w > 0 { FundedOther(c, s, ip, e, ts, last, first, m, w); }
      }
    }
  }

  lemma NothingFunded(c: Config, ip: string, start: int, end: int)
    requires c.Valid() && start <= end
    ensures Run(c, []).0 == EMPTY && TimesOf([], ip) == [] && AnswersTo([], [], ip) == []
    ensures Kept(c, EMPTY, ip, [], 0) && AdmittedWithin([], [], start, end) == 0
    ensures 0.0 <= (Bursts(c, end - start) * c.burst) as real + Earned(c.rate, end - start)
  {
    EarnedGrows(c.rate, 0, end - start);
    assert Bursts(c, end - start) >= 1;
  }

  lemma KeptOnwards(c: Config, s: State, e: Event, ip: string, ts: seq<int>, ev: seq<Event>)
    requires c.Valid() && Kept(c, s, ip, ts, LastReading(ev)) && s == Run(c, ev).0 && ts == TimesOf(ev, ip)
    requires ev != [] ==> LastReading(ev) <= e.now && (ts != [] ==> ts[|ts| - 1] <= LastReading(ev))
    ensures Kept(c, Step(c, s, e.ip, e.now).0, ip, ts + (if e.ip == ip then [e.now] else []), e.now)
  {
    hide Step, Kept;
    assert ts + [] == ts;
    if ev == [] {
      KeptFirst(c, e, ip);
    } else {
      KeptStep(c, s, e, ip, ts, LastReading(ev));
    }
  }

  lemma KeptFirst(c: Config, e: Event, ip: string)
    requires c.Valid()
    ensures Kept(c, Step(c, EMPTY, e.ip, e.now).0, ip, [] + (if e.ip == ip then [e.now] else []), e.now)
  {}

  lemma KeptTokens(c: Config, s: State, ip: string, ts: seq<int>, now: int)
    requires Kept(c, s, ip, ts, now)
    ensures TokensOf(s, ip) >= 0.0
  {}

  lemma FundedOther(c: Config, s: State, ip: string, e: Event, ts: seq<int>, before: int, first: int, m: int, w: int)
    requires c.Valid() && Kept(c, s, ip, ts, before) && e.ip != ip && ts != []
    requires Funded(c, first, ts[|ts| - 1], m, w, TokensOf(s, ip))
    ensures Funded(c, first, ts[|ts| - 1], m, w, TokensOf(Step(c, s, e.ip, e.now).0, ip))
  {}

  /**
   Window bound for all settings: a window holds at most one full burst, one more for each
   ttl + 1 ns of its length, in which a bucket may have been deleted, and the refill.
   */
  lemma WindowBoundAlways(c: Config, ev: seq<Event>, ip: string, start: int, end: int)
    requires c.Valid() && Skewed(ev, 0) && start <= end
    ensures AdmittedWithin(TimesOf(ev, ip), AnswersTo(ev, Run(c, ev).1, ip), start, end) as real
         <= (Bursts(c, end - start) * c.burst) as real + Earned(c.rate, end - start)
  {
    var first, m := WindowFunded(c, ev, ip, start, end);
  }

  /** When readings may go back by the ttl or more, collection shows under any settings. */
  lemma BackwardReadingsTell(c: Config, skew: nat)
    requires c.Valid() && 0 < c.ttl <= skew
    ensures !GcInvisible(c, skew)
  {
    EarnedGrows(c.rate, c.ttl + 1 - 2 * skew, 0);
    CollectionInvisibleIff(c, skew);
  }

  lemma SettingsTtl(rate: real, burst: int, ttl: int)
    ensures Settings(rate, burst, ttl).ttl == ttl
  {}

  lemma EarnedInMinutes(rate: real, skew: nat)
    ensures Earned(rate, 300 * SECOND - 2 * skew) == rate * (300.0 - 2.0 * Seconds(skew))
  {
    assert Seconds(300 * SECOND - 2 * skew) == 300.0 - 2.0 * Seconds(skew);
  }

  /** The repository's own limiter (ttl of five minutes): refilling within the ttl less twice the skew is enough. */
  lemma ServerLimiterInvisible(rate: real, burst: int, skew: nat)
    requires var c := Settings(rate, burst, 300 * SECOND);
             c.rate * (300.0 - 2.0 * Seconds(skew)) >= c.burst as real
    ensures GcInvisible(Settings(rate, burst, 300 * SECOND), skew)
  {
    hide Settings, Earned, Seconds, GcInvisible;
    var c := Settings(rate, burst, 300 * SECOND);
    SettingsTtl(rate, burst, 300 * SECOND);
    EarnedInMinutes(c.rate, skew);
    EarnedGrows(c.rate, 300 * SECOND - 2 * skew, 300 * SECOND + 1 - 2 * skew);
    CollectionInvisibleIff(c, skew);
  }
}
