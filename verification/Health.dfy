// Component health with hysteresis, the probe rate window, and the operating tier.
module Health {

  datatype Status = Healthy | Degraded | Down

  datatype Config = Config(latencyThreshold: nat, errorRate: real, recovery: nat, minCalls: nat)

  datatype Call = Call(latency: nat, ok: bool)

  datatype Health = Health(status: Status, errors: nat, total: nat, lastLatency: nat, streak: nat)

  const FRESH := Health(Healthy, 0, 0, 0, 0)

  function ErrorRate(errors: nat, total: nat): real {
    if total == 0 then 0.0 else errors as real / total as real
  }

  predicate TooManyErrors(c: Config, errors: nat, total: nat, limit: real) {
    total >= c.minCalls && ErrorRate(errors, total) > limit
  }

  predicate ShouldDegrade(c: Config, h: Health) {
    h.lastLatency > c.latencyThreshold || TooManyErrors(c, h.errors, h.total, c.errorRate)
  }

  predicate ShouldMarkDown(c: Config, h: Health) {
    TooManyErrors(c, h.errors, h.total, c.errorRate * 2.0) && h.streak == 0
  }

  function Counted(h: Health, call: Call): Health {
    Health(h.status, if call.ok then h.errors else h.errors + 1, h.total + 1, call.latency,
           if call.ok then h.streak + 1 else 0)
  }

  function Reevaluated(c: Config, h: Health): Health {
    match h.status
    case Healthy => if ShouldDegrade(c, h) then h.(status := Degraded, streak := 0) else h
    case Degraded =>
      if ShouldMarkDown(c, h) then h.(status := Down)
      else if h.streak >= c.recovery then h.(status := Healthy, streak := 0)
      else h
    case Down => if h.streak >= c.recovery then h.(status := Degraded, streak := 0) else h
  }

  function Step(c: Config, h: Health, call: Call): Health {
    Reevaluated(c, Counted(h, call))
  }

  class ComponentHealth {
    const config: Config
    var status: Status
    var errorCount: nat
    var totalCalls: nat
    var lastLatency: nat
    var consecutiveSuccesses: nat

    function Value(): Health
      reads this
    {
      Health(status, errorCount, totalCalls, lastLatency, consecutiveSuccesses)
    }

    constructor (config: Config)
      ensures this.config == config && Value() == FRESH
    {
      this.config := config;
      status := Healthy;
      errorCount, totalCalls, lastLatency, consecutiveSuccesses := 0, 0, 0, 0;
    }

    method RecordCall(latency: nat, success: bool)
      modifies this
      ensures Value() == Step(config, old(Value()), Call(latency, success))
    {
      totalCalls := totalCalls + 1;
      lastLatency := latency;
      if !success {
        errorCount := errorCount + 1;
        consecutiveSuccesses := 0;
      } else {
        consecutiveSuccesses := consecutiveSuccesses + 1;
      }
      Reevaluate();
    }

    method Reevaluate()
      modifies this
      ensures Value() == Reevaluated(config, old(Value()))
    {
      match status
      case Healthy =>
        if ShouldDegrade(config, Value()) {
          status := Degraded;
          consecutiveSuccesses := 0;
        }
      case Degraded =>
        if ShouldMarkDown(config, Value()) {
          status := Down;
        } else if consecutiveSuccesses >= config.recovery {
          status := Healthy;
          consecutiveSuccesses := 0;
        }
      case Down =>
        if consecutiveSuccesses >= config.recovery {
          status := Degraded;
          consecutiveSuccesses := 0;
        }
    }
  }

  // ---------- runs ----------

  function After(c: Config, h: Health, calls: seq<Call>): Health {
    if calls == [] then h else Step(c, After(c, h, calls[..|calls| - 1]), calls[|calls| - 1])
  }

  function Successes(calls: seq<Call>): nat {
    if calls == [] then 0 else Successes(calls[..|calls| - 1]) + if calls[|calls| - 1].ok then 1 else 0
  }

  function Failures(calls: seq<Call>): nat {
    if calls == [] then 0 else Failures(calls[..|calls| - 1]) + if calls[|calls| - 1].ok then 0 else 1
  }

  ghost predicate EndsWithSuccesses(calls: seq<Call>, n: nat) {
    n <= |calls| && forall i :: |calls| - n <= i < |calls| ==> calls[i].ok
  }

  // One call never takes health across the middle status.
  lemma NoJump(c: Config, h: Health, call: Call)
    ensures !(h.status.Healthy? && Step(c, h, call).status.Down?)
    ensures !(h.status.Down? && Step(c, h, call).status.Healthy?)
  {
  }

  // The counters are the run's own totals.
  lemma {:induction false} CountersExact(c: Config, calls: seq<Call>)
    ensures var h := After(c, FRESH, calls);
            h.total == |calls| && h.errors == Failures(calls) && |calls| == Failures(calls) + Successes(calls)
  {
    if calls != [] { CountersExact(c, calls[..|calls| - 1]); }
  }

  // Away from Healthy a streak never reaches the recovery threshold without being spent.
  lemma {:induction false} StreakIsSpent(c: Config, calls: seq<Call>)
    requires c.recovery >= 1
    ensures var h := After(c, FRESH, calls); !h.status.Healthy? ==> h.streak < c.recovery
  {
    if calls != [] { StreakIsSpent(c, calls[..|calls| - 1]); }
  }

  // What a run has cost by the time it stands where it does, starting from Down.
  ghost predicate Paid(c: Config, h: Health, calls: seq<Call>) {
    && EndsWithSuccesses(calls, h.streak)
    && match h.status
       case Down => Successes(calls) >= h.streak
       case Degraded => Successes(calls) >= c.recovery + h.streak
       case Healthy => Successes(calls) >= 2 * c.recovery
  }

  lemma StepPaid(c: Config, h: Health, most: seq<Call>, call: Call)
    requires Paid(c, h, most)
    ensures Paid(c, Step(c, h, call), most + [call])
  {
    assert (most + [call])[..|most|] == most;
    if call.ok { assert EndsWithSuccesses(most + [call], h.streak + 1); }
  }

  lemma {:induction false} RunPaid(c: Config, h: Health, calls: seq<Call>)
    requires h.status.Down? && h.streak == 0
    ensures Paid(c, After(c, h, calls), calls)
  {
    if calls != [] {
      var most, call := calls[..|calls| - 1], calls[|calls| - 1];
      RunPaid(c, h, most);
      StepPaid(c, After(c, h, most), most, call);
      assert calls == most + [call];
    }
  }

  lemma RestoringStep(c: Config, h: Health, most: seq<Call>, call: Call)
    requires Paid(c, h, most) && !h.status.Healthy? && Step(c, h, call).status.Healthy?
    ensures EndsWithSuccesses(most + [call], c.recovery)
  {
    if call.ok { assert EndsWithSuccesses(most + [call], h.streak + 1); }
  }

  // From entering Down to Healthy: at least two full streaks of successes, and the call
  // that restores health ends an unbroken one.
  lemma RecoveryCostsTwoStreaks(c: Config, h: Health, calls: seq<Call>)
    requires h.status.Down? && h.streak == 0 && After(c, h, calls).status.Healthy?
    ensures Successes(calls) >= 2 * c.recovery
    ensures calls != [] && (!After(c, h, calls[..|calls| - 1]).status.Healthy? ==> EndsWithSuccesses(calls, c.recovery))
  {
    RunPaid(c, h, calls);
    var most, call := calls[..|calls| - 1], calls[|calls| - 1];
    var before := After(c, h, most);
    RunPaid(c, h, most);
    assert calls == most + [call] && After(c, h, calls) == Step(c, before, call);
    hide *;
    if !before.status.Healthy? {
      RestoringStep(c, before, most, call);
    }
  }

  // Unbroken successes of any latency climb one status per full streak: exactly
  // `2 * recovery - streak` of them lead from Down to Healthy, and no fewer.
  lemma {:induction false} UnbrokenClimb(c: Config, h: Health, calls: seq<Call>)
    requires c.recovery >= 1 && h.status.Down? && h.streak < c.recovery
    requires forall i :: 0 <= i < |calls| ==> calls[i].ok
    requires |calls| <= 2 * c.recovery - h.streak
    ensures var now := After(c, h, calls);
            var first := c.recovery - h.streak;
            if |calls| < first then now.status.Down? && now.streak == h.streak + |calls|
            else if |calls| < first + c.recovery then now.status.Degraded? && now.streak == |calls| - first
            else now.status.Healthy? && now.streak == 0
  {
    if calls != [] { UnbrokenClimb(c, h, calls[..|calls| - 1]); }
  }

  lemma {:induction false} UnbrokenFromDegraded(c: Config, h: Health, calls: seq<Call>)
    requires c.recovery >= 1 && h.status.Degraded? && h.streak < c.recovery
    requires forall i :: 0 <= i < |calls| ==> calls[i].ok
    requires |calls| <= c.recovery - h.streak
    ensures var now := After(c, h, calls);
            if |calls| < c.recovery - h.streak then now.status.Degraded? && now.streak == h.streak + |calls|
            else now.status.Healthy? && now.streak == 0
  {
    if calls != [] { UnbrokenFromDegraded(c, h, calls[..|calls| - 1]); }
  }

  // Wherever a component stands after any history, some number of further successes, at
  // most two streaks, brings it to Healthy.
  lemma TwoStreaksSuffice(c: Config, history: seq<Call>, calls: seq<Call>)
    requires c.recovery >= 1 && |calls| == 2 * c.recovery && forall i :: 0 <= i < |calls| ==> calls[i].ok
    ensures exists k :: 0 <= k <= |calls| && After(c, After(c, FRESH, history), calls[..k]).status.Healthy?
  {
    var h := After(c, FRESH, history);
    StreakIsSpent(c, history);
    match h.status
    case Healthy => assert After(c, h, calls[..0]).status.Healthy?;
    case Degraded =>
      var k := c.recovery - h.streak;
      UnbrokenFromDegraded(c, h, calls[..k]);
    case Down =>
      var k := 2 * c.recovery - h.streak;
      UnbrokenClimb(c, h, calls[..k]);
  }

  // Enough calls were made, and more than the given part of them failed.
  predicate FailedMoreThan(c: Config, calls: seq<Call>, rate: real) {
    |calls| >= c.minCalls && Failures(calls) as real > rate * |calls| as real
  }

  // Nothing about the latest call, or the failures so far, calls for degrading.
  predicate Acceptable(c: Config, calls: seq<Call>)
    requires calls != []
  {
    calls[|calls| - 1].latency <= c.latencyThreshold && !FailedMoreThan(c, calls, c.errorRate)
  }

  lemma RateMeaning(errors: nat, total: nat, limit: real)
    requires total > 0
    ensures ErrorRate(errors, total) > limit <==> errors as real > limit * total as real
  {
    var e, n := errors as real, total as real;
    assert e / n * n == e;
    if e / n > limit { assert e / n * n > limit * n; }
    if e > limit * n { assert limit * n / n == limit; }
  }

  lemma TooManyMeaning(c: Config, calls: seq<Call>, rate: real)
    requires calls != []
    ensures TooManyErrors(c, Failures(calls), |calls|, rate) <==> FailedMoreThan(c, calls, rate)
  {
    hide ErrorRate, Failures;
    RateMeaning(Failures(calls), |calls|, rate);
  }

  lemma HealthyStep(c: Config, calls: seq<Call>)
    requires calls != [] && After(c, FRESH, calls[..|calls| - 1]).status.Healthy?
    ensures After(c, FRESH, calls).status.Healthy? <==> Acceptable(c, calls)
  {
    CountersExact(c, calls);
    CountersExact(c, calls[..|calls| - 1]);
    TooManyMeaning(c, calls, c.errorRate);
    hide TooManyErrors, FailedMoreThan, Failures;
  }

  // A degraded component goes down exactly on a failed call after which enough calls were
  // made and more than twice the tolerated part of them failed.
  lemma GoesDownExactly(c: Config, calls: seq<Call>)
    requires calls != [] && After(c, FRESH, calls[..|calls| - 1]).status.Degraded?
    ensures After(c, FRESH, calls).status.Down?
       <==> !calls[|calls| - 1].ok && FailedMoreThan(c, calls, c.errorRate * 2.0)
  {
    CountersExact(c, calls);
    CountersExact(c, calls[..|calls| - 1]);
    TooManyMeaning(c, calls, c.errorRate * 2.0);
    hide TooManyErrors, FailedMoreThan, Failures;
  }

  predicate HealthyAfter(c: Config, calls: seq<Call>) {
    After(c, FRESH, calls).status.Healthy?
  }

  ghost predicate AlwaysHealthy(c: Config, calls: seq<Call>) {
    forall k :: 0 <= k <= |calls| ==> HealthyAfter(c, calls[..k])
  }

  ghost predicate AlwaysAcceptable(c: Config, calls: seq<Call>) {
    forall k :: 0 < k <= |calls| ==> Acceptable(c, calls[..k])
  }

  lemma HealthyPrefixes(c: Config, calls: seq<Call>)
    requires calls != []
    ensures AlwaysHealthy(c, calls) <==> AlwaysHealthy(c, calls[..|calls| - 1]) && HealthyAfter(c, calls)
    ensures AlwaysHealthy(c, calls[..|calls| - 1]) ==> HealthyAfter(c, calls[..|calls| - 1])
  {
    hide HealthyAfter;
    var n := |calls| - 1;
    var most := calls[..n];
    assert calls[..n + 1] == calls && most[..n] == most;
    forall k | 0 <= k <= n ensures most[..k] == calls[..k] {}
    if AlwaysHealthy(c, most) && HealthyAfter(c, calls) {
      forall k | 0 <= k <= |calls| ensures HealthyAfter(c, calls[..k]) {
        if k <= n { assert HealthyAfter(c, most[..k]); }
      }
    }
    if AlwaysHealthy(c, calls) {
      forall k | 0 <= k <= n ensures HealthyAfter(c, most[..k]) {
        assert HealthyAfter(c, calls[..k]);
      }
      assert HealthyAfter(c, calls[..n + 1]);
    }
  }

  lemma AcceptablePrefixes(c: Config, calls: seq<Call>)
    requires calls != []
    ensures AlwaysAcceptable(c, calls) <==> AlwaysAcceptable(c, calls[..|calls| - 1]) && Acceptable(c, calls)
  {
    hide Acceptable;
    var n := |calls| - 1;
    var most := calls[..n];
    assert calls[..n + 1] == calls;
    forall k | 0 <= k <= n ensures most[..k] == calls[..k] {}
    if AlwaysAcceptable(c, most) && Acceptable(c, calls) {
      forall k | 0 < k <= |calls| ensures Acceptable(c, calls[..k]) {
        if k <= n { assert Acceptable(c, most[..k]); }
      }
    }
    if AlwaysAcceptable(c, calls) {
      forall k | 0 < k <= n ensures Acceptable(c, most[..k]) {
        assert Acceptable(c, calls[..k]);
      }
      assert Acceptable(c, calls[..n + 1]);
    }
  }

  // A component is healthy throughout exactly when no call was slow and at no time had too
  // many of enough calls failed.
  lemma {:induction false} StaysHealthy(c: Config, calls: seq<Call>)
    ensures AlwaysHealthy(c, calls) <==> AlwaysAcceptable(c, calls)
  {
    hide After, Acceptable;
    if calls != [] {
      var most := calls[..|calls| - 1];
      StaysHealthy(c, most);
      HealthyPrefixes(c, calls);
      AcceptablePrefixes(c, calls);
      hide AlwaysHealthy, AlwaysAcceptable;
      if AlwaysHealthy(c, most) {
        HealthyStep(c, calls);
      }
    } else {
      NothingYet(c);
    }
  }

  lemma NothingYet(c: Config)
    ensures AlwaysHealthy(c, []) && AlwaysAcceptable(c, [])
  {
    assert After(c, FRESH, []) == FRESH;
    var none: seq<Call> := [];
    assert none[..0] == none;
  }

  // ---------- the probe window ----------

  function Expired(probes: seq<nat>, cutoff: nat): seq<nat> {
    if probes != [] && probes[0] < cutoff then Expired(probes[1..], cutoff) else probes
  }

  function Cutoff(now: nat, window: nat): nat {
    if now <= window then 0 else now - window
  }

  class ProbeRateLimiter {
    const maxProbes: nat
    const window: nat
    var recent: seq<nat>

    constructor (maxProbes: nat, window: nat)
      ensures this.maxProbes == maxProbes && this.window == window && recent == []
    {
      this.maxProbes, this.window, recent := maxProbes, window, [];
    }

    method RecordProbeAt(timestamp: nat)
      modifies this
      ensures recent == Expired(old(recent) + [timestamp], Cutoff(timestamp, window))
    {
      recent := recent + [timestamp];
      ExpireOld(timestamp);
    }

    method ExpireOld(now: nat)
      modifies this
      ensures recent == Expired(old(recent), Cutoff(now, window))
    {
      var cutoff := Cutoff(now, window);
      while recent != [] && recent[0] < cutoff
        invariant Expired(recent, cutoff) == Expired(old(recent), cutoff)
        decreases |recent|
      {
        recent := recent[1..];
      }
    }

    predicate IsThrottled()
      reads this
    {
      |recent| >= maxProbes
    }
  }

  // The window after recording every probe in turn.
  function Recorded(probes: seq<nat>, window: nat): seq<nat> {
    if probes == [] then []
    else
      var now := probes[|probes| - 1];
      Expired(Recorded(probes[..|probes| - 1], window) + [now], Cutoff(now, window))
  }

  ghost predicate InOrder(probes: seq<nat>) {
    forall i, j :: 0 <= i < j < |probes| ==> probes[i] <= probes[j]
  }

  lemma {:induction false} ExpiredMeaning(probes: seq<nat>, cutoff: nat)
    ensures var r := Expired(probes, cutoff);
            && |r| <= |probes| && r == probes[|probes| - |r|..]
            && (forall i :: 0 <= i < |probes| - |r| ==> probes[i] < cutoff)
            && (r != [] ==> r[0] >= cutoff)
  {
    if probes != [] && probes[0] < cutoff {
      ExpiredMeaning(probes[1..], cutoff);
    }
  }

  // `r` is what lies in the window, as the tail of `probes`.
  ghost predicate Window(probes: seq<nat>, r: seq<nat>, cutoff: nat) {
    && |r| <= |probes| && r == probes[|probes| - |r|..]
    && forall i :: 0 <= i < |probes| ==> (i >= |probes| - |r| <==> probes[i] >= cutoff)
  }

  lemma WindowSlides(most: seq<nat>, r: seq<nat>, now: nat, earlier: nat, cutoff: nat)
    requires Window(most, r, earlier) && earlier <= cutoff && InOrder(most + [now])
    ensures Window(most + [now], Expired(r + [now], cutoff), cutoff)
  {
    var probes, kept := most + [now], r + [now];
    var from := |most| - |r|;
    ExpiredMeaning(kept, cutoff);
    var out := Expired(kept, cutoff);
    var start := |probes| - |out|;
    hide Expired;
    assert kept == probes[from..];
    assert out == kept[start - from..] == probes[start..];
    forall i | 0 <= i < |probes|
      ensures i >= start <==> probes[i] >= cutoff
    {
      if i < from {
        assert probes[i] == most[i];
      } else if i < start {
        assert probes[i] == kept[i - from];
      } else {
        assert out[0] == probes[start] <= probes[i];
      }
    }
  }

  // With a clock that never runs backwards, the limiter holds exactly the probes of the
  // whole history that lie within the window of the latest one.
  lemma {:induction false} WindowExact(probes: seq<nat>, window: nat)
    requires probes != [] && InOrder(probes)
    ensures Window(probes, Recorded(probes, window), Cutoff(probes[|probes| - 1], window))
  {
    var n := |probes| - 1;
    var most, now := probes[..n], probes[n];
    assert probes == most + [now];
    var before := if n == 0 then 0 else Cutoff(probes[n - 1], window);
    if n > 0 {
      WindowExact(most, window);
    }
    assert Window(most, Recorded(most, window), before);
    WindowSlides(most, Recorded(most, window), now, before, Cutoff(now, window));
  }

  // Probing is throttled exactly when the last `maxProbes` probes of the whole history all
  // lie within the window of the latest.
  lemma ThrottledExactly(limiter: ProbeRateLimiter, probes: seq<nat>)
    requires probes != [] && InOrder(probes) && limiter.recent == Recorded(probes, limiter.window)
    ensures var k := limiter.maxProbes;
            limiter.IsThrottled() <==>
              k <= |probes| && (k > 0 ==> probes[|probes| - k] + limiter.window >= probes[|probes| - 1])
  {
    WindowExact(probes, limiter.window);
    hide Recorded;
    assert Window(probes, limiter.recent, Cutoff(probes[|probes| - 1], limiter.window));
  }

  // ---------- the operating tier ----------

  datatype Tier = FullRecall | StubsAndToolsOnly | PassThrough

  class DegradationMonitor {
    const embedding: ComponentHealth
    const summary: ComponentHealth
    const probes: ProbeRateLimiter

    constructor (embedding: Config, summary: Config, maxProbes: nat, window: nat)
      ensures EffectiveTier() == if maxProbes == 0 then StubsAndToolsOnly else FullRecall
    {
      this.embedding := new ComponentHealth(embedding);
      this.summary := new ComponentHealth(summary);
      probes := new ProbeRateLimiter(maxProbes, window);
    }

    function EffectiveTier(): (tier: Tier)
      reads this, embedding, summary, probes
      ensures tier == PassThrough <==> summary.status == Down
      ensures tier == FullRecall <==> embedding.status == Healthy && summary.status != Down && !probes.IsThrottled()
    {
      TierOf(embedding.status, summary.status, probes.IsThrottled())
    }
  }

  function TierOf(embedding: Status, summary: Status, throttled: bool): Tier {
    if summary == Down then PassThrough
    else if embedding != Healthy || throttled then StubsAndToolsOnly
    else FullRecall
  }

  function Level(s: Status): nat {
    match s case Healthy => 0 case Degraded => 1 case Down => 2
  }

  function Severity(t: Tier): nat {
    match t case FullRecall => 0 case StubsAndToolsOnly => 1 case PassThrough => 2
  }

  // Worse parts never give a better tier; stubs are generated until the summary service
  // is down, whatever the rest does.
  lemma WorseNeverHelps(e1: Status, s1: Status, t1: bool, e2: Status, s2: Status, t2: bool)
    requires Level(e1) <= Level(e2) && Level(s1) <= Level(s2) && (t1 ==> t2)
    ensures Severity(TierOf(e1, s1, t1)) <= Severity(TierOf(e2, s2, t2))
    ensures TierOf(e1, s1, t1) != PassThrough <==> Level(s1) < Level(Down)
    ensures TierOf(e1, s1, t1) == FullRecall <==> Level(e1) == 0 && Level(s1) < Level(Down) && !t1
  {
  }

  // Automatic recall lost to the embedding service returns only after a full streak of its
  // successes.
  lemma RecallReturnsAfterStreak(c: Config, history: seq<Call>, calls: seq<Call>, summary: Status, throttled: bool)
    requires var h := After(c, FRESH, history); !h.status.Healthy? && h.streak == 0
    requires TierOf(After(c, After(c, FRESH, history), calls).status, summary, throttled) == FullRecall
    ensures Successes(calls) >= c.recovery
  {
    LeavingDegradedCosts(c, After(c, FRESH, history), calls);
  }

  lemma {:induction false} LeavingDegradedCosts(c: Config, h: Health, calls: seq<Call>)
    requires !h.status.Healthy? && h.streak == 0
    ensures var now := After(c, h, calls);
            Successes(calls) >= if now.status.Healthy? then c.recovery else now.streak
  {
    if calls != [] {
      LeavingDegradedCosts(c, h, calls[..|calls| - 1]);
    }
  }
}
