/** The token bucket of crates/actant-reliability/src/throttle.rs, over exact reals. */
module Throttle {
  import opened Common

  datatype Policy = Policy(limit: U32, rate: real)

  datatype State = State(tokens: real, last: real)

  /** A call reads the clock twice: for the time that has passed, and for when to count from next. */
  datatype Call = Call(n: U32, elapsedAt: real, stampedAt: real)

  datatype Outcome = Granted | Retry(after: real)

  function Min(a: real, b: real): real {
    if a < b then a else b
  }

  function Max(a: real, b: real): real {
    if a < b then b else a
  }

  /** `tokens as u32`, which saturates below zero. */
  function Whole(tokens: real): int {
    if tokens < 0.0 then 0 else tokens.Floor
  }

  /** What the rate brings between two readings. */
  function Gain(p: Policy, from: real, to: real): real {
    (to - from) * p.rate
  }

  function Refilled(p: Policy, s: State, elapsedAt: real): real {
    Min(s.tokens + Gain(p, s.last, elapsedAt), p.limit as real)
  }

  /** How long a deficit takes to make up, at no less than a thousandth of a token a second. */
  function WaitFor(p: Policy, deficit: real): real {
    deficit / Max(p.rate, 0.001)
  }

  /** The request meets a level that has already been refilled. */
  function Take(p: Policy, level: real, c: Call): (State, Outcome) {
    if Whole(level) >= c.n then (State(level - c.n as real, c.stampedAt), Granted)
    else (State(level, c.stampedAt), Retry(WaitFor(p, c.n as real - level)))
  }

  function Consume(p: Policy, s: State, c: Call): (State, Outcome) {
    Take(p, Refilled(p, s, c.elapsedAt), c)
  }

  class Bucket {
    const policy: Policy
    var tokens: real
    var last: real

    constructor (policy: Policy, now: real)
      ensures this.policy == policy && tokens == policy.limit as real && last == now
    {
      this.policy := policy;
      tokens := policy.limit as real;
      last := now;
    }

    method Refill(elapsedAt: real, stampedAt: real)
      modifies this
      ensures tokens == Refilled(policy, State(old(tokens), old(last)), elapsedAt)
      ensures last == stampedAt
    {
      var elapsed := elapsedAt - last;
      tokens := Min(tokens + elapsed * policy.rate, policy.limit as real);
      last := stampedAt;
    }

    method TryConsume(c: Call) returns (r: Outcome)
      modifies this
      ensures (State(tokens, last), r) == Consume(policy, State(old(tokens), old(last)), c)
    {
      Refill(c.elapsedAt, c.stampedAt);
      if Whole(tokens) >= c.n {
        tokens := tokens - c.n as real;
        r := Granted;
      } else {
        var deficit := c.n as real - tokens;
        r := Retry(WaitFor(policy, deficit));
      }
    }
  }

  // ------------------------------------------------------------------ runs

  function After(p: Policy, s: State, calls: seq<Call>): State
    decreases |calls|
  {
    if calls == [] then s else After(p, Consume(p, s, calls[0]).0, calls[1..])
  }

  /** The tokens handed out by a sequence of calls. */
  function Given(p: Policy, s: State, calls: seq<Call>): int
    decreases |calls|
  {
    if calls == [] then 0
    else
      var (s', r) := Consume(p, s, calls[0]);
      Cost(r, calls[0]) + Given(p, s', calls[1..])
  }

  /** The clock is monotonic. */
  predicate Ordered(last: real, calls: seq<Call>)
    decreases |calls|
  {
    calls == [] || (last <= calls[0].elapsedAt <= calls[0].stampedAt && Ordered(calls[0].stampedAt, calls[1..]))
  }

  predicate Within(p: Policy, s: State) {
    0.0 <= s.tokens <= p.limit as real
  }

  lemma {:induction false} ProductIsNonNegative(a: real, b: real)
    requires a >= 0.0 && b >= 0.0
    ensures a * b >= 0.0
  {
  }

  lemma {:induction false} WholeIsBelow(tokens: real, n: nat)
    requires tokens >= 0.0
    ensures Whole(tokens) >= n <==> tokens >= n as real
  {
    if tokens >= n as real {
      assert tokens < tokens.Floor as real + 1.0;
    }
  }

  lemma {:induction false} GainIsNonNegative(p: Policy, from: real, to: real)
    requires p.rate >= 0.0 && from <= to
    ensures Gain(p, from, to) >= 0.0
  {
    var elapsed := to - from;
    ProductIsNonNegative(elapsed, p.rate);
  }

  lemma {:induction false} RefillStaysWithin(p: Policy, s: State, now: real)
    requires p.rate >= 0.0 && Within(p, s) && s.last <= now
    ensures 0.0 <= Refilled(p, s, now) <= p.limit as real
  {
    var gain := Gain(p, s.last, now);
    GainIsNonNegative(p, s.last, now);
    assert Refilled(p, s, now) == Min(s.tokens + gain, p.limit as real);
  }

  lemma {:induction false} TakeStaysWithin(p: Policy, level: real, c: Call)
    requires 0.0 <= level <= p.limit as real
    ensures Within(p, Take(p, level, c).0)
    ensures Take(p, level, c).1.Granted? <==> level >= c.n as real
  {
    WholeIsBelow(level, c.n);
  }

  lemma {:induction false} StepStaysWithin(p: Policy, s: State, c: Call)
    requires p.rate >= 0.0 && Within(p, s) && s.last <= c.elapsedAt
    ensures Within(p, Consume(p, s, c).0)
    ensures Consume(p, s, c).1.Granted? <==> Refilled(p, s, c.elapsedAt) >= c.n as real
  {
    RefillStaysWithin(p, s, c.elapsedAt);
    TakeStaysWithin(p, Refilled(p, s, c.elapsedAt), c);
  }

  /** The level never leaves the range from empty to full. */
  lemma {:induction false} LevelStaysWithin(p: Policy, s: State, calls: seq<Call>)
    requires p.rate >= 0.0 && Within(p, s) && Ordered(s.last, calls)
    ensures Within(p, After(p, s, calls))
    decreases |calls|
  {
    if calls != [] {
      StepStaysWithin(p, s, calls[0]);
      LevelStaysWithin(p, Consume(p, s, calls[0]).0, calls[1..]);
    }
  }

  /** From every level in range the level stays in range over every run, exactly when the rate is
      not negative. */
  lemma {:induction false} LevelStaysWithinExactlyWhen(p: Policy)
    ensures p.rate >= 0.0 <==>
              forall s: State, calls: seq<Call> | Within(p, s) && Ordered(s.last, calls) :: Within(p, After(p, s, calls))
  {
    if p.rate >= 0.0 {
      forall s: State, calls: seq<Call> | Within(p, s) && Ordered(s.last, calls) ensures Within(p, After(p, s, calls)) {
        LevelStaysWithin(p, s, calls);
      }
    } else {
      var s, c := State(0.0, 0.0), Call(0, 1.0, 1.0);
      assert Gain(p, 0.0, 1.0) == p.rate;
      assert After(p, s, [c]) == After(p, Consume(p, s, c).0, [c][1..]) == Consume(p, s, c).0;
      assert Ordered(s.last, [c]);
    }
  }

  function Cost(r: Outcome, c: Call): int {
    if r.Granted? then c.n else 0
  }

  lemma {:induction false} StepIsConserved(p: Policy, s: State, c: Call)
    ensures var (s', r) := Consume(p, s, c);
            Cost(r, c) as real + s'.tokens <= s.tokens + Gain(p, s.last, c.elapsedAt) && s'.last == c.stampedAt
  {
    var level := Refilled(p, s, c.elapsedAt);
    var gain := Gain(p, s.last, c.elapsedAt);
    assert level <= s.tokens + gain;
    assert Cost(Take(p, level, c).1, c) as real + Take(p, level, c).0.tokens == level;
  }

  /** What is credited over a sequence of calls; the time between a call's two readings is not. */
  function Credited(p: Policy, last: real, calls: seq<Call>): real
    decreases |calls|
  {
    if calls == [] then 0.0 else Gain(p, last, calls[0].elapsedAt) + Credited(p, calls[0].stampedAt, calls[1..])
  }

  /** Tokens handed out and still held never exceed those held before plus what was credited. */
  lemma {:induction false} TokensAreConserved(p: Policy, s: State, calls: seq<Call>)
    ensures Given(p, s, calls) as real + After(p, s, calls).tokens <= s.tokens + Credited(p, s.last, calls)
    decreases |calls|
  {
    if calls != [] {
      StepIsConserved(p, s, calls[0]);
      TokensAreConserved(p, Consume(p, s, calls[0]).0, calls[1..]);
    }
  }

  lemma {:induction false} CreditIsBounded(p: Policy, last: real, calls: seq<Call>)
    requires p.rate >= 0.0 && Ordered(last, calls) && calls != []
    ensures Credited(p, last, calls) <= Gain(p, last, calls[|calls| - 1].elapsedAt)
    decreases |calls|
  {
    var c, rest := calls[0], calls[1..];
    if rest == [] {
      assert Credited(p, c.stampedAt, rest) == 0.0;
    } else {
      CreditIsBounded(p, c.stampedAt, rest);
      Telescopes(p, last, c.elapsedAt, c.stampedAt, calls[|calls| - 1].elapsedAt);
    }
  }

  lemma {:induction false} Telescopes(p: Policy, a: real, b: real, c: real, d: real)
    requires p.rate >= 0.0 && b <= c
    ensures Gain(p, a, b) + Gain(p, c, d) <= Gain(p, a, d)
  {
    GainIsNonNegative(p, b, c);
    GainsAdd(p, a, b, c);
    GainsAdd(p, a, c, d);
  }

  lemma {:induction false} GainsAdd(p: Policy, a: real, b: real, c: real)
    ensures Gain(p, a, b) + Gain(p, b, c) == Gain(p, a, c)
  {
    var x, y := b - a, c - b;
    assert x * p.rate + y * p.rate == (x + y) * p.rate;
    assert x + y == c - a;
  }

  lemma {:induction false} NoTimeNoGain(p: Policy, now: real)
    ensures Gain(p, now, now) == 0.0
  {
    assert now - now == 0.0;
  }

  /** A bucket that is refilled in advance, at the moment of its next call, serves that call alike. */
  lemma {:induction false} RefillingFirst(p: Policy, s: State, calls: seq<Call>)
    requires p.rate >= 0.0 && Within(p, s) && Ordered(s.last, calls) && calls != []
    ensures var now := calls[0].elapsedAt;
            var full := State(Refilled(p, s, now), now);
            Within(p, full) && Ordered(now, calls) && Given(p, full, calls) == Given(p, s, calls)
  {
    var now := calls[0].elapsedAt;
    var full := State(Refilled(p, s, now), now);
    RefillStaysWithin(p, s, now);
    NoTimeNoGain(p, now);
    assert Refilled(p, full, now) == full.tokens;
  }

  lemma {:induction false} GivenIsBounded(p: Policy, s: State, calls: seq<Call>)
    requires p.rate >= 0.0 && Within(p, s) && Ordered(s.last, calls) && calls != []
    ensures Given(p, s, calls) as real <= p.limit as real + Credited(p, s.last, calls)
  {
    TokensAreConserved(p, s, calls);
    LevelStaysWithin(p, s, calls);
  }

  /** In any window of any run, at most `limit` plus the rate times the length of the window. */
  lemma {:induction false} WindowIsBounded(p: Policy, s: State, calls: seq<Call>)
    requires p.rate >= 0.0 && Within(p, s) && Ordered(s.last, calls) && calls != []
    ensures Given(p, s, calls) as real
         <= p.limit as real + Gain(p, calls[0].elapsedAt, calls[|calls| - 1].elapsedAt)
  {
    var now := calls[0].elapsedAt;
    RefillingFirst(p, s, calls);
    GivenIsBounded(p, State(Refilled(p, s, now), now), calls);
    CreditIsBounded(p, now, calls);
  }

  /** A run splits at any point, so the bound holds of every window inside it. */
  lemma {:induction false} WindowsOfARun(p: Policy, s: State, before: seq<Call>, window: seq<Call>)
    requires p.rate >= 0.0 && Within(p, s) && Ordered(s.last, before + window) && window != []
    ensures Given(p, After(p, s, before), window) as real
         <= p.limit as real + Gain(p, window[0].elapsedAt, window[|window| - 1].elapsedAt)
    ensures Given(p, s, before + window) == Given(p, s, before) + Given(p, After(p, s, before), window)
    decreases |before|
  {
    if before == [] {
      assert before + window == window;
      WindowIsBounded(p, s, window);
    } else {
      assert (before + window)[1..] == before[1..] + window;
      StepStaysWithin(p, s, before[0]);
      WindowsOfARun(p, Consume(p, s, before[0]).0, before[1..], window);
    }
  }

  // ----------------------------------------------------------------- retry

  lemma {:induction false} QuotientRestores(deficit: real, rate: real)
    requires rate > 0.0
    ensures deficit / rate * rate == deficit
    ensures deficit > 0.0 ==> deficit / rate > 0.0
  {
  }

  lemma {:induction false} SlowRateFallsShort(deficit: real, rate: real)
    requires deficit > 0.0 && rate < 0.001
    ensures deficit / 0.001 * rate < deficit
  {
    var x, gap := deficit / 0.001, 0.001 - rate;
    assert x * 0.001 == deficit;
    assert x > 0.0;
    assert x * gap > 0.0;
    assert x * gap == x * 0.001 - x * rate;
  }

  /** What the told wait brings: the whole deficit, or less at a rate below the floor. */
  lemma {:induction false} WaitBrings(p: Policy, deficit: real)
    requires p.rate >= 0.0 && deficit > 0.0
    ensures WaitFor(p, deficit) >= 0.0
    ensures p.rate >= 0.001 ==> WaitFor(p, deficit) * p.rate == deficit
    ensures p.rate < 0.001 ==> WaitFor(p, deficit) * p.rate < deficit
  {
    var floor := Max(p.rate, 0.001);
    QuotientRestores(deficit, floor);
    if p.rate < 0.001 { SlowRateFallsShort(deficit, p.rate); }
  }

  lemma {:induction false} GainOfWait(p: Policy, from: real, wait: real)
    ensures Gain(p, from, from + wait) == wait * p.rate
  {
    assert (from + wait) - from == wait;
  }

  /** A refused caller that waits exactly as long as it was told, while nothing else calls, is
      served exactly when the request fits the bucket and the rate is at least the floor that the
      wait is computed with. */
  lemma {:induction false} WaitIsEnoughExactlyWhen(p: Policy, s: State, c: Call, again: Call)
    requires p.rate >= 0.0 && Within(p, s) && s.last <= c.elapsedAt
    requires Consume(p, s, c).1.Retry?
    requires again.n == c.n && again.elapsedAt == c.stampedAt + Consume(p, s, c).1.after
    ensures Consume(p, Consume(p, s, c).0, again).1.Granted? <==> c.n <= p.limit && p.rate >= 0.001
  {
    StepStaysWithin(p, s, c);
    var s' := Consume(p, s, c).0;
    RetryMeetsDeficit(p, s', c.n, again);
  }

  lemma {:induction false} RetryMeetsDeficit(p: Policy, s: State, n: U32, again: Call)
    requires p.rate >= 0.0 && Within(p, s) && s.tokens < n as real && again.n == n
    requires again.elapsedAt == s.last + WaitFor(p, n as real - s.tokens)
    ensures Consume(p, s, again).1.Granted? <==> n <= p.limit && p.rate >= 0.001
  {
    var deficit := n as real - s.tokens;
    var wait := WaitFor(p, deficit);
    WaitBrings(p, deficit);
    GainOfWait(p, s.last, wait);
    StepStaysWithin(p, s, again);
    var brought := wait * p.rate;
    assert Refilled(p, s, again.elapsedAt) == Min(s.tokens + brought, p.limit as real);
  }

  /** No shorter wait would do: a refused caller that comes back before it was told to is refused
      again, at any rate that the wait is computed with. */
  lemma {:induction false} NoShorterWaitSuffices(p: Policy, s: State, c: Call, again: Call)
    requires p.rate >= 0.001 && Within(p, s) && s.last <= c.elapsedAt
    requires Consume(p, s, c).1.Retry? && again.n == c.n
    requires c.stampedAt <= again.elapsedAt < c.stampedAt + Consume(p, s, c).1.after
    ensures Consume(p, Consume(p, s, c).0, again).1.Retry?
  {
    StepStaysWithin(p, s, c);
    var s' := Consume(p, s, c).0;
    StepStaysWithin(p, s', again);
    var deficit := c.n as real - s'.tokens;
    WaitBrings(p, deficit);
    var wait, early := WaitFor(p, deficit), again.elapsedAt - s'.last;
    LessTimeBringsLess(early, wait, p.rate);
    assert Gain(p, s'.last, again.elapsedAt) == early * p.rate;
  }

  lemma {:induction false} LessTimeBringsLess(a: real, b: real, rate: real)
    requires a < b && rate > 0.0
    ensures a * rate < b * rate
  {
    var gap := b - a;
    assert gap * rate > 0.0;
    assert gap * rate == b * rate - a * rate;
  }

  /** A request for nothing is always granted, even of a bucket in debt. */
  lemma {:induction false} EmptyRequestsAreGranted(p: Policy, s: State, c: Call)
    requires c.n == 0
    ensures Consume(p, s, c).1.Granted? && Consume(p, s, c).0.tokens == Refilled(p, s, c.elapsedAt)
  {
  }

  /** A request above the limit is never granted. */
  lemma {:induction false} OversizedRequestsAreRefused(p: Policy, s: State, calls: seq<Call>, c: Call)
    requires p.rate >= 0.0 && Within(p, s) && Ordered(s.last, calls + [c]) && c.n > p.limit
    ensures Consume(p, After(p, s, calls), c).1.Retry?
  {
    WindowsOfARun(p, s, calls, [c]);
  }
}
