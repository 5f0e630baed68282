/**
 Retrying a failed handler until a deadline. What the API server, the handler,
 the clock and the random numbers do at each attempt is given by functions of
 the attempt.
 */
module Retry {
  datatype Check = Found | NotFound | ClientError | CheckError

  // How the handler ends: a conflict over a quota, another conflict, one of the
  // exceptions to retry, or any other.
  datatype Outcome = Success | QuotaConflict | OtherConflict | Retryable | Unexpected

  datatype Result = Handled | Gone | Raised(outcome: Outcome) | CheckFailed

  datatype Sleep = Sleep(start: real, length: real)

  // What happens at attempt n = 1, 2, ...
  datatype World = World(check: nat -> Check, outcome: nat -> Outcome, took: nat -> real, random: nat -> nat)

  function Pow2(n: nat): nat { if n == 0 then 1 else 2 * Pow2(n - 1) }

  ghost predicate Sensible(w: World) {
    forall n: nat :: n > 0 ==> w.took(n) >= 0.0 && 1 <= w.random(n) <= Pow2(n) - 1
  }

  function Ceil(x: real): int { -((-x).Floor) }

  // The number of sleeps that fit: each lasts an interval and starts in time.
  function MaxSleeps(timeout: real, interval: real): nat {
    if timeout <= 0.0 || interval <= 0.0 then 0 else var c := Ceil(timeout / interval); if c < 0 then 0 else c
  }

  lemma SleepsFit(n: nat, timeout: real, interval: real)
    requires interval > 0.0 && n as real * interval < timeout
    ensures n + 1 <= MaxSleeps(timeout, interval)
  {
    var x := n as real;
    assert x * interval >= 0.0;
    assert (x * interval) / interval == x;
    Divides(x * interval, timeout, interval);
    assert x < timeout / interval;
  }

  lemma Divides(a: real, b: real, d: real)
    requires d > 0.0 && a < b
    ensures a / d < b / d
  {
    assert (b - a) / d > 0.0;
    assert (b - a) / d == b / d - a / d;
  }

  function Times(n: nat, interval: real): real { n as real * interval }

  // Sleeps for a random number of intervals, cut off at the deadline but at
  // least one interval; not at all after the deadline.
  method ExponentialSleep(deadline: real, now: real, random: nat, interval: real) returns (slept: real)
    requires interval >= 0.0 && random >= 1
    ensures now >= deadline ==> slept == 0.0
    ensures now < deadline ==> slept >= interval && now + slept <= (if now + interval > deadline then now + interval else deadline)
    ensures now < deadline ==> slept <= Times(random, interval)
    ensures interval == 0.0 ==> slept == 0.0
  {
    var left := deadline - now;
    if left <= 0.0 { return 0.0; }
    var toSleep := Times(random, interval);
    Intervals(random, interval);
    hide Times;
    if toSleep > left { toSleep := left; }
    if toSleep < interval { toSleep := interval; }
    return toSleep;
  }

  lemma Pow2Small()
    ensures Pow2(1) == 2 && Pow2(2) == 4
    ensures forall interval :: Times(1, interval) == interval && Times(3, interval) == 3.0 * interval
  {
  }

  lemma TimesGrows(m: nat, n: nat, interval: real)
    requires m <= n && interval >= 0.0
    ensures Times(m, interval) <= Times(n, interval)
  {
    assert (n - m) as real * interval >= 0.0;
    assert n as real == m as real + (n - m) as real;
    assert n as real * interval == m as real * interval + (n - m) as real * interval;
  }

  lemma OneMore(n: nat, interval: real)
    ensures (n + 1) as real * interval == n as real * interval + interval
  {
    var x := n as real;
    assert (n + 1) as real == x + 1.0;
    assert (x + 1.0) * interval == x * interval + interval;
  }

  lemma Intervals(random: nat, interval: real)
    requires interval >= 0.0 && random >= 1
    ensures Times(random, interval) >= interval
  {
    assert random as real == (random - 1) as real + 1.0;
    OneMore(random - 1, interval);
    assert (random - 1) as real * interval >= 0.0;
  }

  // The sleeps lie between attempts: each at least an interval long, begun
  // before the deadline and over before the deadline plus one interval.
  ghost predicate Sleeps(sleeps: seq<Sleep>, start: real, deadline: real, interval: real) {
    && (forall i :: 0 <= i < |sleeps| ==>
          && sleeps[i].length >= interval && sleeps[i].start < deadline
          && sleeps[i].start + sleeps[i].length < deadline + interval)
    && (forall i :: 0 < i < |sleeps| ==> sleeps[i - 1].start + sleeps[i - 1].length <= sleeps[i].start)
    && (|sleeps| > 0 ==> sleeps[0].start >= start)
  }

  function Ends(sleeps: seq<Sleep>, start: real): real {
    if sleeps == [] then start else sleeps[|sleeps| - 1].start + sleeps[|sleeps| - 1].length
  }

  lemma LastAdvances(n: nat, start: real, before: real, last: Sleep, interval: real)
    requires before >= start + n as real * interval && before <= last.start && last.length >= interval
    ensures last.start + last.length >= start + (n + 1) as real * interval
  {
    OneMore(n, interval);
  }

  // Each sleep starts at least as many intervals in as there are sleeps before it.
  lemma {:induction false} SleepsAdvance(sleeps: seq<Sleep>, start: real, deadline: real, interval: real)
    requires Sleeps(sleeps, start, deadline, interval)
    ensures Ends(sleeps, start) >= start + |sleeps| as real * interval
  {
    if sleeps != [] {
      var init, last := sleeps[..|sleeps| - 1], sleeps[|sleeps| - 1];
      SleepsAdvance(init, start, deadline, interval);
      assert Ends(init, start) <= last.start && last.length >= interval && Ends(sleeps, start) == last.start + last.length;
      hide Sleeps, Ends;
      LastAdvances(|init|, start, Ends(init, start), last, interval);
    }
  }

  // So there are no more sleeps than fit before the deadline.
  lemma SleepsBounded(sleeps: seq<Sleep>, start: real, timeout: real, interval: real)
    requires interval > 0.0 && Sleeps(sleeps, start, start + timeout, interval)
    ensures |sleeps| <= MaxSleeps(timeout, interval)
  {
    if sleeps != [] {
      var init := sleeps[..|sleeps| - 1];
      SleepsAdvance(init, start, start + timeout, interval);
      assert Ends(init, start) <= sleeps[|sleeps| - 1].start;
      SleepsFit(|init|, timeout, interval);
    }
  }

  lemma NoSleeps(start: real, deadline: real, interval: real)
    ensures Sleeps([], start, deadline, interval) && Ends([], start) == start
  {
  }

  lemma OneMoreSleep(sleeps: seq<Sleep>, start: real, deadline: real, interval: real, now: real, slept: real)
    requires Sleeps(sleeps, start, deadline, interval) && Ends(sleeps, start) <= now < deadline
    requires slept > 0.0 && slept >= interval && now + slept <= if now + interval > deadline then now + interval else deadline
    requires interval > 0.0
    ensures Sleeps(sleeps + [Sleep(now, slept)], start, deadline, interval)
    ensures Ends(sleeps + [Sleep(now, slept)], start) == now + slept
  {
  }

  // Handles an event. `checked` says that the event is of an object to look up
  // before each attempt. Returns the handler's liveness, too.
  method Call(w: World, checked: bool, wasAlive: bool, start: real, timeout: real, interval: real)
    returns (result: Result, alive: bool, calls: nat, sleeps: seq<Sleep>, now: real)
    requires Sensible(w) && interval >= 0.0
    ensures calls <= MaxSleeps(timeout, interval) + 1
    ensures Sleeps(sleeps, start, start + timeout, interval)
    ensures calls == |sleeps| + if result.Handled? || result.Raised? then 1 else 0
    // Every call but the last failed in a way that is retried.
    ensures forall n :: 1 <= n <= |sleeps| ==> w.outcome(n) in {QuotaConflict, Retryable} && !(checked && w.check(n) in {NotFound, CheckError})
    ensures result.Handled? ==> w.outcome(calls) == Success
    ensures result.Raised? ==> result.outcome == w.outcome(calls) != Success
    ensures result.Raised? && result.outcome in {QuotaConflict, Retryable} ==> interval == 0.0 || now >= start + timeout
    // The sleeps may grow twofold from one to the next; the first is one interval.
    ensures forall i :: 0 <= i < |sleeps| ==> sleeps[i].length <= Times(Pow2(i + 1) - 1, interval)
    ensures |sleeps| >= 1 ==> sleeps[0].length == interval
    ensures |sleeps| >= 2 ==> sleeps[1].length <= 3.0 * interval
    ensures result.Gone? ==> checked && w.check(calls + 1) == NotFound
    ensures result.CheckFailed? ==> checked && w.check(calls + 1) == CheckError
    // The handler is reported dead exactly for these.
    ensures alive == (wasAlive && result !in {Raised(Retryable), Raised(Unexpected)})
  {
    var deadline := start + timeout;
    Pow2Small();
    hide Sleeps, Ends, MaxSleeps, Pow2, Times;
    NoSleeps(start, deadline, interval);
    alive, calls, sleeps, now := wasAlive, 0, [], start;
    for attempt := 1 to *
      invariant attempt >= 1 && calls == attempt - 1 == |sleeps| && alive == wasAlive
      invariant Sleeps(sleeps, start, deadline, interval) && now >= Ends(sleeps, start)
      invariant |sleeps| <= MaxSleeps(timeout, interval)
      invariant forall i :: 0 <= i < |sleeps| ==> interval <= sleeps[i].length <= Times(Pow2(i + 1) - 1, interval)
      invariant forall n :: 1 <= n < attempt ==> w.outcome(n) in {QuotaConflict, Retryable} && !(checked && w.check(n) in {NotFound, CheckError})
      decreases MaxSleeps(timeout, interval) + 1 - attempt
    {
      if checked {
        match w.check(attempt)
        case NotFound => result := Gone; return;
        case CheckError => result := CheckFailed; return;
        case _ =>
      }
      calls, now := calls + 1, now + w.took(attempt);
      var outcome := w.outcome(attempt);
      match outcome
      case Success =>
        result := Handled;
        return;
      case OtherConflict =>
        result := Raised(outcome);
        return;
      case Unexpected =>
        result, alive := Raised(outcome), false;
        return;
      case _ =>
        var slept := ExponentialSleep(deadline, now, w.random(attempt), interval);
        if slept == 0.0 {
          result := Raised(outcome);
          if outcome == Retryable { alive := false; }
          return;
        }
        TimesGrows(w.random(attempt), Pow2(attempt) - 1, interval);
        OneMoreSleep(sleeps, start, deadline, interval, now, slept);
        sleeps, now := sleeps + [Sleep(now, slept)], now + slept;
        SleepsBounded(sleeps, start, timeout, interval);
    }
  }
}
