/** The circuit breaker and the retrying model client that drives it. */
module CircuitBreaker {
  import opened Wrappers

  datatype State = Closed | Open | HalfOpen

  // The breaker's fields as a value
  datatype Breaker = Breaker(failures: nat, lastFailure: Option<real>, state: State)

  datatype Settings = Settings(threshold: int, timeout: real)

  const FRESH := Breaker(0, None, Closed)

  function Succeed(b: Breaker): Breaker {
    b.(failures := 0, state := Closed)
  }

  function Fail(c: Settings, b: Breaker, now: real): Breaker {
    Breaker(b.failures + 1, Some(now), if b.failures + 1 >= c.threshold then Open else b.state)
  }

  // A last failure at time zero counts as none
  predicate Recovered(c: Settings, lastFailure: Option<real>, now: real) {
    lastFailure.Some? && lastFailure.value != 0.0 && now - lastFailure.value > c.timeout
  }

  function Ask(c: Settings, b: Breaker, now: real): (Breaker, bool) {
    match b.state
    case Closed => (b, true)
    case Open => if Recovered(c, b.lastFailure, now) then (b.(state := HalfOpen), true) else (b, false)
    case HalfOpen => (b, true)
  }

  class CircuitBreaker {
    const settings: Settings
    var failures: nat
    var lastFailure: Option<real>
    var state: State

    function Value(): Breaker
      reads this
    {
      Breaker(failures, lastFailure, state)
    }

    constructor (settings: Settings)
      ensures this.settings == settings && Value() == FRESH
    {
      this.settings := settings;
      failures, lastFailure, state := 0, None, Closed;
    }

    method RecordSuccess()
      modifies this
      ensures Value() == Succeed(old(Value()))
    {
      failures := 0;
      state := Closed;
    }

    method RecordFailure(now: real)
      modifies this
      ensures Value() == Fail(settings, old(Value()), now)
    {
      failures := failures + 1;
      lastFailure := Some(now);
      if failures >= settings.threshold {
        state := Open;
      }
    }

    method CanExecute(now: real) returns (allowed: bool)
      modifies this`state
      ensures (Value(), allowed) == Ask(settings, old(Value()), now)
    {
      if state == Closed {
        return true;
      }
      if state == Open {
        if Recovered(settings, lastFailure, now) {
          state := HalfOpen;
          return true;
        }
        return false;
      }
      allowed := true;
    }
  }

  // ----- The breaker as a function of its call history -----

  datatype Call = Success | Failure | Query

  datatype Timed = Timed(call: Call, at: real)

  function After(c: Settings, b: Breaker, e: Timed): Breaker {
    match e.call
    case Success => Succeed(b)
    case Failure => Fail(c, b, e.at)
    case Query => Ask(c, b, e.at).0
  }

  function Run(c: Settings, h: seq<Timed>): Breaker {
    if h == [] then FRESH else After(c, Run(c, h[..|h| - 1]), h[|h| - 1])
  }

  ghost predicate Ordered(h: seq<Timed>) {
    forall i, j :: 0 <= i < j < |h| ==> h[i].at <= h[j].at
  }

  function FailuresSinceSuccess(h: seq<Timed>): nat {
    if h == [] then 0
    else match h[|h| - 1].call
      case Success => 0
      case Failure => FailuresSinceSuccess(h[..|h| - 1]) + 1
      case Query => FailuresSinceSuccess(h[..|h| - 1])
  }

  function LastFailure(h: seq<Timed>): Option<real> {
    if h == [] then None
    else if h[|h| - 1].call.Failure? then Some(h[|h| - 1].at)
    else LastFailure(h[..|h| - 1])
  }

  // Fewer failures than the threshold since the last success, or the timeout has passed since the last failure
  predicate Allowed(c: Settings, h: seq<Timed>, now: real) {
    || FailuresSinceSuccess(h) == 0
    || FailuresSinceSuccess(h) < c.threshold
    || match LastFailure(h)
       case None => false
       case Some(t) => t != 0.0 && t + c.timeout < now
  }

  lemma {:induction false} BreakerTracksHistory(c: Settings, h: seq<Timed>)
    requires Ordered(h)
    ensures var b := Run(c, h);
            && b.failures == FailuresSinceSuccess(h)
            && b.lastFailure == LastFailure(h)
            && (b.state.Closed? <==> b.failures == 0 || b.failures < c.threshold)
            && (b.state.HalfOpen? ==> h != [] && Recovered(c, b.lastFailure, h[|h| - 1].at))
  {
    if h != [] {
      var before := h[..|h| - 1];
      BreakerTracksHistory(c, before);
      if before != [] {
        assert before[|before| - 1].at <= h[|h| - 1].at;
      }
    }
  }

  /** With a clock that never goes back, the answer depends on the history alone; half-open is not observable. */
  lemma AnswerIsHistory(c: Settings, h: seq<Timed>, now: real)
    requires Ordered(h + [Timed(Query, now)])
    ensures Ask(c, Run(c, h), now).1 <==> Allowed(c, h, now)
  {
    forall i, j | 0 <= i < j < |h| ensures h[i].at <= h[j].at {
      assert (h + [Timed(Query, now)])[i] == h[i] && (h + [Timed(Query, now)])[j] == h[j];
    }
    BreakerTracksHistory(c, h);
    if h != [] {
      var all := h + [Timed(Query, now)];
      assert all[|h| - 1].at <= all[|h|].at;
    }
  }
}
