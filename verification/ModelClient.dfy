/** The retry loop of `embed` and `generate` around the circuit breaker, and its behaviour in an outage. */
module ModelClient {
  import opened Wrappers
  import opened CB = CircuitBreaker

  // What one HTTP post meets: an answer, a timeout or failed connection, or any other error
  datatype Reply = Answer | Timeout | OtherError

  // One call: when the breaker is asked, whether a token is had, what the posts meet, when the outcome is recorded
  datatype Request = Request(start: real, token: bool, replies: seq<Reply>, end: real)

  datatype Outcome = Refused | NoToken | Answered | Failed

  const ATTEMPTS := 3

  // Seconds slept after a timed-out attempt
  function Backoff(attempt: nat): real {
    if attempt <= 1 then 0.5 else 2.0 * Backoff(attempt - 1)
  }

  // Outcome of attempts `attempt`, `attempt + 1`, ..., the posts they make and the seconds they sleep
  function Attempts(replies: seq<Reply>, attempt: nat): (Outcome, nat, real)
    requires 1 <= attempt && |replies| == ATTEMPTS
    decreases ATTEMPTS + 1 - attempt
  {
    if attempt > ATTEMPTS then (Failed, 0, 0.0)
    else match replies[attempt - 1]
      case Answer => (Answered, 1, 0.0)
      case OtherError => (Failed, 1, 0.0)
      case Timeout =>
        var (outcome, posts, slept) := Attempts(replies, attempt + 1);
        (outcome, posts + 1, slept + Backoff(attempt))
  }

  function Handle(c: Settings, b: Breaker, q: Request): (Breaker, Outcome, nat)
    requires |q.replies| == ATTEMPTS
  {
    var (b', allowed) := Ask(c, b, q.start);
    if !allowed then (b', Refused, 0)
    else if !q.token then (b', NoToken, 0)
    else
      var (outcome, posts, _) := Attempts(q.replies, 1);
      (if outcome.Answered? then Succeed(b') else Fail(c, b', q.end), outcome, posts)
  }

  /**
   The first reply that is not a timeout decides; three timeouts fail after three posts and three and a half seconds of
   sleep.
   */
  lemma FirstReplyDecides(replies: seq<Reply>, k: nat)
    requires |replies| == ATTEMPTS && k <= ATTEMPTS
    requires forall j :: 0 <= j < k ==> replies[j].Timeout?
    requires k < ATTEMPTS ==> !replies[k].Timeout?
    ensures Attempts(replies, 1) ==
              (if k < ATTEMPTS && replies[k].Answer? then Answered else Failed,
               if k < ATTEMPTS then k + 1 else ATTEMPTS,
               [0.0, 0.5, 1.5, 3.5][k])
  {
    assert Backoff(1) == 0.5 && Backoff(2) == 1.0 && Backoff(3) == 2.0;
    assert Attempts(replies, 4) == (Failed, 0, 0.0);
    if k == 3 {
      assert Attempts(replies, 3) == (Failed, 1, 2.0);
      assert Attempts(replies, 2) == (Failed, 2, 3.0);
    } else if k == 2 {
      assert Attempts(replies, 2).1 == 2 && Attempts(replies, 2).2 == 1.0;
    }
  }

  /** `embed` and `generate`: the same loop over the same breaker. */
  method Call(circuit: CircuitBreaker, q: Request) returns (outcome: Outcome, posts: nat)
    requires |q.replies| == ATTEMPTS
    modifies circuit
    ensures (circuit.Value(), outcome, posts) == Handle(circuit.settings, old(circuit.Value()), q)
  {
    var allowed := circuit.CanExecute(q.start);
    if !allowed {
      return Refused, 0;
    }
    if !q.token {
      return NoToken, 0;
    }
    posts := 0;
    var attempt := 1;
    while attempt <= ATTEMPTS
      invariant 1 <= attempt <= ATTEMPTS + 1
      invariant Attempts(q.replies, 1).0 == Attempts(q.replies, attempt).0
      invariant Attempts(q.replies, 1).1 == posts + Attempts(q.replies, attempt).1
      invariant circuit.Value() == Ask(circuit.settings, old(circuit.Value()), q.start).0
    {
      posts := posts + 1;
      match q.replies[attempt - 1] {
        case Answer =>
          circuit.RecordSuccess();
          return Answered, posts;
        case OtherError =>
          circuit.RecordFailure(q.end);
          return Failed, posts;
        case Timeout =>
          attempt := attempt + 1;
      }
    }
    circuit.RecordFailure(q.end);
    outcome := Failed;
  }

  // ----- Calls made one after another -----

  // Clock positive, each call ends after it starts and sleeps, the next starts after it ends
  ghost predicate OneAfterAnother(qs: seq<Request>) {
    && (forall k :: 0 <= k < |qs| ==>
          && |qs[k].replies| == ATTEMPTS
          && 0.0 < qs[k].start
          && qs[k].start + Attempts(qs[k].replies, 1).2 <= qs[k].end)
    && (forall j, k :: 0 <= j < k < |qs| ==> qs[j].end <= qs[k].start)
  }

  ghost predicate Outage(qs: seq<Request>) {
    forall k, a :: 0 <= k < |qs| && 0 <= a < |qs[k].replies| ==> !qs[k].replies[a].Answer?
  }

  predicate ThreeReplies(qs: seq<Request>) {
    forall k :: 0 <= k < |qs| ==> |qs[k].replies| == ATTEMPTS
  }

  function Serve(c: Settings, qs: seq<Request>): Breaker
    requires ThreeReplies(qs)
  {
    if qs == [] then FRESH else Handle(c, Serve(c, qs[..|qs| - 1]), qs[|qs| - 1]).0
  }

  function LastOutcome(c: Settings, qs: seq<Request>): (Breaker, Outcome, nat)
    requires ThreeReplies(qs) && qs != []
  {
    Handle(c, Serve(c, qs[..|qs| - 1]), qs[|qs| - 1])
  }

  // Failing calls that reached the network
  function Reached(c: Settings, qs: seq<Request>): nat
    requires ThreeReplies(qs)
  {
    if qs == [] then 0 else Reached(c, qs[..|qs| - 1]) + if LastOutcome(c, qs).1.Failed? then 1 else 0
  }

  // Those of them that started by `deadline`, and the posts they made
  function ReachedBy(c: Settings, qs: seq<Request>, deadline: real): nat
    requires ThreeReplies(qs)
  {
    if qs == [] then 0
    else
      ReachedBy(c, qs[..|qs| - 1], deadline) +
      if LastOutcome(c, qs).1.Failed? && qs[|qs| - 1].start <= deadline then 1 else 0
  }

  function PostsBy(c: Settings, qs: seq<Request>, deadline: real): nat
    requires ThreeReplies(qs)
  {
    if qs == [] then 0
    else
      PostsBy(c, qs[..|qs| - 1], deadline) +
      if LastOutcome(c, qs).1.Failed? && qs[|qs| - 1].start <= deadline then LastOutcome(c, qs).2 else 0
  }

  // When the first failure was recorded
  function FirstFailure(c: Settings, qs: seq<Request>): Option<real>
    requires ThreeReplies(qs)
  {
    if qs == [] then None
    else match FirstFailure(c, qs[..|qs| - 1])
      case Some(t) => Some(t)
      case None => if LastOutcome(c, qs).1.Failed? then Some(qs[|qs| - 1].end) else None
  }

  // A threshold below one opens the breaker as early as one does
  function Threshold(c: Settings): nat {
    if c.threshold < 1 then 1 else c.threshold
  }

  // Failures beyond the threshold
  function Extra(c: Settings, n: nat): nat {
    if n <= Threshold(c) then 0 else n - Threshold(c)
  }

  lemma {:induction false} NoAnswerFails(replies: seq<Reply>, attempt: nat)
    requires 1 <= attempt <= ATTEMPTS + 1 && |replies| == ATTEMPTS
    requires forall a :: 0 <= a < |replies| ==> !replies[a].Answer?
    ensures var (outcome, posts, slept) := Attempts(replies, attempt);
            outcome == Failed && posts <= ATTEMPTS + 1 - attempt && slept >= 0.0
    decreases ATTEMPTS + 1 - attempt
  {
    if attempt <= ATTEMPTS && replies[attempt - 1].Timeout? {
      NoAnswerFails(replies, attempt + 1);
      BackoffPositive(attempt);
    }
  }

  lemma {:induction false} BackoffPositive(attempt: nat)
    ensures Backoff(attempt) > 0.0
  {
    if attempt > 1 {
      BackoffPositive(attempt - 1);
    }
  }

  lemma Shorter(qs: seq<Request>)
    requires qs != [] && OneAfterAnother(qs) && Outage(qs)
    ensures var before := qs[..|qs| - 1]; OneAfterAnother(before) && Outage(before) && ThreeReplies(before)
  {
    var before := qs[..|qs| - 1];
    assert forall k :: 0 <= k < |before| ==> before[k] == qs[k];
  }

  // Least time from the first failure to the `n`-th
  function Delay(c: Settings, n: nat): real {
    Extra(c, n) as real * c.timeout
  }

  lemma DelayStep(c: Settings, n: nat)
    ensures Delay(c, n + 1) == if n >= Threshold(c) then Delay(c, n) + c.timeout else 0.0
  {
    if n >= Threshold(c) {
      assert (Extra(c, n) + 1) as real * c.timeout == Extra(c, n) as real * c.timeout + c.timeout;
    }
  }

  // After `n` failures, the first at `first`, every one beyond the threshold more than one timeout after the one before
  ghost predicate Spaced(c: Settings, b: Breaker, n: nat, first: Option<real>, now: real) {
    && b.failures == n
    && (b.state.Closed? <==> n < Threshold(c))
    && (n == 0 <==> first.None?)
    && (n > 0 ==> b.lastFailure.Some? && 0.0 < b.lastFailure.value <= now && first.value + Delay(c, n) <= b.lastFailure.value)
    && (b.state.HalfOpen? ==> Recovered(c, b.lastFailure, now))
  }

  lemma SpacedStep(c: Settings, b: Breaker, n: nat, first: Option<real>, now: real, q: Request)
    requires Spaced(c, b, n, first, now) && c.timeout > 0.0
    requires |q.replies| == ATTEMPTS && now <= q.start && 0.0 < q.start <= q.end
    requires Attempts(q.replies, 1).0.Failed?
    ensures var (b', outcome, _) := Handle(c, b, q);
            if outcome.Failed? then
              var first' := if first.Some? then first else Some(q.end);
              && Spaced(c, b', n + 1, first', q.end)
              && (Extra(c, n + 1) > 0 ==> first'.value + Delay(c, n + 1) < q.start)
            else !outcome.Answered? && Spaced(c, b', n, first, q.end)
  {
    DelayStep(c, n);
  }

  lemma {:induction false} FailuresAreSpaced(c: Settings, qs: seq<Request>)
    requires OneAfterAnother(qs) && Outage(qs) && ThreeReplies(qs) && c.timeout > 0.0
    ensures Spaced(c, Serve(c, qs), Reached(c, qs), FirstFailure(c, qs), if qs == [] then 0.0 else qs[|qs| - 1].end)
    ensures qs != [] && LastOutcome(c, qs).1.Failed? && Extra(c, Reached(c, qs)) > 0 ==>
              FirstFailure(c, qs).value + Delay(c, Reached(c, qs)) < qs[|qs| - 1].start
  {
    if qs != [] {
      var before, q := qs[..|qs| - 1], qs[|qs| - 1];
      Shorter(qs);
      FailuresAreSpaced(c, before);
      NoAnswerFails(q.replies, 1);
      var now := if before == [] then 0.0 else before[|before| - 1].end;
      assert before != [] ==> before[|before| - 1] == qs[|qs| - 2] && qs[|qs| - 2].end <= q.start;
      SpacedStep(c, Serve(c, before), Reached(c, before), FirstFailure(c, before), now, q);
    }
  }

  lemma ProductPositive(x: real, y: real)
    requires x > 0.0 && y > 0.0
    ensures x * y > 0.0
  {}

  lemma FloorBound(n: nat, r: real, t: real)
    requires r > 0.0 && n as real * r < t
    ensures n <= (t / r).Floor
  {
    var x := t / r;
    assert x * r == t;
    if n as real > x {
      ProductPositive(n as real - x, r);
      assert false;
    }
  }

  lemma FloorNonNegative(t: real, r: real)
    requires t >= 0.0 && r > 0.0
    ensures (t / r).Floor >= 0
  {
    if t > 0.0 { FloorBound(0, r, t); }
  }

  lemma {:induction false} AllByDeadline(c: Settings, qs: seq<Request>, deadline: real)
    requires ThreeReplies(qs) && forall k :: 0 <= k < |qs| ==> qs[k].start <= deadline
    ensures ReachedBy(c, qs, deadline) == Reached(c, qs)
  {
    if qs != [] {
      AllByDeadline(c, qs[..|qs| - 1], deadline);
    }
  }

  lemma {:induction false} LateCallsAreSpaced(c: Settings, qs: seq<Request>, deadline: real)
    requires OneAfterAnother(qs) && Outage(qs) && ThreeReplies(qs) && c.timeout > 0.0
    ensures var n := ReachedBy(c, qs, deadline);
            Extra(c, n) > 0 ==> FirstFailure(c, qs).Some? && FirstFailure(c, qs).value + Delay(c, n) < deadline
  {
    if qs != [] {
      var q := qs[|qs| - 1];
      Shorter(qs);
      if LastOutcome(c, qs).1.Failed? && q.start <= deadline {
        FailuresAreSpaced(c, qs);
        forall k | 0 <= k < |qs| ensures qs[k].start <= deadline {
          if k < |qs| - 1 {
            StartBeforeEnd(qs, k);
          }
        }
        AllByDeadline(c, qs, deadline);
      } else {
        LateCallsAreSpaced(c, qs[..|qs| - 1], deadline);
      }
    }
  }

  lemma StartBeforeEnd(qs: seq<Request>, k: nat)
    requires OneAfterAnother(qs) && Outage(qs) && k < |qs| - 1
    ensures qs[k].start <= qs[|qs| - 1].start
  {
    NoAnswerFails(qs[k].replies, 1);
    assert qs[k].end <= qs[|qs| - 1].start;
  }

  /**
   In a total outage, the failing calls that reach the network within `t` seconds of the first recorded failure
   number at most the threshold plus one per elapsed timeout.
   */
  lemma OutageCallsBounded(c: Settings, qs: seq<Request>, t: real)
    requires OneAfterAnother(qs) && Outage(qs) && ThreeReplies(qs) && c.timeout > 0.0 && t >= 0.0
    requires FirstFailure(c, qs).Some?
    ensures ReachedBy(c, qs, FirstFailure(c, qs).value + t) <= Threshold(c) + (t / c.timeout).Floor
  {
    var deadline := FirstFailure(c, qs).value + t;
    var n := ReachedBy(c, qs, deadline);
    LateCallsAreSpaced(c, qs, deadline);
    FloorNonNegative(t, c.timeout);
    if Extra(c, n) > 0 {
      FloorBound(Extra(c, n), c.timeout, t);
    }
  }

  /** Hence the HTTP posts number at most three times as many. */
  lemma OutagePostsBounded(c: Settings, qs: seq<Request>, t: real)
    requires OneAfterAnother(qs) && Outage(qs) && ThreeReplies(qs) && c.timeout > 0.0 && t >= 0.0
    requires FirstFailure(c, qs).Some?
    ensures PostsBy(c, qs, FirstFailure(c, qs).value + t) <= 3 * (Threshold(c) + (t / c.timeout).Floor)
  {
    OutageCallsBounded(c, qs, t);
    PostsPerCall(c, qs, FirstFailure(c, qs).value + t);
  }

  lemma {:induction false} PostsPerCall(c: Settings, qs: seq<Request>, deadline: real)
    requires OneAfterAnother(qs) && Outage(qs) && ThreeReplies(qs)
    ensures PostsBy(c, qs, deadline) <= 3 * ReachedBy(c, qs, deadline)
  {
    if qs != [] {
      Shorter(qs);
      PostsPerCall(c, qs[..|qs| - 1], deadline);
      NoAnswerFails(qs[|qs| - 1].replies, 1);
    }
  }

  // ----- Any run of calls, answered ones included, as a history of the breaker -----

  // The first reply that is not a timeout is an answer
  ghost predicate Answers(replies: seq<Reply>) {
    exists k :: 0 <= k < |replies| && replies[k].Answer? && forall j :: 0 <= j < k ==> replies[j].Timeout?
  }

  // Each call ends no earlier than it starts, and the next starts no earlier than that
  ghost predicate InTurn(qs: seq<Request>) {
    && (forall k :: 0 <= k < |qs| ==> qs[k].start <= qs[k].end)
    && (forall j, k :: 0 <= j < k < |qs| ==> qs[j].end <= qs[k].start)
  }

  // What one call adds to a history: its question, and if that is allowed and a token is had, one outcome at its end
  ghost function Adds(c: Settings, h: seq<Timed>, q: Request): seq<Timed> {
    [Timed(Query, q.start)] +
    if !Allowed(c, h, q.start) || !q.token then []
    else [Timed(if Answers(q.replies) then Success else Failure, q.end)]
  }

  ghost function Log(c: Settings, qs: seq<Request>): seq<Timed> {
    if qs == [] then []
    else Log(c, qs[..|qs| - 1]) + Adds(c, Log(c, qs[..|qs| - 1]), qs[|qs| - 1])
  }

  // How a call ends, read from the history before it
  ghost predicate EndsAs(c: Settings, h: seq<Timed>, q: Request, outcome: Outcome) {
    outcome ==
      if !Allowed(c, h, q.start) then Refused
      else if !q.token then NoToken
      else if Answers(q.replies) then Answered
      else Failed
  }

  lemma {:induction false} AttemptsAnswer(replies: seq<Reply>, attempt: nat)
    requires 1 <= attempt <= ATTEMPTS + 1 && |replies| == ATTEMPTS
    requires forall j :: 0 <= j < attempt - 1 ==> replies[j].Timeout?
    ensures Attempts(replies, attempt).0 == if Answers(replies) then Answered else Failed
    decreases ATTEMPTS + 1 - attempt
  {
    if attempt <= ATTEMPTS && replies[attempt - 1].Timeout? {
      AttemptsAnswer(replies, attempt + 1);
    }
  }

  lemma {:induction false} LogIsOrdered(c: Settings, qs: seq<Request>)
    requires InTurn(qs)
    ensures Ordered(Log(c, qs))
    ensures forall k :: 0 <= k < |Log(c, qs)| ==> qs != [] && Log(c, qs)[k].at <= qs[|qs| - 1].end
  {
    if qs != [] {
      var before, q := qs[..|qs| - 1], qs[|qs| - 1];
      LogIsOrdered(c, before);
      assert before != [] ==> before[|before| - 1] == qs[|qs| - 2] && qs[|qs| - 2].end <= q.start;
    }
  }

  lemma LogThenQuery(c: Settings, qs: seq<Request>)
    requires qs != [] && InTurn(qs)
    ensures InTurn(qs[..|qs| - 1])
    ensures Ordered(Log(c, qs[..|qs| - 1]) + [Timed(Query, qs[|qs| - 1].start)])
  {
    var before, q := qs[..|qs| - 1], qs[|qs| - 1];
    assert forall k :: 0 <= k < |before| ==> before[k] == qs[k];
    LogIsOrdered(c, before);
    assert before != [] ==> before[|before| - 1] == qs[|qs| - 2] && qs[|qs| - 2].end <= q.start;
  }

  // One call moves the breaker as what it adds to the history does
  lemma HandleIsRun(c: Settings, h: seq<Timed>, q: Request)
    requires Ordered(h + [Timed(Query, q.start)]) && |q.replies| == ATTEMPTS
    ensures var (b, outcome, _) := Handle(c, CB.Run(c, h), q);
            b == CB.Run(c, h + Adds(c, h, q)) && EndsAs(c, h, q, outcome)
  {
    AnswerIsHistory(c, h, q.start);
    AttemptsAnswer(q.replies, 1);
    var asked := h + [Timed(Query, q.start)];
    assert asked[..|asked| - 1] == h;
    assert CB.Run(c, asked) == Ask(c, CB.Run(c, h), q.start).0;
    if Allowed(c, h, q.start) && q.token {
      var all := asked + [Timed(if Answers(q.replies) then Success else Failure, q.end)];
      assert all[..|all| - 1] == asked;
      assert h + Adds(c, h, q) == all;
    } else {
      assert h + Adds(c, h, q) == asked;
    }
  }

  /**
   Whatever the calls meet, the breaker they leave is that of their history: a question per call, a success per
   answered one, a failure per failed one.
   */
  lemma {:induction false} ServeIsHistory(c: Settings, qs: seq<Request>)
    requires InTurn(qs) && ThreeReplies(qs)
    ensures Serve(c, qs) == CB.Run(c, Log(c, qs))
    ensures qs != [] ==> EndsAs(c, Log(c, qs[..|qs| - 1]), qs[|qs| - 1], LastOutcome(c, qs).1)
  {
    if qs != [] {
      var before, q := qs[..|qs| - 1], qs[|qs| - 1];
      LogThenQuery(c, qs);
      ServeIsHistory(c, before);
      HandleIsRun(c, Log(c, before), q);
    }
  }

  // Failed calls since the last answered one, and when the last of all failed calls ended
  function FailedSinceAnswer(c: Settings, qs: seq<Request>): nat
    requires ThreeReplies(qs)
  {
    if qs == [] then 0
    else match LastOutcome(c, qs).1
      case Answered => 0
      case Failed => FailedSinceAnswer(c, qs[..|qs| - 1]) + 1
      case Refused => FailedSinceAnswer(c, qs[..|qs| - 1])
      case NoToken => FailedSinceAnswer(c, qs[..|qs| - 1])
  }

  function LastFailed(c: Settings, qs: seq<Request>): Option<real>
    requires ThreeReplies(qs)
  {
    if qs == [] then None
    else if LastOutcome(c, qs).1.Failed? then Some(qs[|qs| - 1].end)
    else LastFailed(c, qs[..|qs| - 1])
  }

  lemma AddsToCounts(c: Settings, h: seq<Timed>, q: Request)
    ensures var h' := h + Adds(c, h, q);
            if !Allowed(c, h, q.start) || !q.token then
              FailuresSinceSuccess(h') == FailuresSinceSuccess(h) && LastFailure(h') == LastFailure(h)
            else if Answers(q.replies) then
              FailuresSinceSuccess(h') == 0 && LastFailure(h') == LastFailure(h)
            else
              FailuresSinceSuccess(h') == FailuresSinceSuccess(h) + 1 && LastFailure(h') == Some(q.end)
  {
    var asked := h + [Timed(Query, q.start)];
    assert asked[..|asked| - 1] == h;
    if Allowed(c, h, q.start) && q.token {
      var all := asked + [Timed(if Answers(q.replies) then Success else Failure, q.end)];
      assert all[..|all| - 1] == asked;
      assert h + Adds(c, h, q) == all;
    } else {
      assert h + Adds(c, h, q) == asked;
    }
  }

  lemma {:induction false} LogCounts(c: Settings, qs: seq<Request>)
    requires InTurn(qs) && ThreeReplies(qs)
    ensures FailuresSinceSuccess(Log(c, qs)) == FailedSinceAnswer(c, qs)
    ensures LastFailure(Log(c, qs)) == LastFailed(c, qs)
  {
    if qs != [] {
      LogCounts(c, qs[..|qs| - 1]);
      ServeIsHistory(c, qs);
      AddsToCounts(c, Log(c, qs[..|qs| - 1]), qs[|qs| - 1]);
    }
  }

  // More than `timeout` has passed since `last`; a time of zero counts as none
  predicate RestedFor(timeout: real, last: Option<real>, now: real) {
    match last
    case None => false
    case Some(t) => t != 0.0 && t + timeout < now
  }

  /**
   In any run a call is refused exactly when as many calls as the threshold, and at least one, have failed since the last
   answered one, and no more than the timeout has passed since the last of them; otherwise its replies decide.
   */
  lemma CallEndsAs(c: Settings, qs: seq<Request>)
    requires qs != [] && InTurn(qs) && ThreeReplies(qs)
    ensures var before, q, outcome := qs[..|qs| - 1], qs[|qs| - 1], LastOutcome(c, qs).1;
            && (outcome.Refused? <==>
                  && FailedSinceAnswer(c, before) >= Threshold(c)
                  && !RestedFor(c.timeout, LastFailed(c, before), q.start))
            && (!outcome.Refused? ==> outcome == if !q.token then NoToken else if Answers(q.replies) then Answered else Failed)
            && LastOutcome(c, qs).2 == if outcome.Refused? || outcome.NoToken? then 0 else Attempts(q.replies, 1).1
  {
    ServeIsHistory(c, qs);
    LogCounts(c, qs[..|qs| - 1]);
  }

  /**
   An answered call leaves the breaker closed and without failures; a failed one adds a failure at its end, and the
   others none.
   */
  lemma CallLeaves(c: Settings, qs: seq<Request>)
    requires qs != [] && InTurn(qs) && ThreeReplies(qs)
    ensures var b, b', outcome := Serve(c, qs[..|qs| - 1]), Serve(c, qs), LastOutcome(c, qs).1;
            && (outcome.Answered? ==> b'.failures == 0 && b'.state.Closed?)
            && (outcome.Failed? ==> b'.failures == b.failures + 1 && b'.lastFailure == Some(qs[|qs| - 1].end))
            && (outcome.Refused? || outcome.NoToken? ==> b'.failures == b.failures && b'.lastFailure == b.lastFailure)
  {
    var before := qs[..|qs| - 1];
    ServeIsHistory(c, qs);
    ServeIsHistory(c, before);
    LogIsOrdered(c, qs);
    LogIsOrdered(c, before);
    AddsToCounts(c, Log(c, before), qs[|qs| - 1]);
    BreakerTracksHistory(c, Log(c, qs));
    BreakerTracksHistory(c, Log(c, before));
  }
}
