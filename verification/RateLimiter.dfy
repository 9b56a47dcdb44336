/** The fixed-window rate limiter over Redis counters with expiry. */
module RateLimiter {
  import opened Wrappers

  // A counter key; no expiry means that it never goes away
  datatype Counter = Counter(count: int, expires: Option<real>)

  predicate Alive(entry: Option<Counter>, at: real) {
    entry.Some? && (entry.value.expires.None? || at < entry.value.expires.value)
  }

  // One request: the GET happens at `get`, the SETEX or INCR at `put`
  datatype Request = Request(get: real, put: real)

  // INCR keeps a live key's expiry; on a key that has gone in the meantime it creates one without expiry
  function Incremented(entry: Counter, put: real): Counter {
    if Alive(Some(entry), put) then entry.(count := entry.count + 1) else Counter(1, None)
  }

  // The user's key after a request, and the verdict
  function Check(limit: int, window: int, entry: Option<Counter>, q: Request): (Option<Counter>, bool) {
    if !Alive(entry, q.get) then (Some(Counter(1, Some(q.put + window as real))), true)
    else if entry.value.count >= limit then (entry, false)
    else (Some(Incremented(entry.value, q.put)), true)
  }

  function Left(limit: int, entry: Option<Counter>, at: real): int {
    if !Alive(entry, at) then limit
    else if limit - entry.value.count > 0 then limit - entry.value.count else 0
  }

  class RateLimiter {
    const limit: int
    const window: int
    var keys: map<int, Counter>

    constructor (limit: int, window: int)
      ensures this.limit == limit && this.window == window && keys == map[]
    {
      this.limit, this.window, keys := limit, window, map[];
    }

    function Key(user: int): Option<Counter>
      reads this
    {
      if user in keys then Some(keys[user]) else None
    }

    /** The user's own key changes as `Check` says; nobody else's does. */
    method IsAllowed(user: int, q: Request) returns (allowed: bool)
      requires window > 0
      modifies this`keys
      ensures (Key(user), allowed) == Check(limit, window, old(Key(user)), q)
      ensures forall other :: other != user ==> Key(other) == old(Key(other))
    {
      var current := Key(user);
      if !Alive(current, q.get) {
        keys := keys[user := Counter(1, Some(q.put + window as real))];
        return true;
      }
      var count := current.value.count;
      if count >= limit {
        return false;
      }
      keys := keys[user := Incremented(current.value, q.put)];
      allowed := true;
    }

    method Remaining(user: int, at: real) returns (left: int)
      ensures left == Left(limit, Key(user), at)
    {
      var current := Key(user);
      if !Alive(current, at) {
        return limit;
      }
      left := limit - current.value.count;
      if left < 0 {
        left := 0;
      }
    }
  }

  /** The verdict is positive exactly when something remains, in every state, if and only if the limit is at least one. */
  lemma AllowedIffRemaining(limit: int, window: int)
    ensures limit >= 1 <==>
              forall entry, q: Request :: Check(limit, window, entry, q).1 <==> Left(limit, entry, q.get) > 0
  {
    if limit < 1 {
      assert Check(limit, window, None, Request(0.0, 0.0)).1 && Left(limit, None, 0.0) <= 0;
    }
  }

  /** A limit of zero lets the first request through although nothing remains. */
  lemma LimitZeroAllows()
    ensures Check(0, 60, None, Request(0.0, 0.0)).1 && Left(0, None, 0.0) == 0
  {}

  /**
   A refused request leaves the key as it was, expiry included; it is one that finds a live key whose count has reached
   the limit.
   */
  lemma RefusedChangesNothing(limit: int, window: int, entry: Option<Counter>, q: Request)
    ensures !Check(limit, window, entry, q).1 ==> Check(limit, window, entry, q).0 == entry
    ensures !Check(limit, window, entry, q).1 <==> Alive(entry, q.get) && entry.value.count >= limit
  {}

  // ----- What a run of requests is answered, and the key it leaves -----

  function Verdicts(limit: int, window: int, entry: Option<Counter>, qs: seq<Request>): (verdicts: seq<bool>)
    ensures |verdicts| == |qs|
    decreases qs
  {
    if qs == [] then []
    else
      var (entry', allowed) := Check(limit, window, entry, qs[0]);
      [allowed] + Verdicts(limit, window, entry', qs[1..])
  }

  function KeyAfter(limit: int, window: int, entry: Option<Counter>, qs: seq<Request>): Option<Counter>
    decreases qs
  {
    if qs == [] then entry else KeyAfter(limit, window, Check(limit, window, entry, qs[0]).0, qs[1..])
  }

  // A count after `n` more requests
  function Counted(limit: int, count: int, n: nat): int {
    if count >= limit then count else if count + n <= limit then count + n else limit
  }

  ghost predicate WhileAlive(entry: Counter, qs: seq<Request>) {
    forall k :: 0 <= k < |qs| ==> Alive(Some(entry), qs[k].get) && Alive(Some(entry), qs[k].put)
  }

  // A live key allows exactly what its count leaves, and keeps its expiry whatever it refuses
  lemma {:induction false} LiveKeyServes(limit: int, window: int, entry: Counter, qs: seq<Request>)
    requires WhileAlive(entry, qs)
    ensures forall k :: 0 <= k < |qs| ==> (Verdicts(limit, window, Some(entry), qs)[k] <==> entry.count + k < limit)
    ensures KeyAfter(limit, window, Some(entry), qs) == Some(entry.(count := Counted(limit, entry.count, |qs|)))
    decreases qs
  {
    if qs != [] {
      var (next, allowed) := Check(limit, window, Some(entry), qs[0]);
      LiveKeyServes(limit, window, next.value, qs[1..]);
      assert Verdicts(limit, window, Some(entry), qs) == [allowed] + Verdicts(limit, window, next, qs[1..]);
    }
  }

  // The first request finds no live key; the others come before the one it opens expires
  ghost predicate OneWindow(window: int, entry: Option<Counter>, qs: seq<Request>) {
    && qs != [] && !Alive(entry, qs[0].get)
    && forall k :: 1 <= k < |qs| ==> qs[k].get <= qs[k].put < qs[0].put + window as real
  }

  /**
   Of the requests of one window exactly the first `limit` are allowed, and the key still expires one window after it
   was begun.
   */
  lemma WindowServesLimit(limit: int, window: int, entry: Option<Counter>, qs: seq<Request>)
    requires limit >= 1 && OneWindow(window, entry, qs)
    ensures forall k :: 0 <= k < |qs| ==> (Verdicts(limit, window, entry, qs)[k] <==> k < limit)
    ensures KeyAfter(limit, window, entry, qs) ==
              Some(Counter(if |qs| <= limit then |qs| else limit, Some(qs[0].put + window as real)))
  {
    var begun := Counter(1, Some(qs[0].put + window as real));
    LiveKeyServes(limit, window, begun, qs[1..]);
    assert Verdicts(limit, window, entry, qs) == [true] + Verdicts(limit, window, Some(begun), qs[1..]);
  }

  /** Whatever was refused in between, the first request at or after the key's expiry is allowed and opens a new window. */
  lemma NextWindowOpens(limit: int, window: int, entry: Option<Counter>, qs: seq<Request>, q: Request)
    requires limit >= 1 && OneWindow(window, entry, qs) && qs[0].put + window as real <= q.get
    ensures Check(limit, window, KeyAfter(limit, window, entry, qs), q) == (Some(Counter(1, Some(q.put + window as real))), true)
  {
    WindowServesLimit(limit, window, entry, qs);
  }

  /** `remaining` is exact: of any number of requests made at that very moment, exactly the first that many are allowed. */
  lemma RemainingIsExact(limit: int, window: int, entry: Option<Counter>, at: real, qs: seq<Request>)
    requires limit >= 1 && window > 0
    requires forall k :: 0 <= k < |qs| ==> qs[k] == Request(at, at)
    ensures forall k :: 0 <= k < |qs| ==> (Verdicts(limit, window, entry, qs)[k] <==> k < Left(limit, entry, at))
  {
    if Alive(entry, at) {
      LiveKeyServes(limit, window, entry.value, qs);
    } else if qs != [] {
      WindowServesLimit(limit, window, entry, qs);
    }
  }

  // ----- One user's requests, served one at a time -----

  ghost predicate OneAtATime(qs: seq<Request>) {
    && (forall k :: 0 <= k < |qs| ==> qs[k].get <= qs[k].put)
    && (forall j, k :: 0 <= j < k < |qs| ==> qs[j].put <= qs[k].get)
  }

  // Requests allowed with their GET in [from, to)
  function AllowedIn(limit: int, window: int, entry: Option<Counter>, qs: seq<Request>, from: real, to: real): nat
    decreases qs
  {
    if qs == [] then 0
    else
      var (entry', allowed) := Check(limit, window, entry, qs[0]);
      (if allowed && from <= qs[0].get < to then 1 else 0) + AllowedIn(limit, window, entry', qs[1..], from, to)
  }

  predicate Sane(limit: int, entry: Option<Counter>) {
    entry.Some? ==> 1 <= entry.value.count <= limit
  }

  lemma Rest(qs: seq<Request>)
    requires qs != [] && OneAtATime(qs)
    ensures OneAtATime(qs[1..])
    ensures forall k :: 0 <= k < |qs[1..]| ==> qs[0].get <= qs[0].put <= qs[1..][k].get
  {
    assert forall k :: 0 <= k < |qs[1..]| ==> qs[1..][k] == qs[k + 1];
  }

  lemma {:induction false} NothingAfter(limit: int, window: int, entry: Option<Counter>, qs: seq<Request>, from: real, to: real)
    requires forall k :: 0 <= k < |qs| ==> to <= qs[k].get
    ensures AllowedIn(limit, window, entry, qs, from, to) == 0
    decreases qs
  {
    if qs != [] {
      NothingAfter(limit, window, Check(limit, window, entry, qs[0]).0, qs[1..], from, to);
    }
  }

  /** While a key outlives the interval, only what its count leaves of the limit is allowed. */
  lemma {:induction false} OneLifetime(limit: int, window: int, entry: Counter, qs: seq<Request>, from: real, to: real)
    requires limit >= 1 && OneAtATime(qs) && entry.count <= limit
    requires entry.expires.Some? ==> to <= entry.expires.value
    ensures AllowedIn(limit, window, Some(entry), qs, from, to) <= limit - entry.count
    decreases qs
  {
    if qs != [] {
      Rest(qs);
      if qs[0].get >= to {
        NothingAfter(limit, window, Some(entry), qs, from, to);
      } else if entry.count < limit {
        if Alive(Some(entry), qs[0].put) {
          OneLifetime(limit, window, Incremented(entry, qs[0].put), qs[1..], from, to);
        } else {
          NothingAfter(limit, window, Some(Incremented(entry, qs[0].put)), qs[1..], from, to);
        }
      } else {
        OneLifetime(limit, window, entry, qs[1..], from, to);
      }
    }
  }

  // From the interval's start on, one running key and one fresh key can serve it
  lemma {:induction false} TwoLifetimes(limit: int, window: int, entry: Option<Counter>, qs: seq<Request>, from: real)
    requires limit >= 1 && window > 0 && OneAtATime(qs) && Sane(limit, entry)
    requires forall k :: 0 <= k < |qs| ==> from <= qs[k].get
    ensures AllowedIn(limit, window, entry, qs, from, from + window as real) <=
              if entry.Some? then 2 * limit - entry.value.count else limit
    decreases qs
  {
    if qs != [] {
      var q, to := qs[0], from + window as real;
      Rest(qs);
      if !Alive(entry, q.get) {
        OneLifetime(limit, window, Counter(1, Some(q.put + window as real)), qs[1..], from, to);
      } else if entry.value.count < limit {
        if Alive(entry, q.put) {
          TwoLifetimes(limit, window, Some(Incremented(entry.value, q.put)), qs[1..], from);
        } else {
          OneLifetime(limit, window, Counter(1, None), qs[1..], from, to);
        }
      } else {
        TwoLifetimes(limit, window, entry, qs[1..], from);
      }
    }
  }

  /** Any half-open interval of one window's length holds at most 2 * limit - 1 allowed requests, wherever it lies. */
  lemma {:induction false} SlidingWindowBound(limit: int, window: int, entry: Option<Counter>, qs: seq<Request>, from: real)
    requires limit >= 1 && window > 0 && OneAtATime(qs) && Sane(limit, entry)
    ensures AllowedIn(limit, window, entry, qs, from, from + window as real) <= 2 * limit - 1
    decreases qs
  {
    if qs != [] {
      Rest(qs);
      if qs[0].get < from {
        SlidingWindowBound(limit, window, Check(limit, window, entry, qs[0]).0, qs[1..], from);
      } else {
        TwoLifetimes(limit, window, entry, qs, from);
      }
    }
  }

  // ----- The bound is reached -----

  function Repeat(q: Request, n: nat): seq<Request> {
    if n == 0 then [] else [q] + Repeat(q, n - 1)
  }

  // One request opens a key; it is used up halfway through, and a fresh key is used up as soon as it has expired
  function Burst(limit: nat, window: nat): seq<Request>
    requires limit >= 1
  {
    var half, full := window as real / 2.0, window as real;
    [Request(0.0, 0.0)] + (Repeat(Request(half, half), limit - 1) + Repeat(Request(full, full), limit))
  }

  lemma {:induction false} RepeatInstant(q: Request, n: nat)
    ensures |Repeat(q, n)| == n && forall k :: 0 <= k < n ==> Repeat(q, n)[k] == q
  {
    if n > 0 {
      RepeatInstant(q, n - 1);
    }
  }

  lemma {:induction false} RepeatAllowed(limit: int, window: int, entry: Counter, at: real, n: nat,
                                         later: seq<Request>, from: real, to: real)
    requires entry.count + n <= limit && from <= at < to && Alive(Some(entry), at)
    ensures AllowedIn(limit, window, Some(entry), Repeat(Request(at, at), n) + later, from, to)
         == n + AllowedIn(limit, window, Some(entry.(count := entry.count + n)), later, from, to)
    decreases n
  {
    if n == 0 {
      assert Repeat(Request(at, at), 0) + later == later;
    } else {
      var all := Repeat(Request(at, at), n) + later;
      assert all[0] == Request(at, at) && all[1..] == Repeat(Request(at, at), n - 1) + later;
      RepeatAllowed(limit, window, entry.(count := entry.count + 1), at, n - 1, later, from, to);
    }
  }

  lemma BurstIsOneAtATime(limit: nat, window: nat)
    requires limit >= 1 && window > 0
    ensures OneAtATime(Burst(limit, window))
  {
    var half, full := window as real / 2.0, window as real;
    RepeatInstant(Request(half, half), limit - 1);
    RepeatInstant(Request(full, full), limit);
  }

  lemma FirstBurst(limit: nat, window: nat, later: seq<Request>)
    requires limit >= 1 && window > 0
    ensures var half, full := window as real / 2.0, window as real;
            AllowedIn(limit, window, Some(Counter(1, Some(full))), Repeat(Request(half, half), limit - 1) + later, half, half + full)
              == limit - 1 + AllowedIn(limit, window, Some(Counter(limit, Some(full))), later, half, half + full)
  {
    var half, full := window as real / 2.0, window as real;
    RepeatAllowed(limit, window, Counter(1, Some(full)), half, limit - 1, later, half, half + full);
  }

  // The used-up key expires at the very instant of the second burst
  lemma SecondBurst(limit: nat, window: nat)
    requires limit >= 1 && window > 0
    ensures var half, full := window as real / 2.0, window as real;
            AllowedIn(limit, window, Some(Counter(limit, Some(full))), Repeat(Request(full, full), limit), half, half + full) == limit
  {
    var half, full := window as real / 2.0, window as real;
    var rest := Repeat(Request(full, full), limit - 1);
    assert Repeat(Request(full, full), limit)[1..] == rest && rest + [] == rest;
    RepeatAllowed(limit, window, Counter(1, Some(full + full)), full, limit - 1, [], half, half + full);
  }

  /** For every limit and window some run of requests reaches the bound exactly. */
  lemma BoundIsReached(limit: nat, window: nat)
    requires limit >= 1 && window > 0
    ensures var from := window as real / 2.0;
            && OneAtATime(Burst(limit, window))
            && AllowedIn(limit, window, None, Burst(limit, window), from, from + window as real) == 2 * limit - 1
  {
    var half, full := window as real / 2.0, window as real;
    var second := Repeat(Request(full, full), limit);
    BurstIsOneAtATime(limit, window);
    FirstBurst(limit, window, second);
    SecondBurst(limit, window);
    assert Burst(limit, window)[1..] == Repeat(Request(half, half), limit - 1) + second;
  }

  // ----- Keys without expiry -----

  /** A request leaves a key without expiry exactly when it found one, or when the key it read expired before its INCR. */
  lemma KeyLosesExpiryIff(limit: int, window: int, entry: Option<Counter>, q: Request)
    ensures var entry' := Check(limit, window, entry, q).0;
            (entry'.Some? && entry'.value.expires.None?) <==>
            Alive(entry, q.get) &&
              (entry.value.expires.None? || (entry.value.count < limit && entry.value.expires.value <= q.put))
  {}

  /** From then on the user gets at most what the count leaves, for ever. */
  lemma {:induction false} NeverExpires(limit: int, window: int, entry: Counter, qs: seq<Request>, from: real, to: real)
    requires limit >= 1 && OneAtATime(qs) && entry.expires.None? && entry.count <= limit
    ensures AllowedIn(limit, window, Some(entry), qs, from, to) <= limit - entry.count
  {
    OneLifetime(limit, window, entry, qs, from, to);
  }

  // At the default limit and window, the second request reads a key that has expired by the time of its INCR
  const LATE := [Request(0.0, 0.0), Request(59.0, 61.0)]

  /**
   After these two requests the key never goes away: the user is allowed six requests in all, however long the run and
   the interval.
   */
  lemma LateIncrementStarves(later: seq<Request>, from: real, to: real)
    requires OneAtATime(LATE + later)
    ensures Check(5, 60, Check(5, 60, None, LATE[0]).0, LATE[1]) == (Some(Counter(1, None)), true)
    ensures AllowedIn(5, 60, None, LATE + later, from, to) <= 6
  {
    var all := LATE + later;
    assert all[1..][1..] == later;
    Rest(all);
    Rest(all[1..]);
    NeverExpires(5, 60, Counter(1, None), later, from, to);
    assert AllowedIn(5, 60, None, all, from, to) <= 1 + AllowedIn(5, 60, Some(Counter(1, Some(60.0))), all[1..], from, to);
    assert AllowedIn(5, 60, Some(Counter(1, Some(60.0))), all[1..], from, to) <= 1 + AllowedIn(5, 60, Some(Counter(1, None)), later, from, to);
  }
}
