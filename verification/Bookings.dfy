/** Table reservations: the overlap check and the insert. */
module Bookings {
  import opened Wrappers

  // The columns of a reservation that nothing but its guest fills
  datatype Guest = Guest(user: Option<int>, name: Option<string>, phone: Option<string>, count: Option<int>)

  // A reservation occupies the half-open interval [start, end)
  datatype Reservation = Reservation(table: int, start: real, end: real, guest: Guest, status: string)

  // Body fields may be missing
  datatype BookingRequest = BookingRequest(table: Option<int>, start: Option<real>, end: Option<real>, guest: Guest)

  datatype BookingError = AlreadyReserved | Rejected

  predicate Active(r: Reservation) {
    r.status == "pending" || r.status == "confirmed"
  }

  // A comparison with NULL selects nothing
  predicate Comparable(q: BookingRequest) {
    q.table.Some? && q.start.Some? && q.end.Some?
  }

  // The WHERE clause of the check
  predicate Overlaps(r: Reservation, q: BookingRequest) {
    Comparable(q) && r.table == q.table.value && Active(r) && r.start < q.end.value && r.end > q.start.value
  }

  predicate Conflict(rows: seq<Reservation>, q: BookingRequest) {
    exists k :: 0 <= k < |rows| && Overlaps(rows[k], q)
  }

  // The guest columns are NOT NULL, name and phone at most 255 and 20 characters long
  predicate Complete(g: Guest) {
    g.user.Some? && g.count.Some? && g.name.Some? && |g.name.value| <= 255 && g.phone.Some? && |g.phone.value| <= 20
  }

  // What the INSERT demands: no column NULL, and a table that exists
  predicate Insertable(tables: set<int>, q: BookingRequest) {
    Comparable(q) && q.table.value in tables && Complete(q.guest)
  }

  function RowOf(q: BookingRequest): Reservation
    requires Comparable(q)
  {
    Reservation(q.table.value, q.start.value, q.end.value, q.guest, "confirmed")
  }

  function Book(tables: set<int>, rows: seq<Reservation>, q: BookingRequest): (seq<Reservation>, Result<nat, BookingError>) {
    if Conflict(rows, q) then (rows, Err(AlreadyReserved))
    else if !Insertable(tables, q) then (rows, Err(Rejected))
    else (rows + [RowOf(q)], Ok(|rows|))
  }

  class ReservationBook {
    const tables: set<int>
    var rows: seq<Reservation>

    constructor (tables: set<int>)
      ensures this.tables == tables && rows == []
    {
      this.tables, rows := tables, [];
    }

    method CreateReservation(q: BookingRequest) returns (r: Result<nat, BookingError>)
      modifies this`rows
      ensures (rows, r) == Book(tables, old(rows), q)
    {
      var k := 0;
      while k < |rows|
        invariant 0 <= k <= |rows|
        invariant forall j :: 0 <= j < k ==> !Overlaps(rows[j], q)
      {
        if Overlaps(rows[k], q) {
          return Err(AlreadyReserved);
        }
        k := k + 1;
      }
      if !Insertable(tables, q) {
        return Err(Rejected);
      }
      rows := rows + [RowOf(q)];
      r := Ok(|rows| - 1);
    }
  }

  function BookAll(tables: set<int>, rows: seq<Reservation>, qs: seq<BookingRequest>): seq<Reservation> {
    if qs == [] then rows else Book(tables, BookAll(tables, rows, qs[..|qs| - 1]), qs[|qs| - 1]).0
  }

  // ----- Intervals as sets of instants -----

  predicate Covers(r: Reservation, t: real) {
    r.start <= t < r.end
  }

  ghost predicate Meet(r: Reservation, start: real, end: real) {
    exists t :: Covers(r, t) && start <= t < end
  }

  // The request's interval shares an instant with an active reservation of its table
  ghost predicate MeetsActive(rows: seq<Reservation>, q: BookingRequest) {
    && Comparable(q)
    && exists k :: 0 <= k < |rows| && rows[k].table == q.table.value && Active(rows[k])
                   && Meet(rows[k], q.start.value, q.end.value)
  }

  // The answer one would expect: refused as taken exactly when the interval is taken
  ghost predicate Right(tables: set<int>, rows: seq<Reservation>, q: BookingRequest) {
    Book(tables, rows, q).1 == Err(AlreadyReserved) <==> MeetsActive(rows, q)
  }

  predicate ProperRow(r: Reservation) {
    r.start < r.end
  }

  predicate ProperRequest(q: BookingRequest) {
    Comparable(q) ==> q.start.value < q.end.value
  }

  ghost predicate Proper(rows: seq<Reservation>) {
    forall k :: 0 <= k < |rows| ==> ProperRow(rows[k])
  }

  /** A request's interval meets a row's exactly when the check's comparisons hold and both are proper intervals. */
  lemma MeetIsOverlap(r: Reservation, start: real, end: real)
    ensures Meet(r, start, end) <==> r.start < end && r.end > start && r.start < r.end && start < end
  {
    if r.start < end && r.end > start && r.start < r.end && start < end {
      assert Covers(r, if r.start < start then start else r.start);
    }
  }

  lemma MeetsActiveIff(rows: seq<Reservation>, q: BookingRequest)
    ensures MeetsActive(rows, q) <==> ProperRequest(q) && exists k :: 0 <= k < |rows| && Overlaps(rows[k], q) && ProperRow(rows[k])
  {
    if Comparable(q) {
      forall k | 0 <= k < |rows|
        ensures rows[k].table == q.table.value && Active(rows[k]) && Meet(rows[k], q.start.value, q.end.value) <==>
                  Overlaps(rows[k], q) && ProperRow(rows[k]) && ProperRequest(q)
      {
        MeetIsOverlap(rows[k], q.start.value, q.end.value);
      }
    }
  }

  /**
   For any table and request the answer is right exactly when what the check finds includes a proper interval, and the
   request has one.
   */
  lemma RefusedIffMeets(tables: set<int>, rows: seq<Reservation>, q: BookingRequest)
    ensures Right(tables, rows, q) <==>
              (Conflict(rows, q) ==>
                 ProperRequest(q) && exists k :: 0 <= k < |rows| && Overlaps(rows[k], q) && ProperRow(rows[k]))
  {
    MeetsActiveIff(rows, q);
  }

  /** A request is answered rightly by every table of proper reservations exactly when its own start is before its end. */
  lemma RequestAnsweredRightlyIff(tables: set<int>, q: BookingRequest)
    ensures (forall rows :: Proper(rows) ==> Right(tables, rows, q)) <==> ProperRequest(q)
  {
    forall rows | Proper(rows) && ProperRequest(q) ensures Right(tables, rows, q) {
      RefusedIffMeets(tables, rows, q);
    }
    if !ProperRequest(q) {
      var around := [RowOf(q).(start := q.end.value - 1.0, end := q.start.value + 1.0)];
      assert Overlaps(around[0], q);
      RefusedIffMeets(tables, around, q);
      assert Proper(around) && !Right(tables, around, q);
    }
  }

  // Wherever the improper row `r` makes the check fire, the proper row `p` is in the way as well
  predicate Hides(p: Reservation, r: Reservation) {
    ProperRow(p) && Active(p) && p.table == r.table && p.start <= r.start && r.end <= p.end
  }

  ghost predicate Hidden(rows: seq<Reservation>, r: Reservation) {
    exists k :: 0 <= k < |rows| && Hides(rows[k], r)
  }

  // Room around an improper row that no proper row hides: widened by it, the row still touches no proper one
  lemma {:induction false} Room(rows: seq<Reservation>, r: Reservation) returns (e: real)
    requires !Hidden(rows, r)
    ensures e > 0.0
    ensures forall k :: 0 <= k < |rows| && ProperRow(rows[k]) && Active(rows[k]) && rows[k].table == r.table ==>
              rows[k].start >= r.start + e || rows[k].end <= r.end - e
  {
    if rows == [] {
      e := 1.0;
    } else {
      var p, rest := rows[0], rows[1..];
      forall k | 0 <= k < |rest| ensures !Hides(rest[k], r) {
        assert rest[k] == rows[k + 1];
      }
      e := Room(rest, r);
      assert !Hides(p, r);
      if ProperRow(p) && Active(p) && p.table == r.table {
        e := Min(e, if p.start > r.start then p.start - r.start else r.end - p.end);
      }
      assert forall k :: 1 <= k < |rows| ==> rows[k] == rest[k - 1];
    }
  }

  /**
   A table answers every proper request rightly exactly when each active reservation that is reversed or empty is
   hidden by a proper one.
   */
  lemma TableAnswersRightlyIff(tables: set<int>, rows: seq<Reservation>)
    ensures (forall q :: ProperRequest(q) ==> Right(tables, rows, q)) <==>
            forall k :: 0 <= k < |rows| && Active(rows[k]) && !ProperRow(rows[k]) ==> Hidden(rows, rows[k])
  {
    if forall k :: 0 <= k < |rows| && Active(rows[k]) && !ProperRow(rows[k]) ==> Hidden(rows, rows[k]) {
      forall q | ProperRequest(q) ensures Right(tables, rows, q) {
        RefusedIffMeets(tables, rows, q);
        if Conflict(rows, q) {
          var k :| 0 <= k < |rows| && Overlaps(rows[k], q);
          if !ProperRow(rows[k]) {
            var j :| 0 <= j < |rows| && Hides(rows[j], rows[k]);
            assert Overlaps(rows[j], q) && ProperRow(rows[j]);
          }
        }
      }
    }
    forall k | 0 <= k < |rows| && Active(rows[k]) && !ProperRow(rows[k]) && !Hidden(rows, rows[k])
      ensures exists q :: ProperRequest(q) && !Right(tables, rows, q)
    {
      var r := rows[k];
      var e := Room(rows, r);
      var q := BookingRequest(Some(r.table), Some(r.end - e), Some(r.start + e), r.guest);
      assert Overlaps(rows[k], q);
      RefusedIffMeets(tables, rows, q);
      assert ProperRequest(q) && !Right(tables, rows, q);
    }
  }

  predicate Accepts(tables: set<int>, rows: seq<Reservation>, q: BookingRequest) {
    Book(tables, rows, q).1.Ok?
  }

  // Of the first requests of a run, only proper ones were accepted
  ghost predicate StoredOnlyProper(tables: set<int>, rows: seq<Reservation>, qs: seq<BookingRequest>, count: nat)
    requires count <= |qs|
  {
    forall n :: 0 <= n < count && Accepts(tables, BookAll(tables, rows, qs[..n]), qs[n]) ==> ProperRequest(qs[n])
  }

  lemma BookKeepsProperIff(tables: set<int>, rows: seq<Reservation>, q: BookingRequest)
    ensures Proper(Book(tables, rows, q).0) <==> Proper(rows) && (Accepts(tables, rows, q) ==> ProperRequest(q))
  {
    if Book(tables, rows, q).1.Ok? {
      var after := Book(tables, rows, q).0;
      assert forall k :: 0 <= k < |rows| ==> after[k] == rows[k];
      assert after[|rows|] == RowOf(q);
    }
  }

  lemma {:induction false} PrefixKeepsProperIff(tables: set<int>, rows: seq<Reservation>, qs: seq<BookingRequest>, count: nat)
    requires count <= |qs|
    ensures Proper(BookAll(tables, rows, qs[..count])) <==> Proper(rows) && StoredOnlyProper(tables, rows, qs, count)
  {
    if count > 0 {
      var last := count - 1;
      PrefixKeepsProperIff(tables, rows, qs, last);
      assert qs[..count][..last] == qs[..last];
      BookKeepsProperIff(tables, BookAll(tables, rows, qs[..last]), qs[last]);
      assert StoredOnlyProper(tables, rows, qs, count) <==>
               StoredOnlyProper(tables, rows, qs, last) &&
               (Accepts(tables, BookAll(tables, rows, qs[..last]), qs[last]) ==> ProperRequest(qs[last]));
    }
  }

  /** Over a run the table stays one of proper reservations exactly when every request it accepted was proper. */
  lemma RunKeepsProperIff(tables: set<int>, rows: seq<Reservation>, qs: seq<BookingRequest>)
    ensures Proper(BookAll(tables, rows, qs)) <==> Proper(rows) && StoredOnlyProper(tables, rows, qs, |qs|)
  {
    PrefixKeepsProperIff(tables, rows, qs, |qs|);
    assert qs[..|qs|] == qs;
  }

  const ANNA := Guest(Some(1), Some("Anna"), Some("+79990000000"), Some(2))

  /** An empty interval inside a reservation meets nothing and is refused all the same. */
  lemma EmptyIntervalIsRefused()
    ensures var rows := [Reservation(1, 0.0, 10.0, ANNA, "confirmed")];
            var q := BookingRequest(Some(1), Some(5.0), Some(5.0), ANNA);
            Book({1}, rows, q).1 == Err(AlreadyReserved) && !MeetsActive(rows, q)
  {
    var rows := [Reservation(1, 0.0, 10.0, ANNA, "confirmed")];
    assert Overlaps(rows[0], BookingRequest(Some(1), Some(5.0), Some(5.0), ANNA));
  }

  /** A reversed interval is stored, and from then on refuses a proper request that meets nothing. */
  lemma ReversedIntervalBlocks()
    ensures var reversed := BookingRequest(Some(1), Some(10.0), Some(5.0), ANNA);
            var q := BookingRequest(Some(1), Some(0.0), Some(20.0), ANNA);
            var rows := BookAll({1}, [], [reversed]);
            && rows == [RowOf(reversed)]
            && ProperRequest(q) && Book({1}, rows, q).1 == Err(AlreadyReserved) && !MeetsActive(rows, q)
  {
    var reversed := BookingRequest(Some(1), Some(10.0), Some(5.0), ANNA);
    var q := BookingRequest(Some(1), Some(0.0), Some(20.0), ANNA);
    assert [reversed][..0] == [] && [reversed][0] == reversed;
    assert BookAll({1}, [], [reversed]) == [RowOf(reversed)];
    assert Overlaps([RowOf(reversed)][0], q);
  }

  // No instant belongs to two active reservations of one table
  ghost predicate Disjoint(rows: seq<Reservation>) {
    forall i, j, t :: 0 <= i < j < |rows| && rows[i].table == rows[j].table && Active(rows[i]) && Active(rows[j]) ==>
      !(Covers(rows[i], t) && Covers(rows[j], t))
  }

  /** Reservations accepted one at a time keep each table's active intervals pairwise disjoint, whatever is requested. */
  lemma {:induction false} BookingsStayDisjoint(tables: set<int>, rows: seq<Reservation>, qs: seq<BookingRequest>)
    requires Disjoint(rows)
    ensures Disjoint(BookAll(tables, rows, qs))
  {
    if qs != [] {
      var before, q := BookAll(tables, rows, qs[..|qs| - 1]), qs[|qs| - 1];
      BookingsStayDisjoint(tables, rows, qs[..|qs| - 1]);
      var after := Book(tables, before, q).0;
      forall i, j, t | 0 <= i < j < |after| && after[i].table == after[j].table && Active(after[i]) && Active(after[j])
        ensures !(Covers(after[i], t) && Covers(after[j], t))
      {
        if j == |before| {
          assert !Overlaps(before[i], q);
        }
      }
    }
  }

  // ----- The same, over the requests -----

  // Instant `t` of the table is taken
  ghost predicate Taken(rows: seq<Reservation>, table: int, t: real) {
    exists k :: 0 <= k < |rows| && rows[k].table == table && Active(rows[k]) && Covers(rows[k], t)
  }

  // Instant `t` of the table is one that the request asks for
  ghost predicate Asks(q: BookingRequest, table: int, t: real) {
    Comparable(q) && q.table.value == table && q.start.value <= t < q.end.value
  }

  /** A request is rejected, unless its time is taken, exactly when a field is missing or overlong or its table does not exist. */
  lemma RejectedIff(tables: set<int>, rows: seq<Reservation>, q: BookingRequest)
    ensures Book(tables, rows, q).1 == Err(Rejected) <==>
              && !Conflict(rows, q)
              && (|| q.table.None? || q.table.value !in tables || q.start.None? || q.end.None?
                  || q.guest.user.None? || q.guest.count.None?
                  || q.guest.name.None? || |q.guest.name.value| > 255
                  || q.guest.phone.None? || |q.guest.phone.value| > 20)
  {}

  /** Exactly the rows that are pending or confirmed stand in the way of a request they overlap. */
  lemma StatusDecides(tables: set<int>, r: Reservation, q: BookingRequest)
    requires Comparable(q) && q.table.value == r.table && r.start < q.end.value && q.start.value < r.end
    ensures Book(tables, [r], q).1 == Err(AlreadyReserved) <==> r.status == "pending" || r.status == "confirmed"
  {
    assert [r][0] == r;
  }

  /**
   An accepted request adds one row with its table, times and guest, and what is taken after it is what was taken before
   and exactly the instants it asked for; any other request changes nothing.
   */
  lemma AcceptedIsStored(tables: set<int>, rows: seq<Reservation>, q: BookingRequest)
    ensures var (after, r) := Book(tables, rows, q);
            if r.Ok? then
              && r.value == |rows| && |after| == |rows| + 1 && rows <= after
              && q.table == Some(after[|rows|].table) && q.guest == after[|rows|].guest
              && q.start == Some(after[|rows|].start) && q.end == Some(after[|rows|].end)
              && after[|rows|].status == "confirmed"
              && (forall table, t :: Taken(after, table, t) <==> Taken(rows, table, t) || Asks(q, table, t))
            else after == rows
  {
    var (after, r) := Book(tables, rows, q);
    if r.Ok? {
      var n := |rows|;
      assert forall k :: 0 <= k < n ==> after[k] == rows[k];
      forall table, t ensures Taken(after, table, t) <==> Taken(rows, table, t) || Asks(q, table, t) {
        if Taken(rows, table, t) {
          var k :| 0 <= k < n && rows[k].table == table && Active(rows[k]) && Covers(rows[k], t);
          assert after[k] == rows[k];
        }
        if Asks(q, table, t) {
          assert after[n].table == table && Active(after[n]) && Covers(after[n], t);
        }
      }
    }
  }

  lemma BookAllNext(tables: set<int>, rows: seq<Reservation>, qs: seq<BookingRequest>, n: nat)
    requires n < |qs|
    ensures BookAll(tables, rows, qs[..n + 1]) == Book(tables, BookAll(tables, rows, qs[..n]), qs[n]).0
  {
    assert qs[..n + 1][..n] == qs[..n];
  }

  // What an accepted request asked for stays taken for the rest of the run
  lemma {:induction false} StaysTaken(tables: set<int>, rows: seq<Reservation>, qs: seq<BookingRequest>, m: nat, n: nat, t: real)
    requires m < n <= |qs| && Accepts(tables, BookAll(tables, rows, qs[..m]), qs[m])
    requires Comparable(qs[m]) && Asks(qs[m], qs[m].table.value, t)
    ensures Taken(BookAll(tables, rows, qs[..n]), qs[m].table.value, t)
    decreases n
  {
    BookAllNext(tables, rows, qs, n - 1);
    AcceptedIsStored(tables, BookAll(tables, rows, qs[..n - 1]), qs[n - 1]);
    if m < n - 1 {
      StaysTaken(tables, rows, qs, m, n - 1, t);
    }
  }

  lemma TakenIsRefused(tables: set<int>, rows: seq<Reservation>, q: BookingRequest, table: int, t: real)
    requires Taken(rows, table, t) && Asks(q, table, t)
    ensures Book(tables, rows, q).1 == Err(AlreadyReserved)
  {
    var k :| 0 <= k < |rows| && rows[k].table == table && Active(rows[k]) && Covers(rows[k], t);
    assert Overlaps(rows[k], q);
  }

  /** No two accepted requests of a run ask for the same instant of the same table, whatever the table held before. */
  lemma AcceptedRequestsDisjoint(tables: set<int>, rows: seq<Reservation>, qs: seq<BookingRequest>, m: nat, n: nat, table: int, t: real)
    requires m < n < |qs|
    requires Accepts(tables, BookAll(tables, rows, qs[..m]), qs[m]) && Accepts(tables, BookAll(tables, rows, qs[..n]), qs[n])
    ensures !(Asks(qs[m], table, t) && Asks(qs[n], table, t))
  {
    if Asks(qs[m], table, t) && Asks(qs[n], table, t) {
      StaysTaken(tables, rows, qs, m, n, t);
      TakenIsRefused(tables, BookAll(tables, rows, qs[..n]), qs[n], table, t);
    }
  }

  // ----- Booked time -----

  function Min(x: real, y: real): real { if x < y then x else y }

  function Max(x: real, y: real): real { if x < y then y else x }

  // Length of the part of `r` that lies inside [a, b)
  function Inside(r: Reservation, a: real, b: real): real {
    Max(0.0, Min(r.end, b) - Max(r.start, a))
  }

  function Booked(rows: seq<Reservation>, table: int, a: real, b: real): real {
    if rows == [] then 0.0
    else (if rows[0].table == table && Active(rows[0]) then Inside(rows[0], a, b) else 0.0) + Booked(rows[1..], table, a, b)
  }

  // No row of `rows` shares an instant of [a, b) with [start, end)
  ghost predicate Apart(rows: seq<Reservation>, table: int, start: real, end: real) {
    forall k, t :: 0 <= k < |rows| && rows[k].table == table && Active(rows[k]) && start <= t < end ==> !Covers(rows[k], t)
  }

  // Cutting a middle piece that nobody uses out of [a, b) loses no booked time
  lemma {:induction false} BookedAround(rows: seq<Reservation>, table: int, a: real, start: real, end: real, b: real)
    requires a <= start < end <= b && Apart(rows, table, start, end)
    ensures Booked(rows, table, a, b) == Booked(rows, table, a, start) + Booked(rows, table, end, b)
  {
    if rows != [] {
      var r := rows[0];
      forall k, t | 0 <= k < |rows[1..]| && rows[1..][k].table == table && Active(rows[1..][k]) && start <= t < end
        ensures !Covers(rows[1..][k], t)
      {
        assert rows[1..][k] == rows[k + 1];
      }
      BookedAround(rows[1..], table, a, start, end, b);
      if r.table == table && Active(r) {
        assert !Covers(r, start);
        assert !Covers(r, Max(start, r.start)) || Max(start, r.start) >= end;
      }
    }
  }

  /** The time booked for a table inside [a, b) never exceeds b - a. */
  lemma {:induction false} BookedTimeFits(rows: seq<Reservation>, table: int, a: real, b: real)
    requires Disjoint(rows) && a <= b
    ensures Booked(rows, table, a, b) <= b - a
    decreases |rows|
  {
    if rows != [] {
      var r, rest := rows[0], rows[1..];
      assert Disjoint(rest) by {
        forall i, j, t | 0 <= i < j < |rest| && rest[i].table == rest[j].table && Active(rest[i]) && Active(rest[j])
          ensures !(Covers(rest[i], t) && Covers(rest[j], t))
        {
          assert rest[i] == rows[i + 1] && rest[j] == rows[j + 1];
        }
      }
      var start, end := Max(r.start, a), Min(r.end, b);
      if r.table == table && Active(r) && start < end {
        forall k, t | 0 <= k < |rest| && rest[k].table == table && Active(rest[k]) && start <= t < end
          ensures !Covers(rest[k], t)
        {
          assert rest[k] == rows[k + 1] && Covers(rows[0], t);
        }
        BookedAround(rest, table, a, start, end, b);
        BookedTimeFits(rest, table, a, start);
        BookedTimeFits(rest, table, end, b);
      } else {
        BookedTimeFits(rest, table, a, b);
      }
    }
  }
}
