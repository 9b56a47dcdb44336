/** Admin and widget orders: the transition table, the order's event log and its audit trail. */
module OrderLifecycle {
  import opened Wrappers

  // A status string; anything outside the table's vocabulary is `Other`
  datatype Status = New | Accepted | Preparing | Ready | Delivering | Completed | Cancelled | Other(name: string)

  function Allowed(s: Status): set<Status> {
    match s
    case New => {Accepted, Cancelled}
    case Accepted => {Preparing, Cancelled}
    case Preparing => {Ready}
    case Ready => {Delivering, Completed}
    case Delivering => {Completed}
    case Completed => {}
    case Cancelled => {}
    case Other(_) => {}
  }

  datatype EventKind = CreatedEvent | StatusChanged

  datatype Event = Event(kind: EventKind, from: Option<Status>, to: Status, actor: Option<int>)

  datatype AuditRow = AuditRow(action: string, oldStatus: Option<Status>, newStatus: Status, actor: Option<int>)

  // An order's row with the two logs kept beside it
  datatype Row = Row(status: Status, closedAt: Option<int>, events: seq<Event>, audit: seq<AuditRow>)

  datatype Change = Change(to: Status, actor: Option<int>, at: int)

  function Opened(status: Status, actor: Option<int>): Row {
    Row(status, None, [Event(CreatedEvent, None, status, actor)], [AuditRow("create", None, status, actor)])
  }

  function Update(o: Row, c: Change): Row {
    if c.to !in Allowed(o.status) then o
    else Row(c.to,
             if c.to.Completed? then Some(c.at) else o.closedAt,
             o.events + [Event(StatusChanged, Some(o.status), c.to, c.actor)],
             o.audit + [AuditRow("update", Some(o.status), c.to, c.actor)])
  }

  /** The mutable order the service works on. */
  class Order {
    var status: Status
    var closedAt: Option<int>
    var events: seq<Event>
    var audit: seq<AuditRow>

    function Value(): Row
      reads this
    {
      Row(status, closedAt, events, audit)
    }

    constructor (status: Status, actor: Option<int>)
      ensures Value() == Opened(status, actor)
    {
      this.status, closedAt := status, None;
      events := [Event(CreatedEvent, None, status, actor)];
      audit := [AuditRow("create", None, status, actor)];
    }

    /** `update_order_status`; false where the source raises. */
    method UpdateStatus(c: Change) returns (ok: bool)
      modifies this
      ensures ok <==> c.to in Allowed(old(status))
      ensures Value() == Update(old(Value()), c)
    {
      if c.to !in Allowed(status) {
        return false;
      }
      var previous := status;
      status := c.to;
      if c.to == Completed {
        closedAt := Some(c.at);
      }
      events := events + [Event(StatusChanged, Some(previous), c.to, c.actor)];
      audit := audit + [AuditRow("update", Some(previous), c.to, c.actor)];
      ok := true;
    }
  }

  // ----- Whole runs -----

  function Run(created: Status, actor: Option<int>, changes: seq<Change>): Row {
    if changes == [] then Opened(created, actor)
    else Update(Run(created, actor, changes[..|changes| - 1]), changes[|changes| - 1])
  }

  // Strictly increases along the table
  function Rank(s: Status): nat {
    match s
    case New => 0
    case Accepted => 1
    case Preparing => 2
    case Ready => 3
    case Delivering => 4
    case Completed => 5
    case Cancelled => 5
    case Other(_) => 5
  }

  // The log starts with the creation, and each later entry continues from the one before by a step of the table
  ghost predicate Chain(events: seq<Event>, created: Status) {
    && events != []
    && events[0].kind.CreatedEvent? && events[0].from.None? && events[0].to == created
    && forall k :: 1 <= k < |events| ==>
         && events[k].kind.StatusChanged?
         && events[k].from == Some(events[k - 1].to)
         && events[k].to in Allowed(events[k - 1].to)
  }

  ghost predicate SameHistory(audit: seq<AuditRow>, events: seq<Event>) {
    && |audit| == |events|
    && forall k :: 0 <= k < |events| ==>
         && audit[k].oldStatus == events[k].from && audit[k].newStatus == events[k].to
         && audit[k].actor == events[k].actor
         && audit[k].action == if k == 0 then "create" else "update"
  }

  ghost predicate WasCompleted(events: seq<Event>) {
    exists k :: 1 <= k < |events| && events[k].to.Completed?
  }

  ghost predicate Consistent(o: Row, created: Status) {
    && Chain(o.events, created)
    && o.events[|o.events| - 1].to == o.status
    && SameHistory(o.audit, o.events)
    && (o.closedAt.Some? <==> WasCompleted(o.events))
  }

  lemma CompletedLater(events: seq<Event>, e: Event)
    requires events != []
    ensures WasCompleted(events + [e]) <==> WasCompleted(events) || e.to.Completed?
  {
    var all := events + [e];
    if WasCompleted(events) {
      var k :| 1 <= k < |events| && events[k].to.Completed?;
      assert all[k].to.Completed?;
    }
    if e.to.Completed? {
      assert all[|events|].to.Completed?;
    }
  }

  lemma ChainGrows(events: seq<Event>, e: Event, created: Status)
    requires Chain(events, created) && e.kind.StatusChanged?
    requires e.from == Some(events[|events| - 1].to) && e.to in Allowed(events[|events| - 1].to)
    ensures Chain(events + [e], created)
  {}

  lemma HistoryGrows(audit: seq<AuditRow>, events: seq<Event>, e: Event)
    requires SameHistory(audit, events) && events != []
    ensures SameHistory(audit + [AuditRow("update", e.from, e.to, e.actor)], events + [e])
  {}

  lemma UpdateKeepsConsistent(o: Row, c: Change, created: Status)
    requires Consistent(o, created)
    ensures Consistent(Update(o, c), created)
  {
    if c.to in Allowed(o.status) {
      var e := Event(StatusChanged, Some(o.status), c.to, c.actor);
      CompletedLater(o.events, e);
      ChainGrows(o.events, e, created);
      HistoryGrows(o.audit, o.events, e);
    }
  }

  /**
   In every run the log is a chain that ends in the current status, the audit trail repeats it, and closing marks
   completion.
   */
  lemma {:induction false} LogReplaysStatus(created: Status, actor: Option<int>, changes: seq<Change>)
    ensures Consistent(Run(created, actor, changes), created)
  {
    if changes != [] {
      LogReplaysStatus(created, actor, changes[..|changes| - 1]);
      UpdateKeepsConsistent(Run(created, actor, changes[..|changes| - 1]), changes[|changes| - 1], created);
    }
  }

  lemma {:induction false} RanksIncrease(events: seq<Event>, created: Status, i: nat, j: nat)
    requires Chain(events, created) && i <= j < |events|
    ensures Rank(events[i].to) + (j - i) <= Rank(events[j].to)
    decreases j
  {
    if i < j {
      RanksIncrease(events, created, i, j - 1);
    }
  }

  /** No status repeats, and an order changes at most five times less the rank it was created with. */
  lemma StatusesNeverRepeat(created: Status, actor: Option<int>, changes: seq<Change>)
    ensures var o := Run(created, actor, changes);
            && |o.events| - 1 <= 5 - Rank(created)
            && forall i, j :: 0 <= i < j < |o.events| ==> o.events[i].to != o.events[j].to
  {
    var o := Run(created, actor, changes);
    LogReplaysStatus(created, actor, changes);
    RanksIncrease(o.events, created, 0, |o.events| - 1);
    forall i, j | 0 <= i < j < |o.events| ensures o.events[i].to != o.events[j].to {
      RanksIncrease(o.events, created, i, j);
    }
  }

  // Nothing follows a completion
  lemma CompletedIsLast(events: seq<Event>, created: Status, k: nat)
    requires Chain(events, created) && k < |events| && events[k].to.Completed?
    ensures k == |events| - 1
  {
    RanksIncrease(events, created, k, |events| - 1);
  }

  /** An order not created completed is closed exactly while completed, and then it never changes again. */
  lemma ClosedIffCompleted(created: Status, actor: Option<int>, changes: seq<Change>, c: Change)
    requires !created.Completed?
    ensures var o := Run(created, actor, changes);
            && (o.closedAt.Some? <==> o.status.Completed?)
            && (o.closedAt.Some? ==> Update(o, c) == o)
  {
    var o := Run(created, actor, changes);
    LogReplaysStatus(created, actor, changes);
    if WasCompleted(o.events) {
      var k :| 1 <= k < |o.events| && o.events[k].to.Completed?;
      CompletedIsLast(o.events, created, k);
    }
  }

  /** Created already completed, an order is completed without ever being closed. */
  lemma CreatedCompletedIsNeverClosed(actor: Option<int>, changes: seq<Change>)
    ensures Run(Completed, actor, changes).status == Completed && Run(Completed, actor, changes).closedAt.None?
  {
    LogReplaysStatus(Completed, actor, changes);
    StatusesNeverRepeat(Completed, actor, changes);
  }

  /**
   The steps of the table: one stage of new, accepted, preparing, ready, delivering, completed at a time, except that a ready
   order may skip delivery; cancellation of a new or accepted order; and no others.
   */
  lemma AllowedIff(from: Status, to: Status)
    ensures to in Allowed(from) <==>
              || (!from.Other? && !from.Cancelled? && !to.Other? && !to.Cancelled? && Rank(to) == Rank(from) + 1)
              || (from == Ready && to == Completed)
              || (to == Cancelled && (from == New || from == Accepted))
  {}

  // The changes of a run that the table allowed when they were asked for
  function Effective(created: Status, actor: Option<int>, changes: seq<Change>): seq<Change> {
    if changes == [] then []
    else
      var before, last := changes[..|changes| - 1], changes[|changes| - 1];
      Effective(created, actor, before) + if last.to in Allowed(Run(created, actor, before).status) then [last] else []
  }

  // The log and its actors are the creation and then those changes
  ghost predicate Logs(o: Row, created: Status, actor: Option<int>, changes: seq<Change>) {
    && |o.events| == |changes| + 1
    && o.events[0].to == created && o.events[0].actor == actor
    && (forall k :: 0 <= k < |changes| ==> o.events[k + 1].to == changes[k].to && o.events[k + 1].actor == changes[k].actor)
    && o.status == (if changes == [] then created else changes[|changes| - 1].to)
  }

  /**
   Every change that the table allows is carried out and logged with its actor, and no other; closing bears the
   completing change's time.
   */
  lemma {:induction false} LogIsEffectiveChanges(created: Status, actor: Option<int>, changes: seq<Change>)
    ensures var o, done := Run(created, actor, changes), Effective(created, actor, changes);
            && Logs(o, created, actor, done)
            && o.closedAt == if done != [] && done[|done| - 1].to == Completed then Some(done[|done| - 1].at) else None
  {
    if changes != [] {
      LogIsEffectiveChanges(created, actor, changes[..|changes| - 1]);
    }
  }

  lemma RunNext(created: Status, actor: Option<int>, changes: seq<Change>, k: nat)
    requires k < |changes|
    ensures Run(created, actor, changes[..k + 1]) == Update(Run(created, actor, changes[..k]), changes[k])
  {
    assert changes[..k + 1][..k] == changes[..k];
  }

  /** A new order can go all the way through delivery. */
  lemma DeliveryIsPossible(actor: Option<int>, who: Option<int>, at: int)
    ensures var changes := [Change(Accepted, who, at), Change(Preparing, who, at), Change(Ready, who, at),
                            Change(Delivering, who, at), Change(Completed, who, at)];
            Run(New, actor, changes).status == Completed && |Run(New, actor, changes).events| == 6
  {
    var changes := [Change(Accepted, who, at), Change(Preparing, who, at), Change(Ready, who, at),
                    Change(Delivering, who, at), Change(Completed, who, at)];
    assert changes[..0] == [] && changes[..5] == changes;
    RunNext(New, actor, changes, 0);
    RunNext(New, actor, changes, 1);
    RunNext(New, actor, changes, 2);
    RunNext(New, actor, changes, 3);
    RunNext(New, actor, changes, 4);
  }

  ghost predicate Passed(events: seq<Event>, s: Status) {
    exists k :: 0 <= k < |events| && events[k].to == s
  }

  // A ready order was prepared just before, and accepted before that
  lemma ReadyComesFrom(events: seq<Event>, created: Status, k: nat)
    requires Chain(events, created) && (created.New? || created.Accepted?)
    requires k < |events| && events[k].to.Ready?
    ensures Passed(events, Accepted) && Passed(events, Preparing) && Passed(events, Ready)
  {
    assert events[k - 1].to.Preparing?;
    assert events[k - 2].to.Accepted?;
  }

  lemma CompletedComesFrom(events: seq<Event>, created: Status, k: nat)
    requires Chain(events, created) && (created.New? || created.Accepted?)
    requires k < |events| && events[k].to.Completed?
    ensures k >= 2 && (events[k - 1].to.Ready? || events[k - 2].to.Ready?)
  {
    assert events[k].to in Allowed(events[k - 1].to);
    assert events[k - 1].to in Allowed(events[k - 2].to);
  }

  lemma CancelledComesFrom(events: seq<Event>, created: Status, last: nat)
    requires Chain(events, created) && (created.New? || created.Accepted?)
    requires last == |events| - 1 && events[last].to.Cancelled?
    ensures !Passed(events, Preparing) && !Passed(events, Ready) && !Passed(events, Completed)
  {
    assert events[last].to in Allowed(events[last - 1].to);
    forall k | 0 <= k < last ensures Rank(events[k].to) <= 1 {
      RanksIncrease(events, created, k, last - 1);
    }
  }

  /**
   An order taken in as new or accepted is completed only after being accepted, prepared and ready, and cancelled only
   before preparation.
   */
  lemma WorkflowOrder(created: Status, actor: Option<int>, changes: seq<Change>)
    requires created.New? || created.Accepted?
    ensures var o := Run(created, actor, changes);
            && (o.status.Completed? ==> Passed(o.events, Accepted) && Passed(o.events, Preparing) && Passed(o.events, Ready))
            && (o.status.Cancelled? ==> !Passed(o.events, Preparing) && !Passed(o.events, Ready) && !Passed(o.events, Completed))
  {
    var o := Run(created, actor, changes);
    LogReplaysStatus(created, actor, changes);
    var last := |o.events| - 1;
    if o.status.Completed? {
      CompletedComesFrom(o.events, created, last);
      ReadyComesFrom(o.events, created, if o.events[last - 1].to.Ready? then last - 1 else last - 2);
    } else if o.status.Cancelled? {
      CancelledComesFrom(o.events, created, last);
    }
  }
}
