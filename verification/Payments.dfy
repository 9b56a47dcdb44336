/** The payment worker: payment creation, webhook deliveries and polling; a creation is open from its SELECT to its UPDATE. */
module Payments {
  import opened Wrappers
  import opened Store
  import Checkout
  import OrderTotals
  import Stock

  datatype EventKind = Succeeded | Canceled | OtherKind

  datatype Event = Event(paymentId: string, kind: EventKind)

  datatype PaymentError = UnknownOrder | AlreadyProcessed | NullPoints | InvalidAmount | UnnamedLine | ProviderFailed

  datatype ReceiptLine = ReceiptLine(description: string, quantity: int, value: real)

  datatype Payment = Payment(id: string, charge: real, receipt: seq<ReceiptLine>)

  // What a payment creation has read when it asks the provider
  datatype Draft = Draft(order: nat, charge: real, receipt: seq<ReceiptLine>)

  // The two tables these handlers read and write, and the creations that are open
  datatype Ledger = Ledger(orders: seq<OrderRow>, users: map<int, real>, drafts: map<int, Draft>)

  // A creation reads an order; it stores the id the provider answered, if any; a webhook arrives
  datatype Action =
    | Read(call: int, order: nat)
    | Store(call: int, provider: Option<string>)
    | Deliver(event: Event)

  function FindPayment(orders: seq<OrderRow>, id: string): (r: Option<nat>)
    ensures r.Some? ==> r.value < |orders| && orders[r.value].paymentId == Some(id)
    ensures r.None? ==> forall k :: 0 <= k < |orders| ==> orders[k].paymentId != Some(id)
  {
    if orders == [] then None
    else if orders[0].paymentId == Some(id) then Some(0)
    else match FindPayment(orders[1..], id)
      case None =>
        assert forall k :: 1 <= k < |orders| ==> orders[k] == orders[1..][k - 1];
        None
      case Some(k) => Some(k + 1)
  }

  predicate Named(lines: seq<OrderLine>) {
    forall k :: 0 <= k < |lines| ==> lines[k].name.Some?
  }

  function Receipt(lines: seq<OrderLine>): seq<ReceiptLine>
    requires Named(lines)
  {
    seq(|lines|, k requires 0 <= k < |lines| => ReceiptLine(lines[k].name.value, lines[k].quantity, lines[k].price))
  }

  // The amount sent to the provider, or why none is
  function Charge(row: OrderRow): Result<real, PaymentError> {
    if !row.paymentStatus.Pending? then Err(AlreadyProcessed)
    else if row.loyaltyUsed.None? then Err(NullPoints)
    else if row.amount - row.loyaltyUsed.value <= 0.0 then Err(InvalidAmount)
    else if !Named(row.lines) then Err(UnnamedLine)
    else Ok(row.amount - row.loyaltyUsed.value)
  }

  /** Why an order is not charged, and that a charge and the points used make up its amount. */
  lemma ChargeAnswers(row: OrderRow)
    ensures Charge(row) == Err(AlreadyProcessed) <==> row.paymentStatus.Paid? || row.paymentStatus.Failed?
    ensures Charge(row) == Err(NullPoints) <==> row.paymentStatus.Pending? && row.loyaltyUsed.None?
    ensures Charge(row) == Err(InvalidAmount) <==>
              row.paymentStatus.Pending? && row.loyaltyUsed.Some? && row.amount <= row.loyaltyUsed.value
    ensures Charge(row) == Err(UnnamedLine) <==>
              && row.paymentStatus.Pending? && row.loyaltyUsed.Some? && row.amount > row.loyaltyUsed.value
              && exists k :: 0 <= k < |row.lines| && row.lines[k].name.None?
    ensures Charge(row).Ok? ==> row.loyaltyUsed.Some? && Charge(row).value + row.loyaltyUsed.value == row.amount
    ensures Charge(row).Err? ==> Charge(row).error in {AlreadyProcessed, NullPoints, InvalidAmount, UnnamedLine}
  {}

  /** The receipt repeats the order's lines, one by one. */
  lemma ReceiptRepeatsLines(lines: seq<OrderLine>)
    requires Named(lines)
    ensures |Receipt(lines)| == |lines|
    ensures forall k :: 0 <= k < |lines| ==>
              && Some(Receipt(lines)[k].description) == lines[k].name
              && Receipt(lines)[k].quantity == lines[k].quantity && Receipt(lines)[k].value == lines[k].price
  {}

  // The unlocked SELECT and the checks on its row
  function Selected(l: Ledger, call: int, order: nat): (Ledger, Result<Draft, PaymentError>) {
    if order >= |l.orders| then (l, Err(UnknownOrder))
    else
      match Charge(l.orders[order])
      case Err(e) => (l, Err(e))
      case Ok(amount) =>
        var d := Draft(order, amount, Receipt(l.orders[order].lines));
        (l.(drafts := l.drafts[call := d]), Ok(d))
  }

  // `UPDATE orders SET payment_id ... WHERE id`, whatever the row's status is by then
  function WithId(orders: seq<OrderRow>, order: nat, id: Option<string>): (r: seq<OrderRow>)
    ensures |r| == |orders|
  {
    if order < |orders| then orders[order := orders[order].(paymentId := id)] else orders
  }

  // The provider's answer and the UPDATE; an error rolls the creation back
  function Stored(l: Ledger, call: int, provider: Option<string>): (Ledger, Result<Payment, PaymentError>)
    requires call in l.drafts
  {
    var d, closed := l.drafts[call], l.(drafts := l.drafts - {call});
    if provider.None? then (closed, Err(ProviderFailed))
    else (closed.(orders := WithId(l.orders, d.order, provider)), Ok(Payment(provider.value, d.charge, d.receipt)))
  }

  // A creation that nothing interrupts
  function Create(l: Ledger, call: int, order: nat, provider: Option<string>): (Ledger, Result<Payment, PaymentError>) {
    match Selected(l, call, order).1
    case Err(e) => (l, Err(e))
    case Ok(_) => Stored(Selected(l, call, order).0, call, provider)
  }

  /** Uninterrupted, a creation changes nothing but its order's id, and only if the checks pass and the provider answers. */
  lemma UninterruptedCreate(l: Ledger, call: int, order: nat, provider: Option<string>)
    requires call !in l.drafts
    ensures var (l', r) := Create(l, call, order, provider);
            if order < |l.orders| && Charge(l.orders[order]).Ok? && provider.Some? then
              && l' == l.(orders := l.orders[order := l.orders[order].(paymentId := provider)])
              && r == Ok(Payment(provider.value, Charge(l.orders[order]).value, Receipt(l.orders[order].lines)))
            else l' == l && r.Err?
  {
    if order < |l.orders| && Charge(l.orders[order]).Ok? {
      assert Selected(l, call, order).0.drafts - {call} == l.drafts;
    }
  }

  // `UPDATE users ... WHERE id`: no row, no effect
  function Credit(users: map<int, real>, user: int, points: real): map<int, real> {
    if user in users then users[user := users[user] + points] else users
  }

  // The tables after one webhook, and whether the handler returned normally
  function Webhook(l: Ledger, e: Event): (Ledger, bool) {
    match FindPayment(l.orders, e.paymentId)
    case None => (l, true)
    case Some(k) =>
      var row := l.orders[k];
      if row.paymentStatus.Paid? && e.kind.Succeeded? then (l, true)
      else match e.kind
        case Succeeded =>
          (l.(orders := l.orders[k := row.(paymentStatus := Paid, status := "confirmed")],
              users := Credit(l.users, row.user, row.amount * 0.01)), true)
        case Canceled =>
          if row.loyaltyUsed.None? then (l, false)
          else
            (l.(orders := l.orders[k := row.(paymentStatus := Failed, status := "cancelled")],
                users := if row.loyaltyUsed.value > 0.0 then Credit(l.users, row.user, row.loyaltyUsed.value) else l.users), true)
        case OtherKind => (l, true)
  }

  // Actions that are not enabled leave the ledger as it is
  function Apply(l: Ledger, a: Action): Ledger {
    match a
    case Read(call, order) => if call in l.drafts then l else Selected(l, call, order).0
    case Store(call, provider) => if call in l.drafts then Stored(l, call, provider).0 else l
    case Deliver(e) => Webhook(l, e).0
  }

  function Run(l: Ledger, acts: seq<Action>): Ledger {
    if acts == [] then l else Apply(Run(l, acts[..|acts| - 1]), acts[|acts| - 1])
  }

  /** A delivery raises exactly when it cancels an order whose points are null, and then changes nothing. */
  lemma WebhookRaisesIff(l: Ledger, e: Event)
    ensures !Webhook(l, e).1 <==>
              e.kind.Canceled? && FindPayment(l.orders, e.paymentId).Some?
              && l.orders[FindPayment(l.orders, e.paymentId).value].loyaltyUsed.None?
    ensures !Webhook(l, e).1 ==> Webhook(l, e).0 == l
  {}

  // ----- Each order's own history -----

  // The order whose row and owner the action's event acts on, if any
  function Target(l: Ledger, a: Action): (r: Option<nat>)
    ensures r.Some? ==> r.value < |l.orders|
  {
    if !a.Deliver? || a.event.kind.OtherKind? then None
    else match FindPayment(l.orders, a.event.paymentId)
      case None => None
      case Some(k) => if a.event.kind.Canceled? && l.orders[k].loyaltyUsed.None? then None else Some(k)
  }

  function History(l: Ledger, acts: seq<Action>, o: nat): seq<EventKind> {
    if acts == [] then []
    else
      var before, last := acts[..|acts| - 1], acts[|acts| - 1];
      History(l, before, o) + (if Target(Run(l, before), last) == Some(o) then [last.event.kind] else [])
  }

  // A success that does not directly follow another success of the same order
  predicate FirstSuccess(h: seq<EventKind>, paidBefore: bool, i: nat)
    requires i < |h|
  {
    h[i].Succeeded? && if i == 0 then !paidBefore else !h[i - 1].Succeeded?
  }

  function Accruals(h: seq<EventKind>, paidBefore: bool): nat {
    if h == [] then 0
    else Accruals(h[..|h| - 1], paidBefore) + if FirstSuccess(h, paidBefore, |h| - 1) then 1 else 0
  }

  function Refunds(h: seq<EventKind>): nat {
    if h == [] then 0
    else Refunds(h[..|h| - 1]) + if h[|h| - 1].Canceled? then 1 else 0
  }

  function RefundOf(row: OrderRow): real {
    if row.loyaltyUsed.Some? && row.loyaltyUsed.value > 0.0 then row.loyaltyUsed.value else 0.0
  }

  // `x` added up `n` times
  function Times(n: nat, x: real): real {
    if n == 0 then 0.0 else Times(n - 1, x) + x
  }

  // Points an order has earned its user: 1% per accrual, and the spent points per refund
  function OrderCredit(row: OrderRow, h: seq<EventKind>): real {
    Times(Accruals(h, row.paymentStatus.Paid?), row.amount * 0.01) + Times(Refunds(h), RefundOf(row))
  }

  // What the first `n` orders have earned `user`, given what each has earned its owner
  function SumFor(orders: seq<OrderRow>, credits: seq<real>, user: int, n: nat): real
    requires n <= |orders| == |credits|
  {
    if n == 0 then 0.0
    else SumFor(orders, credits, user, n - 1) + if orders[n - 1].user == user then credits[n - 1] else 0.0
  }

  function Credits(l: Ledger, acts: seq<Action>): (credits: seq<real>)
    ensures |credits| == |l.orders|
  {
    seq(|l.orders|, o requires 0 <= o < |l.orders| => OrderCredit(l.orders[o], History(l, acts, o)))
  }

  // What all the orders of `user` have earned in a run
  function UserCredit(l: Ledger, acts: seq<Action>, user: int): real {
    SumFor(l.orders, Credits(l, acts), user, |l.orders|)
  }

  function PaidAfter(h: seq<EventKind>, paidBefore: bool): bool {
    if h == [] then paidBefore else h[|h| - 1].Succeeded?
  }

  // Points that one more event of kind `kind` brings the owner of `row`
  function Gain(row: OrderRow, kind: EventKind): real {
    if kind.Succeeded? then (if row.paymentStatus.Paid? then 0.0 else row.amount * 0.01)
    else RefundOf(row)
  }

  function GainTo(l: Ledger, a: Action, user: int): real {
    match Target(l, a)
    case None => 0.0
    case Some(o) => if l.orders[o].user == user then Gain(l.orders[o], a.event.kind) else 0.0
  }

  // How an event of kind `kind` leaves its order
  predicate Settled(row: OrderRow, kind: EventKind) {
    if kind.Succeeded? then row.paymentStatus.Paid? && row.status == "confirmed"
    else row.paymentStatus.Failed? && row.status == "cancelled"
  }

  // What stays and what changes in order `o` when one action is applied
  ghost predicate OrderEffect(l: Ledger, a: Action, o: nat)
    requires o < |l.orders| == |Apply(l, a).orders|
  {
    var row, row' := l.orders[o], Apply(l, a).orders[o];
    && row'.user == row.user && row'.amount == row.amount
    && row'.loyaltyUsed == row.loyaltyUsed && row'.lines == row.lines
    && (row'.paymentStatus.Paid? <==> if Target(l, a) == Some(o) then a.event.kind.Succeeded? else row.paymentStatus.Paid?)
    && (if Target(l, a) != Some(o) || (row.paymentStatus.Paid? && a.event.kind.Succeeded?)
        then row'.paymentStatus == row.paymentStatus && row'.status == row.status
        else Settled(row', a.event.kind))
  }

  lemma ApplyKeepsLength(l: Ledger, a: Action)
    ensures |Apply(l, a).orders| == |l.orders|
  {}

  // One action changes only its target's payment status
  lemma ApplyToOrder(l: Ledger, a: Action, o: nat)
    requires o < |l.orders|
    ensures |Apply(l, a).orders| == |l.orders| && OrderEffect(l, a, o)
  {
    ApplyKeepsLength(l, a);
  }

  // Only the target's owner gains
  lemma ApplyToUser(l: Ledger, a: Action, user: int)
    requires user in l.users
    ensures user in Apply(l, a).users && Apply(l, a).users[user] == l.users[user] + GainTo(l, a, user)
  {}

  /** Over a run an order keeps its owner and amounts, and is paid exactly when its last event was a success. */
  lemma {:induction false} OrderAfterRun(l: Ledger, acts: seq<Action>, o: nat)
    requires o < |l.orders|
    ensures |Run(l, acts).orders| == |l.orders|
    ensures var row, row' := l.orders[o], Run(l, acts).orders[o];
            && row'.user == row.user && row'.amount == row.amount
            && row'.loyaltyUsed == row.loyaltyUsed && row'.lines == row.lines
            && (row'.paymentStatus.Paid? <==> PaidAfter(History(l, acts, o), row.paymentStatus.Paid?))
  {
    if acts != [] {
      var before, a := acts[..|acts| - 1], acts[|acts| - 1];
      OrderAfterRun(l, before, o);
      ApplyToOrder(Run(l, before), a, o);
    }
  }

  /** An order that was not paid at first is settled as its last event says, and is untouched while it has had none. */
  lemma {:induction false} LastEventSettles(l: Ledger, acts: seq<Action>, o: nat)
    requires o < |l.orders| && !l.orders[o].paymentStatus.Paid?
    ensures o < |Run(l, acts).orders|
    ensures var h, row' := History(l, acts, o), Run(l, acts).orders[o];
            if h == [] then row'.paymentStatus == l.orders[o].paymentStatus && row'.status == l.orders[o].status
            else Settled(row', h[|h| - 1])
  {
    if acts != [] {
      var before, a := acts[..|acts| - 1], acts[|acts| - 1];
      LastEventSettles(l, before, o);
      OrderAfterRun(l, before, o);
      ApplyToOrder(Run(l, before), a, o);
    }
  }

  // `now` is the order's row when the event arrives, `row` its opening row
  lemma HistoryGrows(row: OrderRow, now: OrderRow, h: seq<EventKind>, kind: EventKind)
    requires kind.Succeeded? || kind.Canceled?
    requires now.amount == row.amount && now.loyaltyUsed == row.loyaltyUsed
    requires now.paymentStatus.Paid? <==> PaidAfter(h, row.paymentStatus.Paid?)
    ensures OrderCredit(row, h + [kind]) == OrderCredit(row, h) + Gain(now, kind)
  {
    var h' := h + [kind];
    assert h'[..|h'| - 1] == h;
    var paid := row.paymentStatus.Paid?;
    assert FirstSuccess(h', paid, |h|) <==> kind.Succeeded? && !PaidAfter(h, paid);
  }

  // What one more action adds to one order's credit
  lemma OrderCreditStep(l: Ledger, acts: seq<Action>, a: Action, o: nat)
    requires o < |l.orders| == |Run(l, acts).orders|
    ensures OrderCredit(l.orders[o], History(l, acts + [a], o)) == OrderCredit(l.orders[o], History(l, acts, o)) +
              if Target(Run(l, acts), a) == Some(o) then Gain(Run(l, acts).orders[o], a.event.kind) else 0.0
  {
    assert (acts + [a])[..|acts|] == acts;
    var h, h' := History(l, acts, o), History(l, acts + [a], o);
    if Target(Run(l, acts), a) == Some(o) {
      assert h' == h + [a.event.kind];
      OrderAfterRun(l, acts, o);
      HistoryGrows(l.orders[o], Run(l, acts).orders[o], h, a.event.kind);
    } else {
      assert h' == h;
    }
  }

  // A user's sum grows as the credit of the one order that gains
  lemma {:induction false} SumForGrows(orders: seq<OrderRow>, credits: seq<real>, credits': seq<real>, user: int, n: nat,
                                       target: Option<nat>, gain: real)
    requires n <= |orders| == |credits| == |credits'|
    requires forall o :: 0 <= o < n ==> credits'[o] == credits[o] + if target == Some(o) then gain else 0.0
    ensures SumFor(orders, credits', user, n) == SumFor(orders, credits, user, n) +
              if target.Some? && target.value < n && orders[target.value].user == user then gain else 0.0
  {
    if n > 0 {
      SumForGrows(orders, credits, credits', user, n - 1, target, gain);
    }
  }

  // What one more action adds to one user's credit
  lemma UserCreditStep(l: Ledger, acts: seq<Action>, a: Action, user: int)
    requires |l.orders| == |Run(l, acts).orders|
    ensures UserCredit(l, acts + [a], user) == UserCredit(l, acts, user) +
              match Target(Run(l, acts), a)
              case None => 0.0
              case Some(o) => if l.orders[o].user == user then Gain(Run(l, acts).orders[o], a.event.kind) else 0.0
  {
    var target := Target(Run(l, acts), a);
    var gain := if target.Some? then Gain(Run(l, acts).orders[target.value], a.event.kind) else 0.0;
    forall o | 0 <= o < |l.orders|
      ensures Credits(l, acts + [a])[o] == Credits(l, acts)[o] + if target == Some(o) then gain else 0.0
    {
      OrderCreditStep(l, acts, a, o);
    }
    SumForGrows(l.orders, Credits(l, acts), Credits(l, acts + [a]), user, |l.orders|, target, gain);
  }

  /** Every balance is its opening value plus the credits of all its user's orders, for any order and repetition of deliveries. */
  lemma {:induction false} BalanceIsHistory(l: Ledger, acts: seq<Action>, user: int)
    requires user in l.users
    ensures user in Run(l, acts).users
    ensures Run(l, acts).users[user] == l.users[user] + UserCredit(l, acts, user)
  {
    if acts == [] {
      assert forall o :: 0 <= o < |l.orders| ==> Credits(l, [])[o] == 0.0;
      NoCredit(l.orders, Credits(l, []), user, |l.orders|);
    } else {
      var before, a := acts[..|acts| - 1], acts[|acts| - 1];
      var now := Run(l, before);
      BalanceIsHistory(l, before, user);
      RunKeepsLength(l, before);
      UserCreditStep(l, before, a, user);
      assert before + [a] == acts;
      ApplyToUser(now, a, user);
      if Target(now, a).Some? {
        OrderAfterRun(l, before, Target(now, a).value);
      }
    }
  }

  lemma {:induction false} RunKeepsLength(l: Ledger, acts: seq<Action>)
    ensures |Run(l, acts).orders| == |l.orders|
  {
    if acts != [] {
      RunKeepsLength(l, acts[..|acts| - 1]);
    }
  }

  lemma {:induction false} NoCredit(orders: seq<OrderRow>, credits: seq<real>, user: int, n: nat)
    requires n <= |orders| == |credits| && forall o :: 0 <= o < n ==> credits[o] == 0.0
    ensures SumFor(orders, credits, user, n) == 0.0
  {
    if n > 0 {
      NoCredit(orders, credits, user, n - 1);
    }
  }

  lemma {:induction false} SuccessesAccrueOnce(h: seq<EventKind>)
    requires h != [] && forall i :: 0 <= i < |h| ==> h[i].Succeeded?
    ensures Accruals(h, false) == 1 && Refunds(h) == 0
  {
    var before := h[..|h| - 1];
    if before != [] {
      SuccessesAccrueOnce(before);
      assert h[|h| - 2].Succeeded?;
    }
  }

  // No event of the run cancels order `o`
  ghost predicate NeverCanceled(l: Ledger, acts: seq<Action>, o: nat) {
    forall i :: 0 <= i < |acts| && Target(Run(l, acts[..i]), acts[i]) == Some(o) ==> !acts[i].event.kind.Canceled?
  }

  lemma {:induction false} HistoryOfSuccesses(l: Ledger, acts: seq<Action>, o: nat)
    requires NeverCanceled(l, acts, o)
    ensures forall i :: 0 <= i < |History(l, acts, o)| ==> History(l, acts, o)[i].Succeeded?
  {
    if acts != [] {
      var before := acts[..|acts| - 1];
      assert forall i :: 0 <= i < |before| ==> before[i] == acts[i] && before[..i] == acts[..i];
      HistoryOfSuccesses(l, before, o);
      assert acts[..|acts| - 1] == before;
    }
  }

  lemma CreditOfSuccesses(row: OrderRow, h: seq<EventKind>)
    requires h != [] && forall i :: 0 <= i < |h| ==> h[i].Succeeded?
    requires !row.paymentStatus.Paid?
    ensures OrderCredit(row, h) == row.amount * 0.01
  {
    SuccessesAccrueOnce(h);
    assert Times(1, row.amount * 0.01) == Times(0, row.amount * 0.01) + row.amount * 0.01;
  }

  /** In any run, an unpaid order that is never canceled and succeeds, however often, earns its owner exactly 1% once. */
  lemma SuccessEarnsOnce(l: Ledger, acts: seq<Action>, o: nat)
    requires o < |l.orders| && !l.orders[o].paymentStatus.Paid? && NeverCanceled(l, acts, o)
    ensures OrderCredit(l.orders[o], History(l, acts, o)) == if History(l, acts, o) == [] then 0.0 else l.orders[o].amount * 0.01
  {
    HistoryOfSuccesses(l, acts, o);
    if History(l, acts, o) != [] {
      CreditOfSuccesses(l.orders[o], History(l, acts, o));
    }
  }

  // `n` deliveries of the same event
  function Copies(e: Event, n: nat): seq<Action> {
    if n == 0 then [] else Copies(e, n - 1) + [Deliver(e)]
  }

  lemma {:induction false} FindPaymentIn(orders: seq<OrderRow>, later: seq<OrderRow>, id: string)
    requires |orders| == |later| && forall k :: 0 <= k < |orders| ==> orders[k].paymentId == later[k].paymentId
    ensures FindPayment(orders, id) == FindPayment(later, id)
  {
    if orders != [] {
      FindPaymentIn(orders[1..], later[1..], id);
    }
  }

  /**
   Delivering `succeeded` again and again to an unpaid order leaves what one delivery does: the owner has 1% more,
   nobody else anything.
   */
  lemma {:induction false} RepeatedSuccessAccruesOnce(l: Ledger, id: string, k: nat, n: nat)
    requires FindPayment(l.orders, id) == Some(k) && !l.orders[k].paymentStatus.Paid? && n >= 1
    ensures Run(l, Copies(Event(id, Succeeded), n)) == Webhook(l, Event(id, Succeeded)).0
    ensures forall u :: u in l.users ==>
              u in Run(l, Copies(Event(id, Succeeded), n)).users
              && Run(l, Copies(Event(id, Succeeded), n)).users[u] ==
                   l.users[u] + if u == l.orders[k].user then l.orders[k].amount * 0.01 else 0.0
  {
    var e := Event(id, Succeeded);
    var acts, paid := Copies(e, n), Webhook(l, e).0;
    assert acts[..|acts| - 1] == Copies(e, n - 1) && acts[|acts| - 1] == Deliver(e);
    if n > 1 {
      RepeatedSuccessAccruesOnce(l, id, k, n - 1);
      FindPaymentIn(l.orders, paid.orders, id);
    }
  }

  lemma {:induction false} EventsBalance(h: seq<EventKind>, paidBefore: bool)
    requires forall i :: 0 <= i < |h| ==> !h[i].OtherKind?
    ensures Accruals(h, paidBefore) + (if paidBefore then 1 else 0) <= Refunds(h) + (if PaidAfter(h, paidBefore) then 1 else 0)
  {
    if h != [] {
      EventsBalance(h[..|h| - 1], paidBefore);
    }
  }

  lemma {:induction false} HistoryHasNoOther(l: Ledger, acts: seq<Action>, o: nat)
    ensures forall i :: 0 <= i < |History(l, acts, o)| ==> !History(l, acts, o)[i].OtherKind?
  {
    if acts != [] {
      HistoryHasNoOther(l, acts[..|acts| - 1], o);
    }
  }

  /**
   In any run a further accrual of an order needs a cancellation of it in between, so it accrues at most once more than
   it is canceled.
   */
  lemma AccrualsBounded(l: Ledger, acts: seq<Action>, o: nat)
    requires o < |l.orders|
    ensures |Run(l, acts).orders| == |l.orders|
    ensures var h := History(l, acts, o);
            Accruals(h, l.orders[o].paymentStatus.Paid?) + (if l.orders[o].paymentStatus.Paid? then 1 else 0)
              <= Refunds(h) + if Run(l, acts).orders[o].paymentStatus.Paid? then 1 else 0
  {
    HistoryHasNoOther(l, acts, o);
    EventsBalance(History(l, acts, o), l.orders[o].paymentStatus.Paid?);
    OrderAfterRun(l, acts, o);
  }

  // ----- Payment ids -----

  ghost predicate UniqueIds(orders: seq<OrderRow>) {
    forall i, j :: 0 <= i < j < |orders| && orders[i].paymentId.Some? ==> orders[i].paymentId != orders[j].paymentId
  }

  ghost predicate Holds(orders: seq<OrderRow>, id: string) {
    exists k :: 0 <= k < |orders| && orders[k].paymentId == Some(id)
  }

  ghost predicate Issued(acts: seq<Action>, id: string) {
    exists j :: 0 <= j < |acts| && acts[j].Store? && acts[j].provider == Some(id)
  }

  // The provider never repeats an id, nor one already stored
  ghost predicate FreshIds(l: Ledger, acts: seq<Action>) {
    forall i :: 0 <= i < |acts| && acts[i].Store? && acts[i].provider.Some? ==>
      !Holds(l.orders, acts[i].provider.value) && !Issued(acts[..i], acts[i].provider.value)
  }

  lemma FreshPrefix(l: Ledger, acts: seq<Action>)
    requires FreshIds(l, acts) && acts != []
    ensures FreshIds(l, acts[..|acts| - 1])
  {
    var before := acts[..|acts| - 1];
    forall i | 0 <= i < |before| && before[i].Store? && before[i].provider.Some?
      ensures !Holds(l.orders, before[i].provider.value) && !Issued(before[..i], before[i].provider.value)
    {
      assert acts[i] == before[i] && before[..i] == acts[..i];
    }
  }

  lemma {:induction false} IdsComeFromSomewhere(l: Ledger, acts: seq<Action>, id: string)
    requires Holds(Run(l, acts).orders, id)
    ensures Holds(l.orders, id) || Issued(acts, id)
  {
    if acts != [] {
      var before, a := acts[..|acts| - 1], acts[|acts| - 1];
      if Holds(Run(l, before).orders, id) {
        IdsComeFromSomewhere(l, before, id);
        if Issued(before, id) {
          var j :| 0 <= j < |before| && before[j].Store? && before[j].provider == Some(id);
          assert acts[j] == before[j];
        }
      } else {
        var k :| 0 <= k < |Run(l, acts).orders| && Run(l, acts).orders[k].paymentId == Some(id);
        assert acts[|acts| - 1].Store? && acts[|acts| - 1].provider == Some(id);
      }
    }
  }

  /** With fresh provider ids no two orders ever share one, so the webhook's lookup has at most one match. */
  lemma {:induction false} IdsStayUnique(l: Ledger, acts: seq<Action>)
    requires UniqueIds(l.orders) && FreshIds(l, acts)
    ensures UniqueIds(Run(l, acts).orders)
  {
    if acts != [] {
      var before, a := acts[..|acts| - 1], acts[|acts| - 1];
      FreshPrefix(l, acts);
      IdsStayUnique(l, before);
      if a.Store? && a.provider.Some? {
        assert acts[..|acts| - 1] == before;
        if Holds(Run(l, before).orders, a.provider.value) {
          IdsComeFromSomewhere(l, before, a.provider.value);
          assert false;
        }
        assert forall k :: 0 <= k < |Run(l, before).orders| ==> Run(l, before).orders[k].paymentId != a.provider;
      }
    }
  }

  lemma {:induction false} RunConcat(l: Ledger, a: seq<Action>, b: seq<Action>)
    ensures Run(l, a + b) == Run(Run(l, a), b)
  {
    if b == [] {
      assert a + b == a;
    } else {
      assert (a + b)[..|a + b| - 1] == a + b[..|b| - 1];
      RunConcat(l, a, b[..|b| - 1]);
    }
  }

  // Step `m` of the run is the read that opened `d`
  ghost predicate OpenedAt(l: Ledger, acts: seq<Action>, call: int, d: Draft, m: nat) {
    && m < |acts| && acts[m] == Read(call, d.order)
    && Selected(Run(l, acts[..m]), call, d.order).1 == Ok(d)
  }

  lemma OpenedAtStays(l: Ledger, acts: seq<Action>, a: Action, call: int, d: Draft, m: nat)
    requires OpenedAt(l, acts, call, d, m)
    ensures OpenedAt(l, acts + [a], call, d, m)
  {
    assert (acts + [a])[..m] == acts[..m];
  }

  // A draft was open before this step, or this step's read opened it
  lemma DraftHow(l: Ledger, a: Action, call: int)
    requires call in Apply(l, a).drafts
    ensures var d := Apply(l, a).drafts[call];
            if call in l.drafts then d == l.drafts[call] else a == Read(call, d.order) && Selected(l, call, d.order).1 == Ok(d)
  {}

  lemma {:induction false} DraftWasRead(l: Ledger, acts: seq<Action>, call: int) returns (m: nat)
    requires l.drafts == map[] && call in Run(l, acts).drafts
    ensures OpenedAt(l, acts, call, Run(l, acts).drafts[call], m)
  {
    assert acts != [];
    var before, a := acts[..|acts| - 1], acts[|acts| - 1];
    assert acts == before + [a];
    DraftHow(Run(l, before), a, call);
    if call in Run(l, before).drafts {
      m := DraftWasRead(l, before, call);
      OpenedAtStays(l, before, a, call, Run(l, before).drafts[call], m);
    } else {
      m := |before|;
    }
  }

  // An order that is pending stays so exactly until an event acts on it
  lemma PendingIffNoEvent(l: Ledger, acts: seq<Action>, o: nat)
    requires o < |l.orders| && l.orders[o].paymentStatus.Pending?
    ensures |Run(l, acts).orders| == |l.orders|
    ensures Run(l, acts).orders[o].paymentStatus.Pending? <==> History(l, acts, o) == []
  {
    RunKeepsLength(l, acts);
    LastEventSettles(l, acts, o);
  }

  /**
   An order's id changes only by the store of a creation whose read, at step `m`, found the payment pending; it is
   still pending then exactly when no event has acted on the order in between.
   */
  lemma IdChangedByPendingRead(l: Ledger, acts: seq<Action>, a: Action, k: nat) returns (m: nat)
    requires l.drafts == map[] && k < |l.orders| == |Run(l, acts).orders|
    requires Apply(Run(l, acts), a).orders[k].paymentId != Run(l, acts).orders[k].paymentId
    ensures a.Store? && a.provider == Apply(Run(l, acts), a).orders[k].paymentId
    ensures m < |acts| && acts[m] == Read(a.call, k) && k < |Run(l, acts[..m]).orders|
    ensures Run(l, acts[..m]).orders[k].paymentStatus.Pending?
    ensures Run(l, acts).orders[k].paymentStatus.Pending? <==> History(Run(l, acts[..m]), acts[m..], k) == []
  {
    m := DraftWasRead(l, acts, a.call);
    RunConcat(l, acts[..m], acts[m..]);
    assert acts[..m] + acts[m..] == acts;
    PendingIffNoEvent(Run(l, acts[..m]), acts[m..], k);
  }

  const SOUP := OrderRow(7, 100.0, Some(0.0), [OrderLine(Some("Soup"), 1, 100.0)], "new", Pending, Some("p1"), None)
  const LATE_STORE := [Read(1, 0), Deliver(Event("p1", Succeeded)), Store(1, Some("p2"))]

  lemma RunNext(l: Ledger, acts: seq<Action>, k: nat)
    requires k < |acts|
    ensures Run(l, acts[..k + 1]) == Apply(Run(l, acts[..k]), acts[k])
  {
    assert acts[..k + 1][..k] == acts[..k];
  }

  lemma SoupRead(l: Ledger)
    requires l == Ledger([SOUP], map[7 := 0.0], map[])
    ensures var l1 := Apply(l, Read(1, 0));
            l1.orders == [SOUP] && l1.users == map[7 := 0.0] && 1 in l1.drafts && l1.drafts[1].order == 0
  {}

  lemma SoupPaid(l: Ledger)
    requires l.orders == [SOUP] && l.users == map[7 := 0.0]
    ensures Apply(l, Deliver(Event("p1", Succeeded))) ==
              l.(orders := [SOUP.(paymentStatus := Paid, status := "confirmed")], users := map[7 := 1.0])
  {}

  /**
   An order paid under its first id while a second creation is open ends up paid under the second, and later events of
   the first are lost.
   */
  lemma PaidOrderGetsNewId()
    ensures var l := Run(Ledger([SOUP], map[7 := 0.0], map[]), LATE_STORE);
            && |l.orders| == 1 && l.orders[0].paymentStatus.Paid? && l.orders[0].paymentId == Some("p2")
            && l.users == map[7 := 1.0]
            && Webhook(l, Event("p1", Canceled)) == (l, true)
  {
    var l0 := Ledger([SOUP], map[7 := 0.0], map[]);
    RunNext(l0, LATE_STORE, 0);
    RunNext(l0, LATE_STORE, 1);
    RunNext(l0, LATE_STORE, 2);
    assert LATE_STORE[..3] == LATE_STORE && LATE_STORE[..0] == [];
    SoupRead(l0);
    SoupPaid(Run(l0, LATE_STORE[..1]));
  }

  lemma {:induction false} OldIdStaysPut(l: Ledger, acts: seq<Action>, id: string, k: nat, m: nat)
    requires UniqueIds(l.orders) && FreshIds(l, acts)
    requires k < |l.orders| && l.orders[k].paymentId == Some(id)
    requires m < |l.orders| && m != k
    ensures m < |Run(l, acts).orders| && Run(l, acts).orders[m].paymentId != Some(id)
  {
    if acts != [] {
      FreshPrefix(l, acts);
      OldIdStaysPut(l, acts[..|acts| - 1], id, k, m);
      assert Holds(l.orders, id);
    } else if m < k {
      assert l.orders[m].paymentId.Some? ==> l.orders[m].paymentId != l.orders[k].paymentId;
    }
  }

  /** Once an order's id has been replaced, events that carry the old id change nothing. */
  lemma ReplacedIdIsInert(l: Ledger, acts: seq<Action>, id: string, k: nat, kind: EventKind)
    requires UniqueIds(l.orders) && FreshIds(l, acts)
    requires k < |l.orders| && l.orders[k].paymentId == Some(id)
    requires k < |Run(l, acts).orders| && Run(l, acts).orders[k].paymentId != Some(id)
    ensures Webhook(Run(l, acts), Event(id, kind)) == (Run(l, acts), true)
  {
    RunKeepsLength(l, acts);
    forall m | 0 <= m < |l.orders| ensures Run(l, acts).orders[m].paymentId != Some(id) {
      if m != k {
        OldIdStaysPut(l, acts, id, k, m);
      }
    }
  }

  // ----- Charges and receipts of orders placed at checkout -----

  function LinesTotal(lines: seq<OrderLine>): real {
    if lines == [] then 0.0 else lines[0].price * lines[0].quantity as real + LinesTotal(lines[1..])
  }

  function ReceiptTotal(receipt: seq<ReceiptLine>): real {
    if receipt == [] then 0.0 else receipt[0].value * receipt[0].quantity as real + ReceiptTotal(receipt[1..])
  }

  lemma {:induction false} ReceiptTotalIsLinesTotal(lines: seq<OrderLine>)
    requires Named(lines)
    ensures ReceiptTotal(Receipt(lines)) == LinesTotal(lines)
  {
    if lines != [] {
      assert Receipt(lines)[1..] == Receipt(lines[1..]);
      ReceiptTotalIsLinesTotal(lines[1..]);
    }
  }

  lemma {:induction false} StoredLinesTotal(items: seq<ItemRequest>)
    ensures LinesTotal(Checkout.StoredLines(items)) == Checkout.Total(items)
  {
    if items != [] {
      assert Checkout.StoredLines(items)[1..] == Checkout.StoredLines(items[1..]);
      StoredLinesTotal(items[1..]);
    }
  }

  // The same lines, given names
  ghost predicate SameLines(named: seq<OrderLine>, lines: seq<OrderLine>) {
    && |named| == |lines| && Named(named)
    && forall k :: 0 <= k < |lines| ==> named[k].quantity == lines[k].quantity && named[k].price == lines[k].price
  }

  lemma {:induction false} SameLinesTotal(named: seq<OrderLine>, lines: seq<OrderLine>)
    requires SameLines(named, lines)
    ensures LinesTotal(named) == LinesTotal(lines)
  {
    if lines != [] {
      SameLinesTotal(named[1..], lines[1..]);
    }
  }

  /** An accepted checkout is never refused for its amount, and its receipt sums to the charge plus the points used. */
  lemma AcceptedOrderIsChargeable(c: Catalogue, t: Tables, req: OrderRequest, key: Option<string>, named: seq<OrderLine>)
    requires Checkout.ValidRequest(req) && req.points.Some?
    requires Checkout.Place(c, t, req, key).1 == Ok(Checkout.Created(|t.orders|))
    requires SameLines(named, Checkout.StoredLines(req.items))
    ensures var row := Checkout.NewOrder(req).(lines := named);
            && Charge(row).Ok?
            && Charge(row).value >= row.amount / 2.0
            && ReceiptTotal(Receipt(named)) == Charge(row).value + req.points.value
  {
    Checkout.AcceptedAmount(c, t, req, key);
    ReceiptTotalIsLinesTotal(named);
    SameLinesTotal(named, Checkout.StoredLines(req.items));
    StoredLinesTotal(req.items);
  }

  // NUMERIC(12,2) columns hold whole kopecks
  function ToKopecks(x: real): real {
    OrderTotals.Round(x * 100.0) as real / 100.0
  }

  function Rounded(row: OrderRow): OrderRow {
    row.(amount := ToKopecks(row.amount),
         loyaltyUsed := if row.loyaltyUsed.None? then None else Some(ToKopecks(row.loyaltyUsed.value)))
  }

  lemma RoundedCharge(total: real, points: real)
    requires total > 0.0 && 0.0 <= points <= total / 2.0
    ensures OrderTotals.Round(total) > OrderTotals.Round(points) <==> total >= 1.5 || (total >= 0.5 && points < 0.5)
  {}

  /**
   With amounts rounded on storage, an accepted checkout is refused for its amount exactly when its total is below half
   a kopeck, or below one and a half with half a kopeck or more of it paid in points.
   */
  lemma RoundedOrderIsChargeableIff(c: Catalogue, t: Tables, req: OrderRequest, key: Option<string>, named: seq<OrderLine>)
    requires Checkout.ValidRequest(req) && req.points.Some?
    requires Checkout.Place(c, t, req, key).1 == Ok(Checkout.Created(|t.orders|))
    requires SameLines(named, Checkout.StoredLines(req.items))
    ensures var total, charge := Checkout.Total(req.items), Charge(Rounded(Checkout.NewOrder(req).(lines := named)));
            if total >= 0.015 || (total >= 0.005 && req.points.value < 0.005) then charge.Ok? else charge == Err(InvalidAmount)
  {
    Checkout.AcceptedAmount(c, t, req, key);
    RoundedCharge(Checkout.Total(req.items) * 100.0, req.points.value * 100.0);
  }

  /** An order of one kopeck, half of it paid in points, is accepted and then not chargeable. */
  lemma OneKopeckOrderRefused()
    ensures var c := Catalogue(map[1 := 0.01], map[], None, []);
            var t := Tables(map[], map[7 := 1.0], [], [], []);
            var req := OrderRequest(7, [ItemRequest(1, 1, [], 0.01)], Some(0.005));
            && Checkout.ValidRequest(req)
            && Checkout.Place(c, t, req, None).1 == Ok(Checkout.Created(0))
            && Charge(Rounded(Checkout.NewOrder(req).(lines := [OrderLine(Some("Match"), 1, 0.01)]))) == Err(InvalidAmount)
  {
    var c := Catalogue(map[1 := 0.01], map[], None, []);
    var t := Tables(map[], map[7 := 1.0], [], [], []);
    var items := [ItemRequest(1, 1, [], 0.01)];
    var req := OrderRequest(7, items, Some(0.005));
    assert items[1..] == [];
    assert Checkout.Total(items) == 0.01;
    Checkout.PriceErrorIff(c, items);
    assert Stock.Needs(c.recipes, items) == [];
    assert Checkout.Place(c, t, req, None).1 == Ok(Checkout.Created(0));
    RoundedOrderIsChargeableIff(c, t, req, None, [OrderLine(Some("Match"), 1, 0.01)]);
  }

  /** As stored, such an order is refused before the provider is called: its lines have no name, or its points are null. */
  lemma StoredCheckoutOrderIsRefused(c: Catalogue, t: Tables, req: OrderRequest, key: Option<string>)
    requires Checkout.ValidRequest(req)
    requires Checkout.Place(c, t, req, key).1 == Ok(Checkout.Created(|t.orders|))
    ensures Charge(Checkout.NewOrder(req)) == Err(if req.points.None? then NullPoints else UnnamedLine)
  {
    Checkout.AcceptedAmount(c, t, req, key);
    assert Checkout.StoredLines(req.items)[0].name.None?;
  }

  // ----- The handlers -----

  // What the provider answers to one poll
  datatype PollReply = SaysSucceeded | SaysCanceled | SaysOther | Unreachable

  // One turn of the polling loop: what the other handlers do while it sleeps or asks, and the reply
  datatype Poll = Poll(others: seq<Action>, reply: PollReply)

  // Everything the others do up to and including the turns in `polls`
  function Others(polls: seq<Poll>): seq<Action> {
    if polls == [] then [] else Others(polls[..|polls| - 1]) + polls[|polls| - 1].others
  }

  predicate Decides(l: Ledger, id: string, reply: PollReply) {
    || reply.SaysSucceeded?
    || (reply.SaysCanceled? && Webhook(l, Event(id, Canceled)).1)
  }

  // Turn `k` ends the polling of a ledger that was `l` when it began
  predicate EndsAt(l: Ledger, id: string, polls: seq<Poll>, k: nat)
    requires k < |polls|
  {
    Decides(Run(l, Others(polls[..k + 1])), id, polls[k].reply)
  }

  function Told(reply: PollReply): EventKind {
    if reply.SaysSucceeded? then Succeeded else Canceled
  }

  // After `k` turns nothing has ended the polling, and only the others have changed the ledger
  ghost predicate StillOpen(l: Ledger, id: string, polls: seq<Poll>, k: nat, now: Ledger)
    requires k <= |polls|
  {
    now == Run(l, Others(polls[..k])) && forall j :: 0 <= j < k ==> !EndsAt(l, id, polls, j)
  }

  // Turn `k` is the first to end the polling, and `after` is the ledger it leaves
  ghost predicate EndedAt(l: Ledger, id: string, polls: seq<Poll>, k: nat, after: Ledger)
    requires k < |polls|
  {
    && EndsAt(l, id, polls, k) && (forall j :: 0 <= j < k ==> !EndsAt(l, id, polls, j))
    && after == Run(l, Others(polls[..k + 1]) + [Deliver(Event(id, Told(polls[k].reply)))])
  }

  lemma Turn(l: Ledger, id: string, polls: seq<Poll>, k: nat, now: Ledger)
    requires k < |polls| && StillOpen(l, id, polls, k, now)
    ensures var next, reply := Run(now, polls[k].others), polls[k].reply;
            if Decides(next, id, reply) then EndedAt(l, id, polls, k, Webhook(next, Event(id, Told(reply))).0)
            else StillOpen(l, id, polls, k + 1, next)
  {
    var next, e := Run(now, polls[k].others), Event(id, Told(polls[k].reply));
    assert polls[..k + 1][..k] == polls[..k];
    RunConcat(l, Others(polls[..k]), polls[k].others);
    assert next == Run(l, Others(polls[..k + 1]));
    RunConcat(l, Others(polls[..k + 1]), [Deliver(e)]);
    assert Run(next, [Deliver(e)]) == Apply(Run(next, []), Deliver(e));
  }

  /** A poll decides exactly when the provider reports success, or a cancellation that the webhook handler can carry out. */
  lemma DecidesIff(l: Ledger, id: string, reply: PollReply)
    ensures Decides(l, id, reply) <==>
              || reply == SaysSucceeded
              || (&& reply == SaysCanceled
                  && forall k :: FindPayment(l.orders, id) == Some(k) && k < |l.orders| ==> l.orders[k].loyaltyUsed.Some?)
  {
    WebhookRaisesIff(l, Event(id, Canceled));
  }

  lemma WebhookKeepsIds(l: Ledger, e: Event)
    ensures FindPayment(Webhook(l, e).0.orders, e.paymentId) == FindPayment(l.orders, e.paymentId)
  {
    FindPaymentIn(l.orders, Webhook(l, e).0.orders, e.paymentId);
  }

  /**
   When polling ends, the order with the id is paid if the last reply reported success, and failed and cancelled if it
   reported cancellation.
   */
  lemma EndedAtSettles(l: Ledger, id: string, polls: seq<Poll>, k: nat, after: Ledger, o: nat)
    requires k < |polls| && EndedAt(l, id, polls, k, after) && FindPayment(after.orders, id) == Some(o)
    ensures polls[k].reply == SaysSucceeded || polls[k].reply == SaysCanceled
    ensures polls[k].reply == SaysSucceeded ==> after.orders[o].paymentStatus == Paid
    ensures polls[k].reply == SaysCanceled ==> after.orders[o].paymentStatus == Failed && after.orders[o].status == "cancelled"
  {
    var now := Run(l, Others(polls[..k + 1]));
    var e := Event(id, Told(polls[k].reply));
    RunConcat(l, Others(polls[..k + 1]), [Deliver(e)]);
    assert Run(now, [Deliver(e)]) == Apply(Run(now, []), Deliver(e));
    WebhookKeepsIds(now, e);
    DecidesIff(now, id, polls[k].reply);
  }

  /** The worker on one tenant's tables; `drafts` are the local variables of its open creations. */
  class PaymentWorker {
    const db: Database
    var drafts: map<int, Draft>

    constructor (db: Database)
      ensures this.db == db && drafts == map[]
    {
      this.db, drafts := db, map[];
    }

    function View(): Ledger
      reads this, db
    {
      Ledger(db.orders, db.users, drafts)
    }

    /** From the SELECT to the call of the provider. */
    method ReadOrder(call: int, order: nat) returns (r: Result<Draft, PaymentError>)
      modifies this`drafts
      ensures (View(), r) == Selected(old(View()), call, order)
    {
      if order >= |db.orders| {
        return Err(UnknownOrder);
      }
      var row := db.orders[order];
      var charge := Charge(row);
      if charge.Err? {
        return Err(charge.error);
      }
      var d := Draft(order, charge.value, Receipt(row.lines));
      drafts := drafts[call := d];
      r := Ok(d);
    }

    /** From the provider's answer to the end of the transaction. */
    method StoreId(call: int, provider: Option<string>) returns (r: Result<Payment, PaymentError>)
      requires call in drafts
      modifies this`drafts, db`orders
      ensures (View(), r) == Stored(old(View()), call, provider)
    {
      var d := drafts[call];
      drafts := drafts - {call};
      if provider.None? {
        return Err(ProviderFailed);
      }
      if d.order < |db.orders| {
        db.orders := db.orders[d.order := db.orders[d.order].(paymentId := provider)];
      }
      r := Ok(Payment(provider.value, d.charge, d.receipt));
    }

    method ProcessPayment(call: int, order: nat, provider: Option<string>) returns (r: Result<Payment, PaymentError>)
      modifies this`drafts, db`orders
      ensures (View(), r) == Create(old(View()), call, order, provider)
    {
      var read := ReadOrder(call, order);
      if read.Err? {
        return Err(read.error);
      }
      r := StoreId(call, provider);
    }

    method HandleWebhook(e: Event) returns (ok: bool)
      modifies db`orders, db`users
      ensures (View(), ok) == Webhook(old(View()), e)
    {
      var found := FindPayment(db.orders, e.paymentId);
      if found.None? {
        return true;
      }
      var row := db.orders[found.value];
      if row.paymentStatus.Paid? && e.kind.Succeeded? {
        return true;
      }
      if e.kind.Succeeded? {
        db.orders := db.orders[found.value := row.(paymentStatus := Paid, status := "confirmed")];
        db.users := Credit(db.users, row.user, row.amount * 0.01);
      } else if e.kind.Canceled? {
        if row.loyaltyUsed.None? {
          return false;
        }
        if row.loyaltyUsed.value > 0.0 {
          db.users := Credit(db.users, row.user, row.loyaltyUsed.value);
        }
        db.orders := db.orders[found.value := row.(paymentStatus := Failed, status := "cancelled")];
      }
      ok := true;
    }

    method Step(a: Action)
      modifies this`drafts, db`orders, db`users
      ensures View() == Apply(old(View()), a)
    {
      match a {
        case Read(call, order) =>
          if call !in drafts {
            var _ := ReadOrder(call, order);
          }
        case Store(call, provider) =>
          if call in drafts {
            var _ := StoreId(call, provider);
          }
        case Deliver(e) =>
          var _ := HandleWebhook(e);
      }
    }

    /** The other handlers at work. */
    method Perform(acts: seq<Action>)
      modifies this`drafts, db`orders, db`users
      ensures View() == Run(old(View()), acts)
    {
      for i := 0 to |acts|
        invariant View() == Run(old(View()), acts[..i])
      {
        assert acts[..i + 1][..i] == acts[..i];
        Step(acts[i]);
      }
      assert acts[..|acts|] == acts;
    }

    /** One turn of the loop; a webhook that raises is caught and leaves everything as it was. */
    method PollOnce(id: string, reply: PollReply) returns (settled: bool)
      modifies db`orders, db`users
      ensures settled == Decides(old(View()), id, reply)
      ensures View() == if settled then Webhook(old(View()), Event(id, Told(reply))).0 else old(View())
    {
      settled := false;
      if reply.SaysSucceeded? {
        settled := HandleWebhook(Event(id, Succeeded));
      } else if reply.SaysCanceled? {
        settled := HandleWebhook(Event(id, Canceled));
      }
    }

    /**
     Polling adds to what the others do at most one delivery: that of the first decisive reply, as the webhook would
     have it.
     */
    method PollPaymentStatus(id: string, polls: seq<Poll>) returns (settled: bool)
      requires |polls| == 12
      modifies this`drafts, db`orders, db`users
      ensures settled ==> exists k :: 0 <= k < 12 && EndedAt(old(View()), id, polls, k, View())
      ensures !settled ==> StillOpen(old(View()), id, polls, 12, View())
    {
      ghost var l := View();
      for i := 0 to 12
        invariant StillOpen(l, id, polls, i, View())
      {
        Turn(l, id, polls, i, View());
        Perform(polls[i].others);
        settled := PollOnce(id, polls[i].reply);
        if settled {
          return;
        }
      }
      settled := false;
    }
  }
}
