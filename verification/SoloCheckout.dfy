/** A checkout that runs with no other transaction open does to the rows what the handler's specification says. */
module SoloCheckout {
  import opened Wrappers
  import opened Store
  import opened Stock
  import C = Checkout
  import Payments
  import opened Transactions

  type Values = map<Row, real>

  // The rows `v` are these stock levels and balances
  ghost predicate Represents(v: Values, stock: Levels, users: map<int, real>) {
    && (forall i :: Ingredient(i) in v <==> i in stock)
    && (forall i :: Ingredient(i) in v ==> v[Ingredient(i)] == stock[i])
    && (forall u :: User(u) in v <==> u in users)
    && (forall u :: User(u) in v ==> v[User(u)] == users[u])
  }

  // The transaction that a request starts once its prices and minimum have been accepted
  function TxOf(c: Catalogue, req: OrderRequest): Tx {
    Checkout(req.user, C.Spent(req), C.Total(req.items), Needs(c.recipes, req.items))
  }

  function ExecAll(s: Db, id: int, n: nat): Db
    decreases n
  {
    if n == 0 then s else ExecAll(Apply(s, Exec(id)), id, n - 1)
  }

  function Solo(s: Db, id: int, tx: Tx): Db {
    Apply(ExecAll(Apply(s, Begin(id, tx)), id, |Script(tx)|), Commit(id))
  }

  // ----- Scripts read as plain programs over the values they see -----

  function Interpret1(v: Values, stmt: Stmt): Option<Values> {
    match stmt
    case Require(holds) => if holds then Some(v) else None
    case SelectAtLeast(r, amount) => if r in v && v[r] >= amount then Some(v) else None
    case LockAtLeast(r, amount) => if r in v && v[r] >= amount then Some(v) else None
    case Add(r, delta) => Some(if r in v then v[r := v[r] + delta] else v)
    case AddExisting(r, delta) => if r in v then Some(v[r := v[r] + delta]) else None
  }

  function Interpret(v: Values, script: seq<Stmt>): Option<Values> {
    if script == [] then Some(v)
    else match Interpret1(v, script[0])
      case None => None
      case Some(v') => Interpret(v', script[1..])
  }

  function Seen(s: Db, x: Session): Values {
    map r | r in s.rows :: s.rows[r] + Uncommitted(x, r)
  }

  // The only open session has reached `pc` and sees `v`
  ghost predicate At(s: Db, base: Db, id: int, tx: Tx, pc: nat, v: Values) {
    && s.rows == base.rows && s.orders == base.orders && s.log == base.log
    && s.sessions.Keys == {id}
    && s.sessions[id].tx == tx && s.sessions[id].pc == pc && Seen(s, s.sessions[id]) == v
  }

  lemma SeenAfterUpdate(s: Db, x: Session, r: Row, delta: real)
    requires r in s.rows
    ensures Seen(s, Updated(x, r, delta)) == Seen(s, x)[r := Seen(s, x)[r] + delta]
  {}

  lemma OneStep(s: Db, base: Db, id: int, tx: Tx, pc: nat, v: Values)
    requires At(s, base, id, tx, pc, v) && pc < |Script(tx)|
    ensures match Interpret1(v, Script(tx)[pc])
            case None => Apply(s, Exec(id)) == base.(sessions := map[])
            case Some(v') => At(Apply(s, Exec(id)), base, id, tx, pc + 1, v')
  {
    ExecuteAlone(s, base, id, tx, pc, v, Script(tx)[pc]);
  }

  lemma AdvanceAlone(s: Db, base: Db, id: int, tx: Tx, pc: nat, v: Values, y: Session)
    requires At(s, base, id, tx, pc, v) && y.tx == tx && y.pc == pc
    ensures At(Advance(s, id, y), base, id, tx, pc + 1, Seen(s, y))
  {
    var s' := Advance(s, id, y);
    assert s'.sessions.Keys == {id};
    assert Seen(s', s'.sessions[id]) == Seen(s, y);
  }

  lemma ExecuteAlone(s: Db, base: Db, id: int, tx: Tx, pc: nat, v: Values, stmt: Stmt)
    requires At(s, base, id, tx, pc, v)
    ensures match Interpret1(v, stmt)
            case None => Execute(s, id, stmt) == base.(sessions := map[])
            case Some(v') => At(Execute(s, id, stmt), base, id, tx, pc + 1, v')
  {
    var x := s.sessions[id];
    assert Close(s, id) == base.(sessions := map[]);
    if stmt.Require? || stmt.SelectAtLeast? || (stmt.Add? && stmt.row !in s.rows) {
      AdvanceAlone(s, base, id, tx, pc, v, x);
    } else if stmt.row in s.rows {
      assert !Blocked(s, id, stmt.row);
      if stmt.LockAtLeast? {
        assert Seen(s, x.(held := x.held + {stmt.row})) == v;
        AdvanceAlone(s, base, id, tx, pc, v, x.(held := x.held + {stmt.row}));
      } else {
        SeenAfterUpdate(s, x, stmt.row, stmt.delta);
        AdvanceAlone(s, base, id, tx, pc, v, Updated(x, stmt.row, stmt.delta));
      }
    }
  }

  lemma {:induction false} ClosedStays(s: Db, id: int, n: nat)
    requires id !in s.sessions
    ensures ExecAll(s, id, n) == s
  {
    if n > 0 {
      ClosedStays(s, id, n - 1);
    }
  }

  lemma {:induction false} RunAlone(s: Db, base: Db, id: int, tx: Tx, pc: nat, v: Values)
    requires At(s, base, id, tx, pc, v) && pc <= |Script(tx)|
    ensures var s' := ExecAll(s, id, |Script(tx)| - pc);
            match Interpret(v, Script(tx)[pc..])
            case None => s' == base.(sessions := map[])
            case Some(v') => At(s', base, id, tx, |Script(tx)|, v')
    decreases |Script(tx)| - pc
  {
    if pc < |Script(tx)| {
      OneStep(s, base, id, tx, pc, v);
      assert Script(tx)[pc..][1..] == Script(tx)[pc + 1..];
      var next, left := Apply(s, Exec(id)), |Script(tx)| - pc - 1;
      assert ExecAll(s, id, left + 1) == ExecAll(next, id, left);
      match Interpret1(v, Script(tx)[pc]) {
        case None =>
          ClosedStays(next, id, left);
        case Some(v') =>
          RunAlone(next, base, id, tx, pc + 1, v');
      }
    }
  }

  // ----- The checkout script -----

  lemma InterpretThree(v: Values, a: Stmt, b: Stmt, c: Stmt)
    ensures Interpret(v, [a, b, c]) ==
              match Interpret1(v, a)
              case None => None
              case Some(v1) => match Interpret1(v1, b) case None => None case Some(v2) => Interpret1(v2, c)
  {
    assert [a, b, c][1..] == [b, c] && [b, c][1..] == [c];
    match Interpret1(v, a)
    case None =>
    case Some(v1) =>
      match Interpret1(v1, b)
      case None =>
      case Some(v2) =>
        assert Interpret(v2, [c]) == Interpret1(v2, c);
  }

  lemma {:induction false} InterpretConcat(v: Values, a: seq<Stmt>, b: seq<Stmt>)
    ensures Interpret(v, a + b) ==
              match Interpret(v, a) case None => None case Some(v') => Interpret(v', b)
  {
    if a == [] {
      assert a + b == b;
    } else {
      assert (a + b)[1..] == a[1..] + b;
      if Interpret1(v, a[0]).Some? {
        InterpretConcat(Interpret1(v, a[0]).value, a[1..], b);
      }
    }
  }

  lemma {:induction false} InterpretReserve(v: Values, stock: Levels, users: map<int, real>, needs: seq<Need>)
    requires Represents(v, stock, users)
    ensures var r := Interpret(v, ReserveScript(needs));
            && r.Some? == Reserve(stock, needs).1
            && (r.Some? ==> Represents(r.value, Reserve(stock, needs).0, users))
  {
    if needs != [] {
      var n := needs[0];
      var r := Ingredient(n.ingredient);
      var script := ReserveScript(needs);
      assert script[0] == SelectAtLeast(r, n.grams) && script[1..][0] == Add(r, -n.grams);
      assert script[1..][1..] == ReserveScript(needs[1..]);
      if r in v && v[r] >= n.grams {
        var lower := stock[n.ingredient := stock[n.ingredient] - n.grams];
        var v' := v[r := v[r] + -n.grams];
        assert Interpret(v, script) == Interpret(v', ReserveScript(needs[1..]));
        InterpretReserve(v', lower, users, needs[1..]);
      }
    }
  }

  lemma InterpretSpend(v: Values, stock: Levels, users: map<int, real>, req: OrderRequest, total: real)
    requires Represents(v, stock, users)
    ensures var r := Interpret(v, SpendScript(req.user, C.Spent(req), total));
            && r.Some? == C.LoyaltyError(users, req, total).None?
            && (r.Some? ==> Represents(r.value, stock, C.UsersAfter(users, req)))
  {
    if C.Spends(req) {
      var u, points := User(req.user), C.Spent(req);
      InterpretThree(v, LockAtLeast(u, points), Require(points <= total * 0.5), Add(u, -points));
      assert u in v <==> req.user in users;
    }
  }

  lemma CheckoutScript(v: Values, c: Catalogue, t: Tables, req: OrderRequest)
    requires Represents(v, t.stock, t.users)
    ensures var r := Interpret(v, Script(TxOf(c, req)));
            var (stock, reserved) := Reserve(t.stock, Needs(c.recipes, req.items));
            && (r.Some? <==> reserved && C.LoyaltyError(t.users, req, C.Total(req.items)).None?)
            && (r.Some? ==> Represents(r.value, stock, C.UsersAfter(t.users, req)))
  {
    var tx := TxOf(c, req);
    InterpretConcat(v, ReserveScript(tx.needs), SpendScript(tx.user, tx.points, tx.total));
    InterpretReserve(v, t.stock, t.users, tx.needs);
    var r := Interpret(v, ReserveScript(tx.needs));
    if r.Some? {
      InterpretSpend(r.value, Reserve(t.stock, tx.needs).0, t.users, req, tx.total);
    }
  }

  // The committed orders of the interleaved model are those of the ledger
  ghost predicate SameOrders(orders: seq<PlacedOrder>, rows: seq<OrderRow>) {
    && |orders| == |rows|
    && forall o :: 0 <= o < |rows| ==>
         orders[o] == PlacedOrder(rows[o].user, rows[o].amount, C.PointsUsed(rows[o]))
  }

  /** Run alone, a transaction commits what its script computes on the committed rows, or changes nothing. */
  lemma SoloIsInterpret(s: Db, id: int, tx: Tx)
    requires s.sessions == map[] && Startable(s, tx)
    ensures var s', r := Solo(s, id, tx), Interpret(s.rows, Script(tx));
            && s'.sessions == map[]
            && (r.None? ==> s' == s)
            && (r.Some? ==>
                  && s'.rows == r.value && s'.log == s.log + [Committed(tx)]
                  && s'.orders == s.orders + if tx.Checkout? then [PlacedOrder(tx.user, tx.total, tx.points)] else [])
  {
    var begun := Apply(s, Begin(id, tx));
    assert Seen(begun, begun.sessions[id]) == s.rows;
    RunAlone(begun, s, id, tx, 0, s.rows);
    assert Script(tx)[0..] == Script(tx);
  }

  lemma SameOrdersGrow(orders: seq<PlacedOrder>, rows: seq<OrderRow>, req: OrderRequest)
    requires SameOrders(orders, rows) && C.ValidRequest(req)
    ensures SameOrders(orders + [PlacedOrder(req.user, C.Total(req.items), C.Spent(req))], rows + [C.NewOrder(req)])
  {}

  /** Run alone, the statements of a checkout commit exactly what the handler's specification computes, or change nothing. */
  lemma SoloIsPlace(c: Catalogue, t: Tables, req: OrderRequest, s: Db, id: int)
    requires C.ValidRequest(req)
    requires s.sessions == map[] && Represents(s.rows, t.stock, t.users) && SameOrders(s.orders, t.orders)
    requires C.PriceError(c, req.items).None?
    requires c.minOrder.Some? ==> C.Total(req.items) >= c.minOrder.value
    ensures var (t', r) := C.Place(c, t, req, None);
            var s' := Solo(s, id, TxOf(c, req));
            && Represents(s'.rows, t'.stock, t'.users)
            && SameOrders(s'.orders, t'.orders)
            && s'.sessions == map[]
            && s'.log == if r.Ok? then s.log + [Committed(TxOf(c, req))] else s.log
  {
    C.TotalPositive(req.items);
    SoloIsInterpret(s, id, TxOf(c, req));
    CheckoutScript(s.rows, c, t, req);
    SameOrdersGrow(s.orders, t.orders, req);
  }

  // A transaction that only adds to one balance, or does nothing
  lemma SoloIsCredit(stock: Levels, users: map<int, real>, tx: Tx, s: Db, id: int)
    requires s.sessions == map[] && Represents(s.rows, stock, users) && Startable(s, tx)
    requires tx.Accrual? || tx.Refund?
    ensures var points := if tx.Accrual? then tx.amount * 0.01 else tx.points;
            Represents(Solo(s, id, tx).rows, stock,
                       if tx.Refund? && points <= 0.0 then users else Payments.Credit(users, tx.user, points))
  {
    SoloIsInterpret(s, id, tx);
    var points := if tx.Accrual? then tx.amount * 0.01 else tx.points;
    if tx.Accrual? || points > 0.0 {
      assert Script(tx) == [Add(User(tx.user), points)];
      assert Interpret(s.rows, Script(tx)) == Interpret1(s.rows, Add(User(tx.user), points));
      assert User(tx.user) in s.rows <==> tx.user in users;
    }
  }

  // The transaction that a delivery starts, by what it reads first: none when the handler returns or raises before any update
  function TxOfDelivery(l: Payments.Ledger, e: Payments.Event): Option<Tx> {
    match Payments.Target(l, Payments.Deliver(e))
    case None => None
    case Some(o) =>
      var row := l.orders[o];
      if e.kind.Canceled? then Some(Refund(row.user, C.PointsUsed(row)))
      else if row.paymentStatus.Paid? then None
      else Some(Accrual(row.user, row.amount))
  }

  /**
   Run alone, a delivery's transaction leaves exactly the balances that the webhook handler does, found order and
   duplicate guard included.
   */
  lemma SoloIsWebhook(l: Payments.Ledger, e: Payments.Event, stock: Levels, s: Db, id: int)
    requires s.sessions == map[] && Represents(s.rows, stock, l.users) && SameOrders(s.orders, l.orders)
    ensures var users := Payments.Webhook(l, e).0.users;
            match TxOfDelivery(l, e)
            case None => users == l.users
            case Some(tx) => Startable(s, tx) && Represents(Solo(s, id, tx).rows, stock, users)
  {
    var tx := TxOfDelivery(l, e);
    if tx.Some? {
      var o := Payments.Target(l, Payments.Deliver(e)).value;
      assert s.orders[o] == PlacedOrder(l.orders[o].user, l.orders[o].amount, C.PointsUsed(l.orders[o]));
      assert Startable(s, tx.value);
      SoloIsCredit(stock, l.users, tx.value, s, id);
    }
  }
}
