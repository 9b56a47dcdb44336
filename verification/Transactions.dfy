/**
 Checkout, webhook and stock transactions interleaved statement by statement.
 UPDATE and SELECT ... FOR UPDATE hold their row until the transaction ends; a plain SELECT holds nothing.
 */
module Transactions {
  import opened Stock

  datatype Row = User(id: int) | Ingredient(id: int)

  // One SQL statement with the check the handler makes on its result
  datatype Stmt =
    | Require(holds: bool)
    | SelectAtLeast(row: Row, amount: real)
    | LockAtLeast(row: Row, amount: real)
    | Add(row: Row, delta: real)
    | AddExisting(row: Row, delta: real)

  datatype Tx =
    | Checkout(user: int, points: real, total: real, needs: seq<Need>)
    | Accrual(user: int, amount: real)
    | Refund(user: int, points: real)
    | Incoming(ingredient: int, quantity: real)

  datatype Session = Session(tx: Tx, pc: nat, pending: map<Row, real>, held: set<Row>)

  datatype PlacedOrder = PlacedOrder(user: int, amount: real, loyaltyUsed: real)

  datatype Entry = Committed(tx: Tx) | CreatedIngredient(ingredient: int, quantity: real)

  // Committed rows, open transactions, committed orders, and what has been committed in which order
  datatype Db = Db(rows: map<Row, real>, sessions: map<int, Session>, orders: seq<PlacedOrder>, log: seq<Entry>)

  datatype Action =
    | Begin(id: int, begun: Tx)
    | Exec(id: int)
    | Abort(id: int)
    | Commit(id: int)
    | CreateIngredient(ingredient: int, quantity: real)

  function ReserveScript(needs: seq<Need>): (script: seq<Stmt>)
    ensures |script| == 2 * |needs|
  {
    if needs == [] then []
    else
      var r, grams := Ingredient(needs[0].ingredient), needs[0].grams;
      [SelectAtLeast(r, grams), Add(r, -grams)] + ReserveScript(needs[1..])
  }

  function SpendScript(user: int, points: real, total: real): seq<Stmt> {
    if points > 0.0
    then [LockAtLeast(User(user), points), Require(points <= total * 0.5), Add(User(user), -points)]
    else []
  }

  // The statements of a transaction after the reads that chose it
  function Script(tx: Tx): seq<Stmt> {
    match tx
    case Checkout(user, points, total, needs) => ReserveScript(needs) + SpendScript(user, points, total)
    case Accrual(user, amount) => [Add(User(user), amount * 0.01)]
    case Refund(user, points) => if points > 0.0 then [Add(User(user), points)] else []
    case Incoming(ingredient, quantity) => [AddExisting(Ingredient(ingredient), quantity)]
  }

  // A webhook begins by reading a committed order; requests obey their schemas
  predicate Startable(s: Db, tx: Tx) {
    match tx
    case Checkout(_, points, total, _) => points >= 0.0 && total > 0.0
    case Accrual(user, amount) => exists o :: 0 <= o < |s.orders| && s.orders[o].user == user && s.orders[o].amount == amount
    case Refund(user, points) => exists o :: 0 <= o < |s.orders| && s.orders[o].user == user && s.orders[o].loyaltyUsed == points
    case Incoming(_, quantity) => quantity > 0.0
  }

  function Uncommitted(x: Session, r: Row): real {
    if r in x.pending then x.pending[r] else 0.0
  }

  predicate Blocked(s: Db, id: int, r: Row) {
    exists other :: other in s.sessions && other != id && r in s.sessions[other].held
  }

  function Close(s: Db, id: int): Db {
    s.(sessions := s.sessions - {id})
  }

  function Advance(s: Db, id: int, x: Session): Db {
    s.(sessions := s.sessions[id := x.(pc := x.pc + 1)])
  }

  function Updated(x: Session, r: Row, delta: real): Session {
    x.(held := x.held + {r}, pending := x.pending[r := Uncommitted(x, r) + delta])
  }

  // A failed check raises, which rolls the transaction back; a statement that needs a held row waits
  function Execute(s: Db, id: int, stmt: Stmt): Db
    requires id in s.sessions
  {
    var x := s.sessions[id];
    match stmt
    case Require(holds) => if holds then Advance(s, id, x) else Close(s, id)
    case SelectAtLeast(r, amount) =>
      if r in s.rows && s.rows[r] + Uncommitted(x, r) >= amount then Advance(s, id, x) else Close(s, id)
    case LockAtLeast(r, amount) =>
      if r !in s.rows then Close(s, id)
      else if Blocked(s, id, r) then s
      else if s.rows[r] + Uncommitted(x, r) >= amount then Advance(s, id, x.(held := x.held + {r}))
      else Close(s, id)
    case Add(r, delta) =>
      if r !in s.rows then Advance(s, id, x)
      else if Blocked(s, id, r) then s
      else Advance(s, id, Updated(x, r, delta))
    case AddExisting(r, delta) =>
      if r !in s.rows then Close(s, id)
      else if Blocked(s, id, r) then s
      else Advance(s, id, Updated(x, r, delta))
  }

  function Step(s: Db, id: int): Db
    requires id in s.sessions && s.sessions[id].pc < |Script(s.sessions[id].tx)|
  {
    Execute(s, id, Script(s.sessions[id].tx)[s.sessions[id].pc])
  }

  function CommitSession(s: Db, id: int): Db
    requires id in s.sessions
  {
    var x := s.sessions[id];
    Db(map r | r in s.rows :: s.rows[r] + Uncommitted(x, r),
       s.sessions - {id},
       if x.tx.Checkout? then s.orders + [PlacedOrder(x.tx.user, x.tx.total, x.tx.points)] else s.orders,
       s.log + [Committed(x.tx)])
  }

  // Actions that are not enabled leave the state as it is
  function Apply(s: Db, a: Action): Db {
    match a
    case Begin(id, tx) =>
      if id in s.sessions || !Startable(s, tx) then s
      else s.(sessions := s.sessions[id := Session(tx, 0, map[], {})])
    case Exec(id) =>
      if id in s.sessions && s.sessions[id].pc < |Script(s.sessions[id].tx)| then Step(s, id) else s
    case Abort(id) => Close(s, id)
    case Commit(id) =>
      if id in s.sessions && s.sessions[id].pc == |Script(s.sessions[id].tx)| then CommitSession(s, id) else s
    case CreateIngredient(i, quantity) =>
      if quantity < 0.0 || Ingredient(i) in s.rows then s
      else s.(rows := s.rows[Ingredient(i) := quantity], log := s.log + [CreatedIngredient(i, quantity)])
  }

  function Run(s: Db, acts: seq<Action>): Db {
    if acts == [] then s else Apply(Run(s, acts[..|acts| - 1]), acts[|acts| - 1])
  }

  // ----- What a committed transaction means, without its script -----

  function Effect(e: Entry, r: Row): real {
    match e
    case CreatedIngredient(i, quantity) => if r == Ingredient(i) then quantity else 0.0
    case Committed(tx) =>
      match tx
      case Checkout(user, points, _, needs) =>
        if r.User? then (if r.id == user then -points else 0.0) else -Demand(needs, r.id)
      case Accrual(user, amount) => if r == User(user) then amount * 0.01 else 0.0
      case Refund(user, points) => if r == User(user) then points else 0.0
      case Incoming(i, quantity) => if r == Ingredient(i) then quantity else 0.0
  }

  function Total(log: seq<Entry>, r: Row): real {
    if log == [] then 0.0 else Total(log[..|log| - 1], r) + Effect(log[|log| - 1], r)
  }

  function Opening(rows: map<Row, real>, r: Row): real {
    if r in rows then rows[r] else 0.0
  }

  // ----- Scripts -----

  function Delta(stmt: Stmt, r: Row): real {
    if (stmt.Add? || stmt.AddExisting?) && stmt.row == r then stmt.delta else 0.0
  }

  function Net(script: seq<Stmt>, r: Row): real {
    if script == [] then 0.0 else Delta(script[0], r) + Net(script[1..], r)
  }

  lemma {:induction false} NetConcat(a: seq<Stmt>, b: seq<Stmt>, r: Row)
    ensures Net(a + b, r) == Net(a, r) + Net(b, r)
  {
    if a == [] {
      assert a + b == b;
    } else {
      assert (a + b)[1..] == a[1..] + b;
      NetConcat(a[1..], b, r);
    }
  }

  lemma NetNext(script: seq<Stmt>, k: nat, r: Row)
    requires k < |script|
    ensures Net(script[..k + 1], r) == Net(script[..k], r) + Delta(script[k], r)
  {
    assert script[..k + 1] == script[..k] + [script[k]];
    NetConcat(script[..k], [script[k]], r);
  }

  lemma {:induction false} ReserveNet(needs: seq<Need>, r: Row)
    ensures Net(ReserveScript(needs), r) == if r.User? then 0.0 else -Demand(needs, r.id)
  {
    if needs != [] {
      var first := [SelectAtLeast(Ingredient(needs[0].ingredient), needs[0].grams),
                    Add(Ingredient(needs[0].ingredient), -needs[0].grams)];
      var rest := ReserveScript(needs[1..]);
      assert ReserveScript(needs) == first + rest;
      NetConcat(first, rest, r);
      assert first[1..] == [first[1]];
      ReserveNet(needs[1..], r);
    }
  }

  // The script of a transaction adds up to its meaning
  lemma ScriptNet(tx: Tx, r: Row)
    requires tx.Checkout? ==> tx.points >= 0.0
    requires tx.Refund? ==> tx.points >= 0.0
    ensures Net(Script(tx), r) == Effect(Committed(tx), r)
  {
    if tx.Checkout? {
      var spend := SpendScript(tx.user, tx.points, tx.total);
      NetConcat(ReserveScript(tx.needs), spend, r);
      ReserveNet(tx.needs, r);
      if tx.points > 0.0 {
        assert Net(spend, r) == Delta(spend[0], r) + Delta(spend[1], r) + Delta(spend[2], r) by {
          assert spend == spend[..1] + (spend[1..2] + spend[2..]);
          NetConcat(spend[..1], spend[1..2] + spend[2..], r);
          NetConcat(spend[1..2], spend[2..], r);
        }
      }
    }
  }

  lemma {:induction false} NetNonNegative(tx: Tx, k: nat, r: Row)
    requires !tx.Checkout? && k <= |Script(tx)|
    requires tx.Accrual? ==> tx.amount >= 0.0
    requires tx.Incoming? ==> tx.quantity >= 0.0
    ensures Net(Script(tx)[..k], r) >= 0.0
  {
    if k > 0 {
      NetNext(Script(tx), k - 1, r);
      NetNonNegative(tx, k - 1, r);
    }
  }

  lemma {:induction false} ReserveAlternates(needs: seq<Need>, k: nat)
    requires k < 2 * |needs|
    ensures var script := ReserveScript(needs);
            && (script[k].SelectAtLeast? || script[k].Add?) && script[k].row.Ingredient?
            && (script[k].Add? ==> k > 0 && script[k - 1] == SelectAtLeast(script[k].row, -script[k].delta))
  {
    if k >= 2 {
      ReserveAlternates(needs[1..], k - 2);
    }
  }

  // A relative update of a stock row by a checkout directly follows the check of that row
  lemma StockUpdateFollowsCheck(tx: Tx, k: nat)
    requires k < |Script(tx)| && Script(tx)[k].Add? && Script(tx)[k].row.Ingredient?
    ensures k > 0 && Script(tx)[k - 1] == SelectAtLeast(Script(tx)[k].row, -Script(tx)[k].delta)
  {
    if tx.Checkout? && k < 2 * |tx.needs| {
      ReserveAlternates(tx.needs, k);
    }
  }

  lemma CheckoutAddsNoExisting(tx: Tx, k: nat)
    requires tx.Checkout? && k < |Script(tx)|
    ensures !Script(tx)[k].AddExisting?
  {
    if k < 2 * |tx.needs| {
      ReserveAlternates(tx.needs, k);
    }
  }

  // ----- The invariant -----

  // The lock taken at the points check is still held, and the balance read there still covers the spend
  ghost predicate SpendCovered(rows: map<Row, real>, x: Session) {
    x.tx.Checkout? && x.tx.points > 0.0 && x.pc > 2 * |x.tx.needs| ==>
      User(x.tx.user) in x.held && User(x.tx.user) in rows && rows[User(x.tx.user)] >= x.tx.points
  }

  ghost predicate SessionInv(rows: map<Row, real>, x: Session) {
    && x.pc <= |Script(x.tx)|
    && x.pending.Keys <= x.held <= rows.Keys
    && (forall r: Row :: r in rows || r.Ingredient? ==> Uncommitted(x, r) == Net(Script(x.tx)[..x.pc], r))
    && (x.pc > 0 && Script(x.tx)[x.pc - 1].SelectAtLeast? ==> Script(x.tx)[x.pc - 1].row in rows)
    && SpendCovered(rows, x)
    && match x.tx
       case Checkout(_, points, total, _) => points >= 0.0 && total > 0.0
       case Accrual(_, amount) => amount > 0.0
       case Refund(_, points) => points >= 0.0
       case Incoming(_, quantity) => quantity > 0.0
  }

  ghost predicate Exclusive(s: Db) {
    forall a, b :: a in s.sessions && b in s.sessions && a != b ==> s.sessions[a].held !! s.sessions[b].held
  }

  ghost predicate BalancesNonNegative(s: Db) {
    forall u :: User(u) in s.rows ==> s.rows[User(u)] >= 0.0
  }

  ghost predicate Inv(s: Db) {
    && (forall id :: id in s.sessions ==> SessionInv(s.rows, s.sessions[id]))
    && Exclusive(s)
    && BalancesNonNegative(s)
    && (forall o :: 0 <= o < |s.orders| ==> s.orders[o].amount > 0.0 && s.orders[o].loyaltyUsed >= 0.0)
  }

  // No transaction open, balances non-negative, orders as checkout writes them
  ghost predicate Initial(s: Db) {
    && s.sessions == map[] && s.log == []
    && BalancesNonNegative(s)
    && (forall o :: 0 <= o < |s.orders| ==> s.orders[o].amount > 0.0 && s.orders[o].loyaltyUsed >= 0.0)
  }

  // A passed check moves the session on, possibly with one more row held
  lemma CheckPassed(rows: map<Row, real>, x: Session, held: set<Row>)
    requires SessionInv(rows, x) && x.pc < |Script(x.tx)|
    requires x.held <= held <= rows.Keys
    requires var stmt := Script(x.tx)[x.pc];
             match stmt
             case Require(_) => true
             case SelectAtLeast(r, _) => r in rows
             case LockAtLeast(r, amount) => r in held && rows[r] + Uncommitted(x, r) >= amount
             case Add(r, _) => r !in rows
             case AddExisting(_, _) => false
    ensures SessionInv(rows, x.(pc := x.pc + 1, held := held))
  {
    var script := Script(x.tx);
    if script[x.pc].Add? && script[x.pc].row.Ingredient? {
      StockUpdateFollowsCheck(x.tx, x.pc);
    }
    forall r: Row | r in rows || r.Ingredient? ensures Uncommitted(x, r) == Net(script[..x.pc + 1], r) {
      NetNext(script, x.pc, r);
    }
    if x.tx.Checkout? && x.pc == 2 * |x.tx.needs| && x.tx.points > 0.0 {
      assert script[..x.pc] == ReserveScript(x.tx.needs);
      ReserveNet(x.tx.needs, User(x.tx.user));
    }
  }

  // An update of an existing row holds it and adds to what is pending on it
  lemma UpdateDone(rows: map<Row, real>, x: Session, r: Row, delta: real)
    requires SessionInv(rows, x) && x.pc < |Script(x.tx)| && r in rows
    requires Script(x.tx)[x.pc] == Add(r, delta) || Script(x.tx)[x.pc] == AddExisting(r, delta)
    ensures SessionInv(rows, Updated(x, r, delta).(pc := x.pc + 1))
  {
    var script := Script(x.tx);
    var x' := Updated(x, r, delta);
    forall q: Row | q in rows || q.Ingredient? ensures Uncommitted(x', q) == Net(script[..x.pc + 1], q) {
      NetNext(script, x.pc, q);
    }
  }

  // What an executed statement may change: its own session, and only so that the invariant holds
  ghost predicate OnlyOwnSession(s: Db, s': Db, id: int)
    requires id in s.sessions
  {
    && s'.rows == s.rows && s'.orders == s.orders && s'.log == s.log
    && (id in s'.sessions ==>
          && s'.sessions == s.sessions[id := s'.sessions[id]]
          && SessionInv(s.rows, s'.sessions[id])
          && s'.sessions[id].tx == s.sessions[id].tx
          && (forall r :: r in s'.sessions[id].held ==> r in s.sessions[id].held || !Blocked(s, id, r)))
    && (id !in s'.sessions ==> s'.sessions == s.sessions - {id})
  }

  lemma CloseOwn(s: Db, id: int)
    requires id in s.sessions
    ensures OnlyOwnSession(s, Close(s, id), id)
  {}

  lemma AdvanceOwn(s: Db, id: int, y: Session)
    requires id in s.sessions
    requires SessionInv(s.rows, y.(pc := y.pc + 1)) && y.tx == s.sessions[id].tx
    requires forall r :: r in y.held ==> r in s.sessions[id].held || !Blocked(s, id, r)
    ensures OnlyOwnSession(s, Advance(s, id, y), id)
  {}

  ghost predicate CanStep(s: Db, id: int) {
    Inv(s) && id in s.sessions && s.sessions[id].pc < |Script(s.sessions[id].tx)|
  }

  lemma StepCheck(s: Db, id: int, stmt: Stmt)
    requires CanStep(s, id) && stmt == Script(s.sessions[id].tx)[s.sessions[id].pc]
    requires stmt.Require? || stmt.SelectAtLeast?
    ensures OnlyOwnSession(s, Execute(s, id, stmt), id)
  {
    var x := s.sessions[id];
    CloseOwn(s, id);
    if stmt.SelectAtLeast? ==> stmt.row in s.rows {
      CheckPassed(s.rows, x, x.held);
      AdvanceOwn(s, id, x);
    }
  }

  lemma StepLock(s: Db, id: int, stmt: Stmt)
    requires CanStep(s, id) && stmt == Script(s.sessions[id].tx)[s.sessions[id].pc]
    requires stmt.LockAtLeast?
    ensures OnlyOwnSession(s, Execute(s, id, stmt), id)
  {
    var x := s.sessions[id];
    CloseOwn(s, id);
    if stmt.row in s.rows {
      if Blocked(s, id, stmt.row) {
        assert s.sessions == s.sessions[id := x];
      } else if s.rows[stmt.row] + Uncommitted(x, stmt.row) >= stmt.amount {
        CheckPassed(s.rows, x, x.held + {stmt.row});
        AdvanceOwn(s, id, x.(held := x.held + {stmt.row}));
      }
    }
  }

  lemma StepUpdate(s: Db, id: int, stmt: Stmt)
    requires CanStep(s, id) && stmt == Script(s.sessions[id].tx)[s.sessions[id].pc]
    requires stmt.Add? || stmt.AddExisting?
    ensures OnlyOwnSession(s, Execute(s, id, stmt), id)
  {
    var x := s.sessions[id];
    CloseOwn(s, id);
    if stmt.row !in s.rows {
      if stmt.Add? {
        CheckPassed(s.rows, x, x.held);
        AdvanceOwn(s, id, x);
      }
    } else if Blocked(s, id, stmt.row) {
      assert s.sessions == s.sessions[id := x];
    } else {
      UpdateDone(s.rows, x, stmt.row, stmt.delta);
      AdvanceOwn(s, id, Updated(x, stmt.row, stmt.delta));
    }
  }

  lemma StepSession(s: Db, id: int)
    requires CanStep(s, id)
    ensures OnlyOwnSession(s, Step(s, id), id)
  {
    var stmt := Script(s.sessions[id].tx)[s.sessions[id].pc];
    match stmt
    case Require(_) => StepCheck(s, id, stmt);
    case SelectAtLeast(_, _) => StepCheck(s, id, stmt);
    case LockAtLeast(_, _) => StepLock(s, id, stmt);
    case Add(_, _) => StepUpdate(s, id, stmt);
    case AddExisting(_, _) => StepUpdate(s, id, stmt);
  }

  lemma CommitKeepsInv(s: Db, id: int)
    requires Inv(s) && id in s.sessions && s.sessions[id].pc == |Script(s.sessions[id].tx)|
    ensures Inv(CommitSession(s, id))
    ensures forall r: Row :: r in s.rows || r.Ingredient? ==>
              Opening(CommitSession(s, id).rows, r) == Opening(s.rows, r) + Effect(Committed(s.sessions[id].tx), r)
  {
    var x := s.sessions[id];
    var s' := CommitSession(s, id);
    assert Script(x.tx)[..x.pc] == Script(x.tx);
    forall r: Row | r in s.rows || r.Ingredient? ensures Uncommitted(x, r) == Effect(Committed(x.tx), r) {
      ScriptNet(x.tx, r);
    }
    forall other | other in s'.sessions ensures SessionInv(s'.rows, s'.sessions[other]) {
      var y := s.sessions[other];
      assert x.held !! y.held;
      assert SpendCovered(s.rows, y);
    }
    assert SpendCovered(s.rows, x);
  }

  lemma ExecKeepsInv(s: Db, id: int)
    requires CanStep(s, id)
    ensures Inv(Step(s, id))
  {
    StepSession(s, id);
    var s' := Step(s, id);
    forall a, b | a in s'.sessions && b in s'.sessions && a != b ensures s'.sessions[a].held !! s'.sessions[b].held {
      assert a in s.sessions && b in s.sessions && s.sessions[a].held !! s.sessions[b].held;
    }
  }

  lemma ApplyKeepsInv(s: Db, a: Action)
    requires Inv(s)
    ensures Inv(Apply(s, a))
  {
    if a.Exec? && a.id in s.sessions && s.sessions[a.id].pc < |Script(s.sessions[a.id].tx)| {
      ExecKeepsInv(s, a.id);
    } else if a.Commit? && a.id in s.sessions && s.sessions[a.id].pc == |Script(s.sessions[a.id].tx)| {
      CommitKeepsInv(s, a.id);
    }
  }

  lemma {:induction false} RunKeepsInv(s: Db, acts: seq<Action>)
    requires Initial(s)
    ensures Inv(Run(s, acts))
  {
    if acts != [] {
      RunKeepsInv(s, acts[..|acts| - 1]);
      ApplyKeepsInv(Run(s, acts[..|acts| - 1]), acts[|acts| - 1]);
    }
  }

  /** Whatever the interleaving, no committed points balance is ever negative. */
  lemma NoBalanceOverdrawn(s: Db, acts: seq<Action>, user: int)
    requires Initial(s) && User(user) in Run(s, acts).rows
    ensures Run(s, acts).rows[User(user)] >= 0.0
  {
    RunKeepsInv(s, acts);
  }

  /** In every reachable state at most one open transaction has changes pending on a row. */
  lemma OneWriterPerRow(s: Db, acts: seq<Action>, a: int, b: int, r: Row)
    requires Initial(s) && a in Run(s, acts).sessions && b in Run(s, acts).sessions
    requires r in Run(s, acts).sessions[a].pending && r in Run(s, acts).sessions[b].pending
    ensures a == b
  {
    RunKeepsInv(s, acts);
    var x, y := Run(s, acts).sessions[a], Run(s, acts).sessions[b];
    assert SessionInv(Run(s, acts).rows, x) && SessionInv(Run(s, acts).rows, y);
    assert r in x.held && r in y.held;
  }

  lemma {:induction false} UsersAreFixed(s: Db, acts: seq<Action>, u: int)
    ensures User(u) in Run(s, acts).rows <==> User(u) in s.rows
  {
    if acts != [] {
      UsersAreFixed(s, acts[..|acts| - 1], u);
    }
  }

  // One action moves a row by what it adds to the log
  lemma LedgerStep(s: Db, a: Action, r: Row)
    requires Inv(s) && (r in s.rows || r.Ingredient?)
    ensures Opening(Apply(s, a).rows, r) - Opening(s.rows, r) == Total(Apply(s, a).log, r) - Total(s.log, r)
  {
    if a.Exec? && a.id in s.sessions && s.sessions[a.id].pc < |Script(s.sessions[a.id].tx)| {
      StepSession(s, a.id);
    } else if a.Commit? && a.id in s.sessions && s.sessions[a.id].pc == |Script(s.sessions[a.id].tx)| {
      CommitKeepsInv(s, a.id);
      assert Apply(s, a).log[..|s.log|] == s.log;
    } else if a.CreateIngredient? && !(a.quantity < 0.0 || Ingredient(a.ingredient) in s.rows) {
      assert Apply(s, a).log[..|s.log|] == s.log;
    }
  }

  lemma RowPersists(s: Db, a: Action, r: Row)
    requires r in s.rows
    ensures r in Apply(s, a).rows
  {}

  lemma {:induction false} RowsPersist(s: Db, acts: seq<Action>, r: Row)
    requires r in s.rows
    ensures r in Run(s, acts).rows
  {
    if acts != [] {
      RowsPersist(s, acts[..|acts| - 1], r);
      RowPersists(Run(s, acts[..|acts| - 1]), acts[|acts| - 1], r);
    }
  }

  lemma {:induction false} LedgerFrom(s: Db, acts: seq<Action>, r: Row)
    requires Initial(s) && (r in s.rows || r.Ingredient?)
    ensures Opening(Run(s, acts).rows, r) - Opening(s.rows, r) == Total(Run(s, acts).log, r)
  {
    if acts != [] {
      var before := acts[..|acts| - 1];
      LedgerFrom(s, before, r);
      RunKeepsInv(s, before);
      if r in s.rows {
        RowsPersist(s, before, r);
      }
      LedgerStep(Run(s, before), acts[|acts| - 1], r);
    }
  }

  /** Whatever the interleaving, each committed balance and stock level is its opening value plus what has been committed. */
  lemma LedgerBalances(s: Db, acts: seq<Action>, r: Row)
    requires Initial(s) && r in Run(s, acts).rows
    ensures Run(s, acts).rows[r] == Opening(s.rows, r) + Total(Run(s, acts).log, r)
  {
    if r.User? {
      UsersAreFixed(s, acts, r.id);
    }
    LedgerFrom(s, acts, r);
  }

  // ----- Stock levels -----

  // At most one checkout is open; webhooks and incoming stock may interleave with it freely
  ghost predicate OneCheckout(s: Db) {
    forall a, b :: a in s.sessions && b in s.sessions && s.sessions[a].tx.Checkout? && s.sessions[b].tx.Checkout? ==> a == b
  }

  ghost predicate CheckoutsOneAtATime(s: Db, acts: seq<Action>) {
    forall n :: 0 <= n <= |acts| ==> OneCheckout(Run(s, acts[..n]))
  }

  ghost predicate StockNonNegative(s: Db) {
    forall i :: Ingredient(i) in s.rows ==> s.rows[Ingredient(i)] >= 0.0
  }

  // What an open checkout has taken so far, and what it has just checked, is still there
  ghost predicate TakesCovered(rows: map<Row, real>, x: Session) {
    x.tx.Checkout? && x.pc <= |Script(x.tx)| ==>
      && (forall i :: Ingredient(i) in rows ==> rows[Ingredient(i)] + Uncommitted(x, Ingredient(i)) >= 0.0)
      && (x.pc > 0 && Script(x.tx)[x.pc - 1].SelectAtLeast? && Script(x.tx)[x.pc - 1].row in rows ==>
            var check := Script(x.tx)[x.pc - 1];
            rows[check.row] + Uncommitted(x, check.row) >= check.amount)
  }

  ghost predicate StockInv(s: Db) {
    && StockNonNegative(s)
    && forall id :: id in s.sessions ==> TakesCovered(s.rows, s.sessions[id])
  }

  // A stock update takes no more than what its check has just seen
  lemma TakeIsCovered(rows: map<Row, real>, x: Session)
    requires SessionInv(rows, x) && TakesCovered(rows, x) && x.tx.Checkout? && x.pc < |Script(x.tx)|
    requires Script(x.tx)[x.pc].Add? && Script(x.tx)[x.pc].row in rows
    ensures var stmt := Script(x.tx)[x.pc];
            TakesCovered(rows, Updated(x, stmt.row, stmt.delta).(pc := x.pc + 1))
  {
    var stmt := Script(x.tx)[x.pc];
    if stmt.row.Ingredient? {
      StockUpdateFollowsCheck(x.tx, x.pc);
    }
  }

  lemma CheckIsCovered(rows: map<Row, real>, x: Session, held: set<Row>)
    requires TakesCovered(rows, x) && x.pc < |Script(x.tx)|
    requires var stmt := Script(x.tx)[x.pc];
             stmt.SelectAtLeast? ==> stmt.row in rows && rows[stmt.row] + Uncommitted(x, stmt.row) >= stmt.amount
    ensures TakesCovered(rows, x.(pc := x.pc + 1, held := held))
  {}

  lemma StepKeepsTakesCovered(s: Db, id: int, stmt: Stmt)
    requires CanStep(s, id) && stmt == Script(s.sessions[id].tx)[s.sessions[id].pc]
    requires s.sessions[id].tx.Checkout? && TakesCovered(s.rows, s.sessions[id])
    ensures id in Execute(s, id, stmt).sessions ==> TakesCovered(s.rows, Execute(s, id, stmt).sessions[id])
  {
    var x := s.sessions[id];
    if stmt.Add? && stmt.row in s.rows && !Blocked(s, id, stmt.row) {
      TakeIsCovered(s.rows, x);
    } else if stmt.LockAtLeast? {
      CheckIsCovered(s.rows, x, x.held + {stmt.row});
    } else if stmt.SelectAtLeast? {
      if stmt.row in s.rows && s.rows[stmt.row] + Uncommitted(x, stmt.row) >= stmt.amount {
        CheckIsCovered(s.rows, x, x.held);
      }
    } else {
      CheckoutAddsNoExisting(x.tx, x.pc);
      CheckIsCovered(s.rows, x, x.held);
    }
  }

  lemma CommitKeepsStock(s: Db, id: int)
    requires Inv(s) && StockInv(s) && OneCheckout(s)
    requires id in s.sessions && s.sessions[id].pc == |Script(s.sessions[id].tx)|
    ensures StockInv(CommitSession(s, id))
  {
    var x := s.sessions[id];
    var s' := CommitSession(s, id);
    if x.tx.Checkout? {
      assert TakesCovered(s.rows, x);
    } else {
      forall r: Row | r in s.rows ensures Uncommitted(x, r) >= 0.0 {
        NetNonNegative(x.tx, x.pc, r);
      }
    }
    forall other | other in s'.sessions ensures TakesCovered(s'.rows, s'.sessions[other]) {
      assert TakesCovered(s.rows, s.sessions[other]);
    }
  }

  lemma {:induction false} RunKeepsStock(s: Db, acts: seq<Action>)
    requires Initial(s) && StockNonNegative(s) && CheckoutsOneAtATime(s, acts)
    ensures StockInv(Run(s, acts))
  {
    if acts != [] {
      var before, a := acts[..|acts| - 1], acts[|acts| - 1];
      forall n | 0 <= n <= |before| ensures OneCheckout(Run(s, before[..n])) {
        assert before[..n] == acts[..n];
      }
      RunKeepsStock(s, before);
      RunKeepsInv(s, before);
      var now := Run(s, before);
      assert OneCheckout(now) by { assert before[..|before|] == before; }
      if a.Exec? && a.id in now.sessions && now.sessions[a.id].pc < |Script(now.sessions[a.id].tx)| {
        StepSession(now, a.id);
        if now.sessions[a.id].tx.Checkout? {
          StepKeepsTakesCovered(now, a.id, Script(now.sessions[a.id].tx)[now.sessions[a.id].pc]);
        }
      } else if a.Commit? && a.id in now.sessions && now.sessions[a.id].pc == |Script(now.sessions[a.id].tx)| {
        CommitKeepsStock(now, a.id);
      }
    }
  }

  /** With checkouts one at a time, and everything else interleaved at will, no stock level is ever negative. */
  lemma NoStockOverdrawn(s: Db, acts: seq<Action>, i: int)
    requires Initial(s) && StockNonNegative(s) && CheckoutsOneAtATime(s, acts)
    requires Ingredient(i) in Run(s, acts).rows
    ensures Run(s, acts).rows[Ingredient(i)] >= 0.0
  {
    RunKeepsStock(s, acts);
  }

  /**
   In any reachable state, committing a checkout leaves a level non-negative exactly when the level then committed
   covers the whole demand.
   */
  lemma CommitOverdrawsIff(s: Db, acts: seq<Action>, id: int, i: int)
    requires Initial(s)
    requires var now := Run(s, acts);
             && id in now.sessions && now.sessions[id].tx.Checkout?
             && now.sessions[id].pc == |Script(now.sessions[id].tx)|
             && Ingredient(i) in now.rows
    ensures var now := Run(s, acts);
            Apply(now, Commit(id)).rows[Ingredient(i)] >= 0.0 <==>
            Demand(now.sessions[id].tx.needs, i) <= now.rows[Ingredient(i)]
  {
    RunKeepsInv(s, acts);
    CommitKeepsInv(Run(s, acts), id);
  }

  ghost predicate Commits(s: Db, a: Action) {
    a.Commit? && a.id in s.sessions && s.sessions[a.id].pc == |Script(s.sessions[a.id].tx)|
  }

  // If `a` commits a checkout, the levels committed by then cover its whole demand
  ghost predicate DemandCovered(s: Db, a: Action) {
    Commits(s, a) && s.sessions[a.id].tx.Checkout? ==>
      forall i :: Ingredient(i) in s.rows ==> Demand(s.sessions[a.id].tx.needs, i) <= s.rows[Ingredient(i)]
  }

  // Only the commit of a checkout lowers a level, and by exactly its demand
  lemma StepKeepsStockIff(s: Db, a: Action)
    requires Inv(s) && StockNonNegative(s)
    ensures StockNonNegative(Apply(s, a)) <==> DemandCovered(s, a)
  {
    if Commits(s, a) {
      var tx := s.sessions[a.id].tx;
      CommitKeepsInv(s, a.id);
      forall i | Ingredient(i) in s.rows
        ensures Apply(s, a).rows[Ingredient(i)] == s.rows[Ingredient(i)] + Effect(Committed(tx), Ingredient(i))
      {
        assert Opening(Apply(s, a).rows, Ingredient(i)) == Opening(s.rows, Ingredient(i)) + Effect(Committed(tx), Ingredient(i));
      }
      assert SessionInv(s.rows, s.sessions[a.id]);
    } else if a.Exec? && a.id in s.sessions && s.sessions[a.id].pc < |Script(s.sessions[a.id].tx)| {
      StepSession(s, a.id);
    }
  }

  ghost predicate NonNegativeThroughout(s: Db, acts: seq<Action>, count: nat)
    requires count <= |acts|
  {
    forall n :: 0 <= n <= count ==> StockNonNegative(Run(s, acts[..n]))
  }

  ghost predicate CoveredThroughout(s: Db, acts: seq<Action>, count: nat)
    requires count <= |acts|
  {
    forall n :: 0 <= n < count ==> DemandCovered(Run(s, acts[..n]), acts[n])
  }

  lemma OneLonger(s: Db, acts: seq<Action>, n: nat)
    requires n < |acts|
    ensures NonNegativeThroughout(s, acts, n + 1) <==> NonNegativeThroughout(s, acts, n) && StockNonNegative(Run(s, acts[..n + 1]))
    ensures CoveredThroughout(s, acts, n + 1) <==> CoveredThroughout(s, acts, n) && DemandCovered(Run(s, acts[..n]), acts[n])
    ensures NonNegativeThroughout(s, acts, n) ==> StockNonNegative(Run(s, acts[..n]))
    ensures Run(s, acts[..n + 1]) == Apply(Run(s, acts[..n]), acts[n])
  {
    assert acts[..n + 1][..n] == acts[..n];
  }

  lemma {:induction false} PrefixOverdrawsIff(s: Db, acts: seq<Action>, count: nat)
    requires Initial(s) && StockNonNegative(s) && count <= |acts|
    ensures NonNegativeThroughout(s, acts, count) <==> CoveredThroughout(s, acts, count)
  {
    if count == 0 {
      assert acts[..0] == [];
    } else {
      PrefixOverdrawsIff(s, acts, count - 1);
      OneLonger(s, acts, count - 1);
      if NonNegativeThroughout(s, acts, count - 1) {
        RunKeepsInv(s, acts[..count - 1]);
        StepKeepsStockIff(Run(s, acts[..count - 1]), acts[count - 1]);
      }
    }
  }

  /**
   Under any interleaving no level is ever negative during a run exactly when every checkout, at its commit, finds its
   demand covered.
   */
  lemma RunOverdrawsIff(s: Db, acts: seq<Action>)
    requires Initial(s) && StockNonNegative(s)
    ensures NonNegativeThroughout(s, acts, |acts|) <==> CoveredThroughout(s, acts, |acts|)
  {
    PrefixOverdrawsIff(s, acts, |acts|);
  }

  lemma RunNext(s: Db, acts: seq<Action>)
    ensures forall k :: 0 <= k < |acts| ==> Run(s, acts[..k + 1]) == Apply(Run(s, acts[..k]), acts[k])
  {
    forall k | 0 <= k < |acts| ensures Run(s, acts[..k + 1]) == Apply(Run(s, acts[..k]), acts[k]) {
      assert acts[..k + 1][..k] == acts[..k];
    }
  }

  // Two checkouts that each need all ten grams both pass the unlocked check before either commits
  const BASKET := Checkout(7, 0.0, 5.0, [Need(1, 10.0)])
  const TAKEN := Session(BASKET, 2, map[Ingredient(1) := -10.0], {Ingredient(1)})
  const CHECKED := Session(BASKET, 1, map[], {})
  const RACE := [Begin(1, BASKET), Begin(2, BASKET), Exec(1), Exec(2), Exec(1), Commit(1), Exec(2), Commit(2)]

  function RaceState(level: real, sessions: map<int, Session>, orders: seq<PlacedOrder>, log: seq<Entry>): Db {
    Db(map[Ingredient(1) := level], sessions, orders, log)
  }

  lemma BasketScript()
    ensures Script(BASKET) == [SelectAtLeast(Ingredient(1), 10.0), Add(Ingredient(1), -10.0)]
  {}

  lemma RaceChecks()
    ensures Run(RaceState(10.0, map[], [], []), RACE[..4]) == RaceState(10.0, map[1 := CHECKED, 2 := CHECKED], [], [])
  {
    var s := RaceState(10.0, map[], [], []);
    var x := Session(BASKET, 0, map[], {});
    BasketScript();
    RunNext(s, RACE);
    assert RACE[..0] == [];
    assert Run(s, RACE[..1]) == s.(sessions := map[1 := x]);
    assert Run(s, RACE[..2]) == s.(sessions := map[1 := x, 2 := x]);
    assert Run(s, RACE[..3]) == s.(sessions := map[1 := CHECKED, 2 := x]);
  }

  lemma RaceTake(s: Db, id: int)
    requires id in s.sessions && s.sessions[id] == CHECKED && Ingredient(1) in s.rows
    requires forall other :: other in s.sessions && other != id ==> s.sessions[other] == CHECKED
    ensures Apply(s, Exec(id)) == s.(sessions := s.sessions[id := TAKEN])
  {
    BasketScript();
    assert Updated(CHECKED, Ingredient(1), -10.0).(pc := 2) == TAKEN;
  }

  lemma RaceCommit(s: Db, id: int)
    requires id in s.sessions && s.sessions[id] == TAKEN && s.rows.Keys == {Ingredient(1)}
    ensures Apply(s, Commit(id)).rows == map[Ingredient(1) := s.rows[Ingredient(1)] - 10.0]
    ensures Apply(s, Commit(id)).sessions == s.sessions - {id}
  {
    BasketScript();
  }

  /** The stock check takes no lock: two interleaved checkouts can overdraw a level. */
  lemma InterleavedCheckoutsOverdraw()
    ensures var s := RaceState(10.0, map[], [], []);
            && Initial(s) && StockNonNegative(s)
            && Ingredient(1) in Run(s, RACE).rows && Run(s, RACE).rows[Ingredient(1)] == -10.0
  {
    var s := RaceState(10.0, map[], [], []);
    RunNext(s, RACE);
    RaceChecks();
    RaceTake(Run(s, RACE[..4]), 1);
    RaceCommit(Run(s, RACE[..5]), 1);
    RaceTake(Run(s, RACE[..6]), 2);
    RaceCommit(Run(s, RACE[..7]), 2);
    assert RACE[..8] == RACE;
  }
}
