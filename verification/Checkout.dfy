/** `POST /orders`: price check, stock reservation, locked points check, insert, deduction. */
module Checkout {
  import opened Wrappers
  import opened Store
  import opened Stock

  datatype CheckoutError =
    | UnknownMenuItem(id: int)
    | PriceMismatch
    | BelowMinimum
    | InsufficientStock
    | InsufficientPoints
    | DiscountTooLarge

  datatype Placed = Existing(order: nat) | Created(order: nat)

  // What the request schema guarantees before the handler runs
  predicate ValidRequest(req: OrderRequest) {
    && req.items != []
    && (forall k :: 0 <= k < |req.items| ==> 1 <= req.items[k].quantity <= 100 && req.items[k].price > 0.0)
    && (req.points.Some? ==> req.points.value >= 0.0)
  }

  function Total(items: seq<ItemRequest>): real {
    if items == [] then 0.0 else items[0].price * items[0].quantity as real + Total(items[1..])
  }

  function Units(items: seq<ItemRequest>): int {
    if items == [] then 0 else items[0].quantity + Units(items[1..])
  }

  // Modifier options that are not in the catalogue are skipped
  function OptionsPrice(options: map<int, real>, modifiers: seq<int>): real {
    if modifiers == [] then 0.0
    else (if modifiers[0] in options then options[modifiers[0]] else 0.0) + OptionsPrice(options, modifiers[1..])
  }

  function CataloguePrice(c: Catalogue, item: ItemRequest): real {
    (if item.menuItem in c.menu then c.menu[item.menuItem] else 0.0) + OptionsPrice(c.options, item.modifiers)
  }

  function CatalogueTotal(c: Catalogue, items: seq<ItemRequest>): real {
    if items == [] then 0.0
    else CataloguePrice(c, items[0]) * items[0].quantity as real + CatalogueTotal(c, items[1..])
  }

  function Abs(x: real): real { if x < 0.0 then -x else x }

  // The first item the price check rejects
  function PriceError(c: Catalogue, items: seq<ItemRequest>): Option<CheckoutError> {
    if items == [] then None
    else if items[0].menuItem !in c.menu then Some(UnknownMenuItem(items[0].menuItem))
    else if Abs(CataloguePrice(c, items[0]) - items[0].price) > 0.01 then Some(PriceMismatch)
    else PriceError(c, items[1..])
  }

  predicate Spends(req: OrderRequest) {
    req.points.Some? && req.points.value > 0.0
  }

  function Spent(req: OrderRequest): real {
    if Spends(req) then req.points.value else 0.0
  }

  function LoyaltyError(users: map<int, real>, req: OrderRequest, total: real): Option<CheckoutError> {
    if !Spends(req) then None
    else if req.user !in users || users[req.user] < req.points.value then Some(InsufficientPoints)
    else if req.points.value > total * 0.5 then Some(DiscountTooLarge)
    else None
  }

  function FindKey(orders: seq<OrderRow>, key: Option<string>): Option<nat> {
    if key.None? || orders == [] then None
    else if orders[0].idempotencyKey == key then Some(0)
    else match FindKey(orders[1..], key) case None => None case Some(k) => Some(k + 1)
  }

  function StoredLines(items: seq<ItemRequest>): (lines: seq<OrderLine>)
    ensures |lines| == |items|
  {
    seq(|items|, k requires 0 <= k < |items| => OrderLine(None, items[k].quantity, items[k].price))
  }

  function NewOrder(req: OrderRequest): OrderRow {
    OrderRow(req.user, Total(req.items), req.points, StoredLines(req.items), "new", Pending, None, None)
  }

  function UsersAfter(users: map<int, real>, req: OrderRequest): map<int, real> {
    if Spends(req) && req.user in users then users[req.user := users[req.user] - req.points.value] else users
  }

  function SpendEntry(req: OrderRequest, order: nat, balance: real): PointsEntry {
    PointsEntry(req.user, order, -Spent(req), Some(balance))
  }

  function LogAfter(t: Tables, req: OrderRequest): seq<PointsEntry> {
    if Spends(req) && req.user in t.users
    then t.pointsLog + [SpendEntry(req, |t.orders|, t.users[req.user] - req.points.value)]
    else t.pointsLog
  }

  function Accepted(t: Tables, stock: Levels, req: OrderRequest): Tables {
    Tables(stock, UsersAfter(t.users, req), t.orders + [NewOrder(req)], LogAfter(t, req), t.movements)
  }

  // One checkout transaction: an error leaves every table as it was
  function Place(c: Catalogue, t: Tables, req: OrderRequest, key: Option<string>): (Tables, Result<Placed, CheckoutError>) {
    var total := Total(req.items);
    if FindKey(t.orders, key).Some? then (t, Ok(Existing(FindKey(t.orders, key).value)))
    else if PriceError(c, req.items).Some? then (t, Err(PriceError(c, req.items).value))
    else if c.minOrder.Some? && total < c.minOrder.value then (t, Err(BelowMinimum))
    else
      var (stock, reserved) := Reserve(t.stock, Needs(c.recipes, req.items));
      if !reserved then (t, Err(InsufficientStock))
      else if LoyaltyError(t.users, req, total).Some? then (t, Err(LoyaltyError(t.users, req, total).value))
      else (Accepted(t, stock, req), Ok(Created(|t.orders|)))
  }

  // ----- What an accepted checkout means -----

  // Adding `q` units at `price` instead of `expected` widens the gap by at most the tolerance per unit
  lemma ToleranceStep(price: real, expected: real, q: real, total: real, catalogue: real, units: real)
    requires -0.01 <= expected - price <= 0.01 && q >= 0.0
    requires -0.01 * units <= total - catalogue <= 0.01 * units
    ensures var gap := (price * q + total) - (expected * q + catalogue);
            -0.01 * (q + units) <= gap <= 0.01 * (q + units)
  {
    var d := price - expected;
    var line := d * q;
    assert price * q - expected * q == line;
    ProductNonNegative(0.01 - d, q);
    ProductNonNegative(0.01 + d, q);
    assert -0.01 * q <= line <= 0.01 * q;
    assert (price * q + total) - (expected * q + catalogue) == line + (total - catalogue);
  }

  lemma {:induction false} TotalWithinTolerance(c: Catalogue, items: seq<ItemRequest>)
    requires PriceError(c, items).None?
    requires forall k :: 0 <= k < |items| ==> items[k].quantity >= 0
    ensures var gap := Total(items) - CatalogueTotal(c, items);
            -0.01 * Units(items) as real <= gap <= 0.01 * Units(items) as real
  {
    if items != [] {
      TotalWithinTolerance(c, items[1..]);
      ToleranceStep(items[0].price, CataloguePrice(c, items[0]), items[0].quantity as real,
                    Total(items[1..]), CatalogueTotal(c, items[1..]), Units(items[1..]) as real);
      assert Units(items) as real == items[0].quantity as real + Units(items[1..]) as real;
    }
  }

  lemma {:induction false} TotalPositive(items: seq<ItemRequest>)
    requires forall k :: 0 <= k < |items| ==> items[k].quantity >= 1 && items[k].price > 0.0
    ensures items != [] ==> Total(items) > 0.0
    ensures Total(items) >= 0.0
  {
    if items != [] {
      TotalPositive(items[1..]);
      assert items[0].price * items[0].quantity as real >= items[0].price * 1.0;
    }
  }

  function PointsUsed(row: OrderRow): real {
    if row.loyaltyUsed.Some? then row.loyaltyUsed.value else 0.0
  }

  /** The stored amount is within a hundredth per unit of the catalogue total, and at least half of it is payable. */
  lemma AcceptedAmount(c: Catalogue, t: Tables, req: OrderRequest, key: Option<string>)
    requires ValidRequest(req)
    requires Place(c, t, req, key).1 == Ok(Created(|t.orders|))
    ensures var row := NewOrder(req);
            && Place(c, t, req, key).0.orders == t.orders + [row]
            && Abs(row.amount - CatalogueTotal(c, req.items)) <= 0.01 * Units(req.items) as real
            && row.amount > 0.0
            && 0.0 <= PointsUsed(row) <= row.amount / 2.0
            && row.amount - PointsUsed(row) >= row.amount / 2.0
  {
    TotalWithinTolerance(c, req.items);
    TotalPositive(req.items);
  }

  // Every item is on the menu and priced within a hundredth of the catalogue
  ghost predicate PricesMatch(c: Catalogue, items: seq<ItemRequest>) {
    forall k :: 0 <= k < |items| ==>
      items[k].menuItem in c.menu && -0.01 <= CataloguePrice(c, items[k]) - items[k].price <= 0.01
  }

  lemma {:induction false} PriceErrorIff(c: Catalogue, items: seq<ItemRequest>)
    ensures PriceError(c, items).None? <==> PricesMatch(c, items)
  {
    if items != [] {
      PriceErrorIff(c, items[1..]);
      assert forall k :: 0 <= k < |items[1..]| ==> items[1..][k] == items[k + 1];
      if PricesMatch(c, items[1..]) && PriceError(c, items[..1]).None? {
        forall k | 0 <= k < |items|
          ensures items[k].menuItem in c.menu && -0.01 <= CataloguePrice(c, items[k]) - items[k].price <= 0.01
        {
          assert k > 0 ==> items[k] == items[1..][k - 1];
        }
      }
    }
  }

  ghost predicate KeyUnknown(orders: seq<OrderRow>, key: Option<string>) {
    key.Some? ==> forall k :: 0 <= k < |orders| ==> orders[k].idempotencyKey != key
  }

  lemma {:induction false} FindKeyIff(orders: seq<OrderRow>, key: Option<string>)
    ensures FindKey(orders, key).None? <==> KeyUnknown(orders, key)
    ensures FindKey(orders, key).Some? ==>
              FindKey(orders, key).value < |orders| && orders[FindKey(orders, key).value].idempotencyKey == key
  {
    if orders != [] && key.Some? {
      FindKeyIff(orders[1..], key);
      assert forall k :: 1 <= k < |orders| ==> orders[k] == orders[1..][k - 1];
      assert forall k :: 0 <= k < |orders[1..]| ==> orders[1..][k] == orders[k + 1];
    }
  }

  // The key is unknown, prices and minimum match, the whole demand fits and the points may be spent
  ghost predicate Acceptable(c: Catalogue, t: Tables, req: OrderRequest, key: Option<string>) {
    && KeyUnknown(t.orders, key)
    && PricesMatch(c, req.items)
    && (c.minOrder.Some? ==> Total(req.items) >= c.minOrder.value)
    && Covers(t.stock, c.recipes, req.items)
    && (req.points.Some? && req.points.value > 0.0 ==>
          && req.user in t.users && req.points.value <= t.users[req.user]
          && req.points.value <= Total(req.items) / 2.0)
  }

  /** A checkout whose needs give nothing back is accepted exactly when it is acceptable. */
  lemma AcceptedIff(c: Catalogue, t: Tables, req: OrderRequest, key: Option<string>)
    requires ValidRequest(req) && NothingGivenBack(Needs(c.recipes, req.items))
    ensures Place(c, t, req, key).1 == Ok(Created(|t.orders|)) <==> Acceptable(c, t, req, key)
  {
    FindKeyIff(t.orders, key);
    PriceErrorIff(c, req.items);
    AggregateIff(Needs(c.recipes, req.items));
    FitsIffCovers(t.stock, c.recipes, req.items);
  }

  /** So is every checkout when no recipe row is negative. */
  lemma AcceptedIffPlainRecipes(c: Catalogue, t: Tables, req: OrderRequest, key: Option<string>)
    requires ValidRequest(req) && forall k :: 0 <= k < |c.recipes| ==> c.recipes[k].grams >= 0.0
    ensures Place(c, t, req, key).1 == Ok(Created(|t.orders|)) <==> Acceptable(c, t, req, key)
  {
    NonNegativeRecipes(c.recipes, req.items);
    AcceptedIff(c, t, req, key);
  }

  /** A recipe row may be negative: then an order can be refused for stock although its aggregate demand fits. */
  lemma NegativeRecipeRowRefused()
    ensures var c := Catalogue(map[1 := 5.0], map[], None, ODD_RECIPES);
            var t := Tables(map[7 := 5.0], map[], [], [], []);
            var req := OrderRequest(3, ONE_DISH, None);
            && ValidRequest(req) && PricesMatch(c, req.items)
            && Covers(t.stock, c.recipes, req.items)
            && Place(c, t, req, None) == (t, Err(InsufficientStock))
  {
    FitsIffCovers(map[7 := 5.0], ODD_RECIPES, ONE_DISH);
    NegativeGramsBreakAggregate();
    PriceErrorIff(Catalogue(map[1 := 5.0], map[], None, ODD_RECIPES), ONE_DISH);
  }

  ghost predicate AllNonNegative(m: map<int, real>) {
    forall i :: i in m ==> m[i] >= 0.0
  }

  lemma {:induction false} ReserveKeepsNonNegative(levels: Levels, needs: seq<Need>)
    requires AllNonNegative(levels)
    ensures AllNonNegative(Reserve(levels, needs).0)
  {
    if needs != [] && needs[0].ingredient in levels && levels[needs[0].ingredient] >= needs[0].grams {
      var i := needs[0].ingredient;
      ReserveKeepsNonNegative(levels[i := levels[i] - needs[0].grams], needs[1..]);
    }
  }

  /** One at a time, checkouts never overdraw a stock level or a points balance. */
  lemma PlaceKeepsNonNegative(c: Catalogue, t: Tables, req: OrderRequest, key: Option<string>)
    requires AllNonNegative(t.stock) && AllNonNegative(t.users)
    ensures var t' := Place(c, t, req, key).0;
            AllNonNegative(t'.stock) && AllNonNegative(t'.users)
  {
    ReserveKeepsNonNegative(t.stock, Needs(c.recipes, req.items));
  }

  // A checkout that creates an order writes what `Accepted` says, having taken the whole demand; any other writes nothing
  lemma PlacedIsAccepted(c: Catalogue, t: Tables, req: OrderRequest, key: Option<string>)
    ensures var (t', r) := Place(c, t, req, key);
            if r == Ok(Created(|t.orders|)) then
              && t' == Accepted(t, t'.stock, req)
              && Reduced(t.stock, t'.stock, c.recipes, req.items)
              && (Spends(req) ==> req.user in t.users)
            else t' == t
  {
    FindKeyIff(t.orders, key);
    if Place(c, t, req, key).1 == Ok(Created(|t.orders|)) {
      AcceptedTakesDemand(t.stock, c.recipes, req.items);
    }
  }

  // The row of a new order carries the request's user, points and lines, and their total
  ghost predicate RowOf(row: OrderRow, req: OrderRequest) {
    && row.user == req.user && row.loyaltyUsed == req.points
    && row.amount == Total(req.items)
    && |row.lines| == |req.items|
    && (forall k :: 0 <= k < |row.lines| ==>
          row.lines[k].quantity == req.items[k].quantity && row.lines[k].price == req.items[k].price)
    && row.status == "new" && row.paymentStatus.Pending? && row.paymentId.None? && row.idempotencyKey.None?
  }

  // Points are taken from the request's user, and one log row says how many, for which order and what is left
  ghost predicate PointsMoved(t: Tables, t': Tables, req: OrderRequest) {
    var points := if req.points.Some? && req.points.value > 0.0 then req.points.value else 0.0;
    && t'.users.Keys == t.users.Keys
    && (forall u :: u in t.users ==> t'.users[u] == t.users[u] - (if u == req.user then points else 0.0))
    && (points > 0.0 ==> req.user in t'.users)
    && t'.pointsLog == t.pointsLog +
         (if points > 0.0 then [PointsEntry(req.user, |t.orders|, -points, Some(t'.users[req.user]))] else [])
  }

  lemma AcceptedEffect(t: Tables, stock: Levels, req: OrderRequest)
    requires Spends(req) ==> req.user in t.users
    ensures PointsMoved(t, Accepted(t, stock, req), req)
    ensures RowOf(NewOrder(req), req)
  {}

  /**
   A checkout takes what its dishes ask for and the points it records, and adds the order that was requested; anything
   but a new order changes nothing.
   */
  lemma PlaceConserves(c: Catalogue, t: Tables, req: OrderRequest, key: Option<string>)
    ensures var (t', r) := Place(c, t, req, key);
            if r == Ok(Created(|t.orders|)) then
              && Reduced(t.stock, t'.stock, c.recipes, req.items)
              && |t'.orders| == |t.orders| + 1 && t.orders <= t'.orders && RowOf(t'.orders[|t.orders|], req)
              && PointsMoved(t, t', req)
              && t'.movements == t.movements
            else t' == t
  {
    PlacedIsAccepted(c, t, req, key);
    if Place(c, t, req, key).1 == Ok(Created(|t.orders|)) {
      AcceptedEffect(t, Place(c, t, req, key).0.stock, req);
    }
  }

  // ----- What is answered, read from the request and the tables -----

  // The expected price of an item: the menu's, and each modifier adds its option's price if the catalogue knows it
  lemma {:induction false} OptionsAdd(options: map<int, real>, a: seq<int>, m: int)
    ensures OptionsPrice(options, a + [m]) == OptionsPrice(options, a) + if m in options then options[m] else 0.0
  {
    if a == [] {
      assert a + [m] == [m] && [m][1..] == [];
    } else {
      assert (a + [m])[1..] == a[1..] + [m];
      OptionsAdd(options, a[1..], m);
    }
  }

  /**
   Without modifiers an item is expected at the menu's price; each further modifier adds its option's price if the
   catalogue knows it.
   */
  lemma ModifiersAdd(c: Catalogue, item: ItemRequest, m: int)
    requires item.menuItem in c.menu
    ensures CataloguePrice(c, item.(modifiers := [])) == c.menu[item.menuItem]
    ensures CataloguePrice(c, item.(modifiers := item.modifiers + [m]))
         == CataloguePrice(c, item) + if m in c.options then c.options[m] else 0.0
  {
    OptionsAdd(c.options, item.modifiers, m);
  }

  predicate RightPrice(c: Catalogue, item: ItemRequest) {
    item.menuItem in c.menu && -0.01 <= CataloguePrice(c, item) - item.price <= 0.01
  }

  // The first item at fault is `k`, and `e` names its fault
  ghost predicate FirstFault(c: Catalogue, items: seq<ItemRequest>, k: nat, e: CheckoutError) {
    && k < |items| && (forall j :: 0 <= j < k ==> RightPrice(c, items[j])) && !RightPrice(c, items[k])
    && e == if items[k].menuItem in c.menu then PriceMismatch else UnknownMenuItem(items[k].menuItem)
  }

  lemma {:induction false} PriceErrorIsFirst(c: Catalogue, items: seq<ItemRequest>) returns (k: nat)
    requires PriceError(c, items).Some?
    ensures FirstFault(c, items, k, PriceError(c, items).value)
  {
    if RightPrice(c, items[0]) {
      var j := PriceErrorIsFirst(c, items[1..]);
      k := j + 1;
      assert forall m :: 1 <= m < |items| ==> items[m] == items[1..][m - 1];
    } else {
      k := 0;
    }
  }

  lemma {:induction false} FindKeyIsFirst(orders: seq<OrderRow>, key: Option<string>)
    requires FindKey(orders, key).Some?
    ensures var k := FindKey(orders, key).value;
            && k < |orders| && orders[k].idempotencyKey == key
            && forall j :: 0 <= j < k ==> orders[j].idempotencyKey != key
  {
    if orders[0].idempotencyKey != key {
      FindKeyIsFirst(orders[1..], key);
      var k := FindKey(orders, key).value;
      assert forall j :: 1 <= j < |orders| ==> orders[j] == orders[1..][j - 1];
    }
  }

  // The answer `r` to a request whose key, prices and stock pass is about its points
  predicate PointsAnswer(t: Tables, req: OrderRequest, r: Result<Placed, CheckoutError>) {
    if req.points.None? || req.points.value <= 0.0 then r == Ok(Created(|t.orders|))
    else if req.user !in t.users || t.users[req.user] < req.points.value then r == Err(InsufficientPoints)
    else if req.points.value > Total(req.items) / 2.0 then r == Err(DiscountTooLarge)
    else r == Ok(Created(|t.orders|))
  }

  /**
   Every checkout is answered by the first of these that applies: its key's order, a pricing fault, the minimum, the
   stock, the points.
   */
  lemma PlaceAnswers(c: Catalogue, t: Tables, req: OrderRequest, key: Option<string>)
    ensures var r := Place(c, t, req, key).1;
            if !KeyUnknown(t.orders, key) then
              && r.Ok? && r.value.Existing? && r.value.order < |t.orders| && t.orders[r.value.order].idempotencyKey == key
              && forall j :: 0 <= j < r.value.order ==> t.orders[j].idempotencyKey != key
            else if !PricesMatch(c, req.items) then r.Err? && exists k :: FirstFault(c, req.items, k, r.error)
            else if c.minOrder.Some? && Total(req.items) < c.minOrder.value then r == Err(BelowMinimum)
            else if !FitsPeaks(t.stock, Needs(c.recipes, req.items)) then r == Err(InsufficientStock)
            else PointsAnswer(t, req, r)
  {
    FindKeyIff(t.orders, key);
    PriceErrorIff(c, req.items);
    ReserveIsPeaks(t.stock, Needs(c.recipes, req.items));
    if FindKey(t.orders, key).Some? {
      FindKeyIsFirst(t.orders, key);
    } else if PriceError(c, req.items).Some? {
      var k := PriceErrorIsFirst(c, req.items);
    }
  }

  lemma {:induction false} FindKeyIn(orders: seq<OrderRow>, row: OrderRow, key: string)
    requires FindKey(orders, Some(key)).None? && row.idempotencyKey != Some(key)
    ensures FindKey(orders + [row], Some(key)).None?
  {
    if orders != [] {
      assert (orders + [row])[1..] == orders[1..] + [row];
      FindKeyIn(orders[1..], row, key);
    }
  }

  /** The INSERT does not store the request's key, so the lookup never recognises the order just placed. */
  lemma PlacedKeyNotRecognised(c: Catalogue, t: Tables, req: OrderRequest, key: string)
    requires Place(c, t, req, Some(key)).1 == Ok(Created(|t.orders|))
    ensures FindKey(Place(c, t, req, Some(key)).0.orders, Some(key)).None?
  {
    FindKeyIn(t.orders, NewOrder(req), key);
  }

  // ----- The handler -----

  method CheckPrices(c: Catalogue, items: seq<ItemRequest>) returns (error: Option<CheckoutError>)
    ensures error == PriceError(c, items)
  {
    var j := 0;
    while j < |items|
      invariant 0 <= j <= |items|
      invariant PriceError(c, items) == PriceError(c, items[j..])
    {
      var item := items[j];
      assert items[j..][0] == item && items[j..][1..] == items[j + 1..];
      if item.menuItem !in c.menu {
        return Some(UnknownMenuItem(item.menuItem));
      }
      var expected := c.menu[item.menuItem];
      var k := 0;
      while k < |item.modifiers|
        invariant 0 <= k <= |item.modifiers|
        invariant expected + OptionsPrice(c.options, item.modifiers[k..]) == CataloguePrice(c, item)
      {
        assert item.modifiers[k..][1..] == item.modifiers[k + 1..];
        if item.modifiers[k] in c.options {
          expected := expected + c.options[item.modifiers[k]];
        }
        k := k + 1;
      }
      if Abs(expected - item.price) > 0.01 {
        return Some(PriceMismatch);
      }
      j := j + 1;
    }
    error := None;
  }

  /** The INSERT and, when points are spent, the deduction and its log row. */
  method Insert(db: Database, req: OrderRequest) returns (id: nat)
    requires Spends(req) ==> req.user in db.users
    modifies db
    ensures id == |old(db.orders)|
    ensures db.Rows() == Accepted(old(db.Rows()), old(db.stock), req)
  {
    id := |db.orders|;
    db.orders := db.orders + [NewOrder(req)];
    if Spends(req) {
      db.users := db.users[req.user := db.users[req.user] - req.points.value];
      db.pointsLog := db.pointsLog + [SpendEntry(req, id, db.users[req.user])];
    }
  }

  /** `create_order`; every `raise` inside the transaction rolls it back. */
  method CreateOrder(db: Database, req: OrderRequest, key: Option<string>) returns (r: Result<Placed, CheckoutError>)
    modifies db
    ensures (db.Rows(), r) == Place(db.catalogue, old(db.Rows()), req, key)
  {
    var total := Total(req.items);
    var existing := FindKey(db.orders, key);
    if existing.Some? {
      return Ok(Existing(existing.value));
    }
    var priceError := CheckPrices(db.catalogue, req.items);
    if priceError.Some? {
      return Err(priceError.value);
    }
    if db.catalogue.minOrder.Some? && total < db.catalogue.minOrder.value {
      return Err(BelowMinimum);
    }
    var saved := db.Rows();
    var reserved := ReserveIngredients(db, req.items);
    if !reserved {
      db.Rollback(saved);
      return Err(InsufficientStock);
    }
    var loyaltyError := LoyaltyError(db.users, req, total);
    if loyaltyError.Some? {
      db.Rollback(saved);
      return Err(loyaltyError.value);
    }
    var id := Insert(db, req);
    r := Ok(Created(id));
  }
}
