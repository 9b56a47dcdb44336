/** The dashboard summary: its query over paid orders, and the thirty-second cache in front of it. */
module Dashboard {
  import opened Wrappers

  datatype OrderRow = OrderRow(id: int, total: Option<real>, amount: Option<real>, paymentStatus: string, createdAt: real)

  datatype ItemRow = ItemRow(order: int, dish: Option<int>, name: string, quantity: real, total: real)

  datatype Tables = Tables(orders: seq<OrderRow>, items: seq<ItemRow>)

  datatype Group = Group(dish: Option<int>, name: string, quantity: real, revenue: real)

  datatype Summary = Summary(revenue: real, count: nat, average: real, top: seq<Group>)

  // ----- The query -----

  function OrderTotal(o: OrderRow): real {
    if o.total.Some? then o.total.value else if o.amount.Some? then o.amount.value else 0.0
  }

  function PaidOrders(orders: seq<OrderRow>, from: real, to: real): (paid: seq<OrderRow>)
    ensures forall o :: o in paid <==> o in orders && o.paymentStatus == "paid" && from <= o.createdAt < to
  {
    if orders == [] then []
    else
      (if orders[0].paymentStatus == "paid" && from <= orders[0].createdAt < to then [orders[0]] else []) +
      PaidOrders(orders[1..], from, to)
  }

  function Revenue(orders: seq<OrderRow>): real {
    if orders == [] then 0.0 else OrderTotal(orders[0]) + Revenue(orders[1..])
  }

  predicate HasOrder(orders: seq<OrderRow>, id: int) {
    exists k :: 0 <= k < |orders| && orders[k].id == id
  }

  // The join with the paid orders, whose ids are a primary key
  function ItemsOf(items: seq<ItemRow>, paid: seq<OrderRow>): (sold: seq<ItemRow>)
    ensures forall i :: i in sold <==> i in items && exists o :: o in paid && o.id == i.order
  {
    if items == [] then []
    else (if HasOrder(paid, items[0].order) then [items[0]] else []) + ItemsOf(items[1..], paid)
  }

  predicate SameDish(g: Group, i: ItemRow) {
    g.dish == i.dish && g.name == i.name
  }

  function AddItem(groups: seq<Group>, i: ItemRow): seq<Group> {
    if groups == [] then [Group(i.dish, i.name, i.quantity, i.total)]
    else if SameDish(groups[0], i) then
      [groups[0].(quantity := groups[0].quantity + i.quantity, revenue := groups[0].revenue + i.total)] + groups[1..]
    else [groups[0]] + AddItem(groups[1..], i)
  }

  function GroupItems(items: seq<ItemRow>): seq<Group> {
    if items == [] then [] else AddItem(GroupItems(items[..|items| - 1]), items[|items| - 1])
  }

  // ORDER BY revenue DESC, quantity DESC
  predicate RanksFirst(g: Group, h: Group) {
    g.revenue > h.revenue || (g.revenue == h.revenue && g.quantity >= h.quantity)
  }

  function Insert(g: Group, sorted: seq<Group>): seq<Group> {
    if sorted == [] || RanksFirst(g, sorted[0]) then [g] + sorted else [sorted[0]] + Insert(g, sorted[1..])
  }

  function Ranked(groups: seq<Group>): seq<Group> {
    if groups == [] then [] else Insert(groups[0], Ranked(groups[1..]))
  }

  function TopFive(groups: seq<Group>): seq<Group> {
    var ranked := Ranked(groups);
    if |ranked| <= 5 then ranked else ranked[..5]
  }

  function Omitted(groups: seq<Group>): seq<Group> {
    var ranked := Ranked(groups);
    if |ranked| <= 5 then [] else ranked[5..]
  }

  function Average(revenue: real, count: nat): real {
    if count == 0 then 0.0 else revenue / count as real
  }

  function Query(t: Tables, from: real, to: real): Summary {
    var paid := PaidOrders(t.orders, from, to);
    Summary(Revenue(paid), |paid|, Average(Revenue(paid), |paid|), TopFive(GroupItems(ItemsOf(t.items, paid))))
  }

  lemma PaidHead(orders: seq<OrderRow>, from: real, to: real)
    requires orders != []
    ensures var counted := orders[0].paymentStatus == "paid" && from <= orders[0].createdAt < to;
            && Revenue(PaidOrders(orders, from, to)) ==
                 (if counted then OrderTotal(orders[0]) else 0.0) + Revenue(PaidOrders(orders[1..], from, to))
            && |PaidOrders(orders, from, to)| == (if counted then 1 else 0) + |PaidOrders(orders[1..], from, to)|
  {
    var rest := PaidOrders(orders[1..], from, to);
    assert [] + rest == rest && ([orders[0]] + rest)[1..] == rest;
  }

  /** Revenue and order count are additive over adjacent half-open ranges. */
  lemma {:induction false} RangesAdd(orders: seq<OrderRow>, a: real, b: real, c: real)
    requires a <= b <= c
    ensures Revenue(PaidOrders(orders, a, c)) == Revenue(PaidOrders(orders, a, b)) + Revenue(PaidOrders(orders, b, c))
    ensures |PaidOrders(orders, a, c)| == |PaidOrders(orders, a, b)| + |PaidOrders(orders, b, c)|
  {
    if orders != [] {
      RangesAdd(orders[1..], a, b, c);
      PaidHead(orders, a, b);
      PaidHead(orders, b, c);
      PaidHead(orders, a, c);
    }
  }

  // Revenue and quantity of one dish, straight from the items
  function DishRevenue(items: seq<ItemRow>, dish: Option<int>, name: string): real {
    if items == [] then 0.0
    else
      DishRevenue(items[..|items| - 1], dish, name) +
      if items[|items| - 1].dish == dish && items[|items| - 1].name == name then items[|items| - 1].total else 0.0
  }

  function DishQuantity(items: seq<ItemRow>, dish: Option<int>, name: string): real {
    if items == [] then 0.0
    else
      DishQuantity(items[..|items| - 1], dish, name) +
      if items[|items| - 1].dish == dish && items[|items| - 1].name == name then items[|items| - 1].quantity else 0.0
  }

  ghost predicate DistinctKeys(groups: seq<Group>) {
    forall i, j :: 0 <= i < j < |groups| ==> groups[i].dish != groups[j].dish || groups[i].name != groups[j].name
  }

  function Grown(g: Group, i: ItemRow): Group {
    if SameDish(g, i) then g.(quantity := g.quantity + i.quantity, revenue := g.revenue + i.total) else g
  }

  ghost predicate Covered(groups: seq<Group>, i: ItemRow) {
    exists k :: 0 <= k < |groups| && SameDish(groups[k], i)
  }

  lemma CoveredSplit(groups: seq<Group>, i: ItemRow)
    requires groups != []
    ensures Covered(groups, i) <==> SameDish(groups[0], i) || Covered(groups[1..], i)
  {
    if Covered(groups[1..], i) {
      var k :| 0 <= k < |groups[1..]| && SameDish(groups[1..][k], i);
      assert SameDish(groups[k + 1], i);
    }
    if Covered(groups, i) && !SameDish(groups[0], i) {
      var k :| 0 <= k < |groups| && SameDish(groups[k], i);
      assert SameDish(groups[1..][k - 1], i);
    }
  }

  // Adding an item makes a new last group exactly when its dish has none
  lemma {:induction false} AddItemLength(groups: seq<Group>, i: ItemRow)
    ensures |AddItem(groups, i)| == |groups| + if Covered(groups, i) then 0 else 1
    ensures !Covered(groups, i) ==> AddItem(groups, i)[|groups|] == Group(i.dish, i.name, i.quantity, i.total)
  {
    if groups != [] {
      CoveredSplit(groups, i);
      AddItemLength(groups[1..], i);
    }
  }

  lemma DistinctRest(groups: seq<Group>)
    requires DistinctKeys(groups) && groups != []
    ensures DistinctKeys(groups[1..])
  {
    var rest := groups[1..];
    assert forall k :: 0 <= k < |rest| ==> rest[k] == groups[k + 1];
  }

  // Of the old groups, the item's own grows and every other one stays
  lemma {:induction false} AddItemOldGroup(groups: seq<Group>, i: ItemRow, k: nat)
    requires DistinctKeys(groups) && k < |groups|
    ensures k < |AddItem(groups, i)| && AddItem(groups, i)[k] == Grown(groups[k], i)
  {
    AddItemLength(groups, i);
    if k > 0 {
      if SameDish(groups[0], i) {
        assert groups[0].dish != groups[k].dish || groups[0].name != groups[k].name;
      } else {
        DistinctRest(groups);
        AddItemOldGroup(groups[1..], i, k - 1);
        assert AddItem(groups, i)[k] == AddItem(groups[1..], i)[k - 1];
      }
    }
  }

  // What adding an item does: its own dish's group grows or appears, every other group stays
  lemma AddItemEffect(groups: seq<Group>, i: ItemRow)
    requires DistinctKeys(groups)
    ensures var after := AddItem(groups, i);
            && |after| == |groups| + (if Covered(groups, i) then 0 else 1)
            && (forall k :: 0 <= k < |groups| ==> after[k] == Grown(groups[k], i))
            && (!Covered(groups, i) ==> after[|groups|] == Group(i.dish, i.name, i.quantity, i.total))
            && DistinctKeys(after)
  {
    var after := AddItem(groups, i);
    AddItemLength(groups, i);
    forall k | 0 <= k < |groups| ensures after[k] == Grown(groups[k], i) {
      AddItemOldGroup(groups, i, k);
    }
    forall j, k | 0 <= j < k < |after| ensures after[j].dish != after[k].dish || after[j].name != after[k].name {
      assert after[j] == Grown(groups[j], i);
      if k == |groups| {
        assert !SameDish(groups[j], i);
      }
    }
  }

  lemma {:induction false} UnseenDish(items: seq<ItemRow>, dish: Option<int>, name: string)
    requires forall k :: 0 <= k < |items| ==> items[k].dish != dish || items[k].name != name
    ensures DishRevenue(items, dish, name) == 0.0 && DishQuantity(items, dish, name) == 0.0
  {
    if items != [] {
      UnseenDish(items[..|items| - 1], dish, name);
    }
  }

  // A dish once covered stays covered, and the added item's dish is
  lemma AddItemCovers(groups: seq<Group>, i: ItemRow, other: ItemRow)
    requires DistinctKeys(groups) && (Covered(groups, other) || other == i)
    ensures Covered(AddItem(groups, i), other)
  {
    var after := AddItem(groups, i);
    AddItemEffect(groups, i);
    if Covered(groups, other) {
      var k :| 0 <= k < |groups| && SameDish(groups[k], other);
      assert SameDish(after[k], other);
    } else {
      assert SameDish(after[|groups|], i);
    }
  }

  lemma {:induction false} GroupsCoverItems(items: seq<ItemRow>)
    ensures DistinctKeys(GroupItems(items))
    ensures forall j :: 0 <= j < |items| ==> Covered(GroupItems(items), items[j])
  {
    if items != [] {
      var before, i := items[..|items| - 1], items[|items| - 1];
      GroupsCoverItems(before);
      AddItemEffect(GroupItems(before), i);
      forall j | 0 <= j < |items| ensures Covered(GroupItems(items), items[j]) {
        if j < |before| {
          assert before[j] == items[j];
        }
        AddItemCovers(GroupItems(before), i, items[j]);
      }
    }
  }

  ghost predicate Carries(g: Group, items: seq<ItemRow>) {
    g.revenue == DishRevenue(items, g.dish, g.name) && g.quantity == DishQuantity(items, g.dish, g.name)
  }

  // A group that carries its dish's items so far carries them after one more
  lemma GrownCarries(g: Group, items: seq<ItemRow>, i: ItemRow)
    requires Carries(g, items)
    ensures Carries(Grown(g, i), items + [i])
  {
    assert (items + [i])[..|items|] == items;
  }

  lemma NewGroupCarries(items: seq<ItemRow>, i: ItemRow)
    requires forall k :: 0 <= k < |items| ==> items[k].dish != i.dish || items[k].name != i.name
    ensures Carries(Group(i.dish, i.name, i.quantity, i.total), items + [i])
  {
    assert (items + [i])[..|items|] == items;
    UnseenDish(items, i.dish, i.name);
  }

  /** One group per dish sold, carrying exactly the revenue and quantity of that dish's items. */
  lemma {:induction false} GroupsAreDishes(items: seq<ItemRow>)
    ensures DistinctKeys(GroupItems(items))
    ensures forall j :: 0 <= j < |items| ==> Covered(GroupItems(items), items[j])
    ensures forall k :: 0 <= k < |GroupItems(items)| ==> Carries(GroupItems(items)[k], items)
  {
    GroupsCoverItems(items);
    if items != [] {
      var before, i := items[..|items| - 1], items[|items| - 1];
      var groups, after := GroupItems(before), GroupItems(items);
      assert items == before + [i];
      GroupsAreDishes(before);
      AddItemEffect(groups, i);
      forall k | 0 <= k < |after| ensures Carries(after[k], items) {
        if k < |groups| {
          GrownCarries(groups[k], before, i);
        } else {
          forall j | 0 <= j < |before| ensures before[j].dish != i.dish || before[j].name != i.name {
            assert Covered(groups, before[j]);
          }
          NewGroupCarries(before, i);
        }
      }
    }
  }

  function ItemRevenue(items: seq<ItemRow>): real {
    if items == [] then 0.0 else ItemRevenue(items[..|items| - 1]) + items[|items| - 1].total
  }

  function GroupRevenue(groups: seq<Group>): real {
    if groups == [] then 0.0 else groups[0].revenue + GroupRevenue(groups[1..])
  }

  lemma {:induction false} AddItemRevenue(groups: seq<Group>, i: ItemRow)
    ensures GroupRevenue(AddItem(groups, i)) == GroupRevenue(groups) + i.total
  {
    if groups != [] && !SameDish(groups[0], i) {
      AddItemRevenue(groups[1..], i);
    }
  }

  /** Grouping neither loses nor counts twice: the groups' revenue is the items' revenue. */
  lemma {:induction false} GroupingKeepsRevenue(items: seq<ItemRow>)
    ensures GroupRevenue(GroupItems(items)) == ItemRevenue(items)
  {
    if items != [] {
      GroupingKeepsRevenue(items[..|items| - 1]);
      AddItemRevenue(GroupItems(items[..|items| - 1]), items[|items| - 1]);
    }
  }

  ghost predicate Descending(groups: seq<Group>) {
    forall i, j :: 0 <= i < j < |groups| ==> RanksFirst(groups[i], groups[j])
  }

  lemma {:induction false} InsertKeepsOrder(g: Group, sorted: seq<Group>)
    requires Descending(sorted)
    ensures Descending(Insert(g, sorted)) && multiset(Insert(g, sorted)) == multiset(sorted) + multiset{g}
  {
    if sorted != [] && !RanksFirst(g, sorted[0]) {
      var rest := sorted[1..];
      InsertKeepsOrder(g, rest);
      assert sorted == [sorted[0]] + rest;
      forall k | 0 <= k < |Insert(g, rest)| ensures RanksFirst(sorted[0], Insert(g, rest)[k]) {
        assert Insert(g, rest)[k] in multiset(rest) + multiset{g};
      }
    } else {
      assert [g] + sorted == Insert(g, sorted);
    }
  }

  lemma {:induction false} RankedIsSorted(groups: seq<Group>)
    ensures Descending(Ranked(groups)) && multiset(Ranked(groups)) == multiset(groups)
  {
    if groups != [] {
      RankedIsSorted(groups[1..]);
      InsertKeepsOrder(groups[0], Ranked(groups[1..]));
      assert groups == [groups[0]] + groups[1..];
    }
  }

  lemma EarlierOutranksLater(top: seq<Group>, rest: seq<Group>)
    requires Descending(top + rest)
    ensures Descending(top)
    ensures forall g, h :: g in rest && h in top ==> RanksFirst(h, g)
  {
    var all := top + rest;
    forall i, j | 0 <= i < j < |top| ensures RanksFirst(top[i], top[j]) {
      assert all[i] == top[i] && all[j] == top[j];
    }
    forall g, h | g in rest && h in top ensures RanksFirst(h, g) {
      var i :| 0 <= i < |top| && top[i] == h;
      var j :| 0 <= j < |rest| && rest[j] == g;
      assert all[i] == h && all[|top| + j] == g;
    }
  }

  /** The listed dishes are existing ones, in order, as many as five allow; no omitted dish outranks a listed one. */
  lemma TopFiveIsBest(groups: seq<Group>)
    ensures var top := TopFive(groups);
            && |top| == (if |groups| <= 5 then |groups| else 5)
            && Descending(top)
            && multiset(groups) == multiset(top) + multiset(Omitted(groups))
            && (forall g, h :: g in Omitted(groups) && h in top ==> RanksFirst(h, g))
  {
    var ranked, top := Ranked(groups), TopFive(groups);
    RankedIsSorted(groups);
    assert |ranked| == |multiset(ranked)| == |multiset(groups)| == |groups|;
    assert ranked == top + Omitted(groups);
    EarlierOutranksLater(top, Omitted(groups));
  }

  // ----- What a summary says, read from the tables -----

  predicate PaidWithin(o: OrderRow, from: real, to: real) {
    o.paymentStatus == "paid" && from <= o.createdAt && o.createdAt < to
  }

  // The total of every paid order of the range, or its amount, or nothing
  function PaidRevenue(orders: seq<OrderRow>, from: real, to: real): real {
    if orders == [] then 0.0
    else
      PaidRevenue(orders[1..], from, to) +
      match orders[0]
      case OrderRow(_, Some(total), _, _, _) => if PaidWithin(orders[0], from, to) then total else 0.0
      case OrderRow(_, None, Some(amount), _, _) => if PaidWithin(orders[0], from, to) then amount else 0.0
      case OrderRow(_, None, None, _, _) => 0.0
  }

  function PaidCount(orders: seq<OrderRow>, from: real, to: real): nat {
    if orders == [] then 0 else PaidCount(orders[1..], from, to) + if PaidWithin(orders[0], from, to) then 1 else 0
  }

  // The item was sold in a paid order of the range
  ghost predicate Sold(orders: seq<OrderRow>, i: ItemRow, from: real, to: real) {
    exists o :: o in orders && o.id == i.order && PaidWithin(o, from, to)
  }

  ghost function SoldRevenue(t: Tables, from: real, to: real, dish: Option<int>, name: string): real
    decreases t.items
  {
    if t.items == [] then 0.0
    else
      var i := t.items[0];
      (if Sold(t.orders, i, from, to) && i.dish == dish && i.name == name then i.total else 0.0) +
      SoldRevenue(t.(items := t.items[1..]), from, to, dish, name)
  }

  ghost function SoldQuantity(t: Tables, from: real, to: real, dish: Option<int>, name: string): real
    decreases t.items
  {
    if t.items == [] then 0.0
    else
      var i := t.items[0];
      (if Sold(t.orders, i, from, to) && i.dish == dish && i.name == name then i.quantity else 0.0) +
      SoldQuantity(t.(items := t.items[1..]), from, to, dish, name)
  }

  lemma {:induction false} RevenueIsPaid(orders: seq<OrderRow>, from: real, to: real)
    ensures Revenue(PaidOrders(orders, from, to)) == PaidRevenue(orders, from, to)
    ensures |PaidOrders(orders, from, to)| == PaidCount(orders, from, to)
  {
    if orders != [] {
      PaidHead(orders, from, to);
      RevenueIsPaid(orders[1..], from, to);
    }
  }

  lemma {:induction false} DishConcat(a: seq<ItemRow>, b: seq<ItemRow>, dish: Option<int>, name: string)
    ensures DishRevenue(a + b, dish, name) == DishRevenue(a, dish, name) + DishRevenue(b, dish, name)
    ensures DishQuantity(a + b, dish, name) == DishQuantity(a, dish, name) + DishQuantity(b, dish, name)
  {
    if b == [] {
      assert a + b == a;
    } else {
      assert (a + b)[..|a + b| - 1] == a + b[..|b| - 1];
      DishConcat(a, b[..|b| - 1], dish, name);
    }
  }

  lemma HasOrderIffSold(orders: seq<OrderRow>, i: ItemRow, from: real, to: real)
    ensures HasOrder(PaidOrders(orders, from, to), i.order) <==> Sold(orders, i, from, to)
  {
    var paid := PaidOrders(orders, from, to);
    if HasOrder(paid, i.order) {
      var k :| 0 <= k < |paid| && paid[k].id == i.order;
      assert paid[k] in orders && PaidWithin(paid[k], from, to);
    }
    if Sold(orders, i, from, to) {
      var o :| o in orders && o.id == i.order && PaidWithin(o, from, to);
      assert o in paid;
    }
  }

  lemma {:induction false} DishIsSold(t: Tables, from: real, to: real, dish: Option<int>, name: string)
    ensures var items := ItemsOf(t.items, PaidOrders(t.orders, from, to));
            && DishRevenue(items, dish, name) == SoldRevenue(t, from, to, dish, name)
            && DishQuantity(items, dish, name) == SoldQuantity(t, from, to, dish, name)
    decreases t.items
  {
    if t.items != [] {
      var i, paid := t.items[0], PaidOrders(t.orders, from, to);
      DishIsSold(t.(items := t.items[1..]), from, to, dish, name);
      HasOrderIffSold(t.orders, i, from, to);
      var head := if HasOrder(paid, i.order) then [i] else [];
      DishConcat(head, ItemsOf(t.items[1..], paid), dish, name);
    }
  }

  ghost predicate Listed(top: seq<Group>, i: ItemRow) {
    exists g :: g in top && SameDish(g, i)
  }

  // `g` sold for more than the dish of `i`, or for as much and in no smaller quantity
  ghost predicate Outranks(g: Group, t: Tables, from: real, to: real, i: ItemRow) {
    || g.revenue > SoldRevenue(t, from, to, i.dish, i.name)
    || (g.revenue == SoldRevenue(t, from, to, i.dish, i.name) && g.quantity >= SoldQuantity(t, from, to, i.dish, i.name))
  }

  ghost predicate CarriesSold(g: Group, t: Tables, from: real, to: real) {
    g.revenue == SoldRevenue(t, from, to, g.dish, g.name) && g.quantity == SoldQuantity(t, from, to, g.dish, g.name)
  }

  ghost predicate TopMeans(t: Tables, from: real, to: real, top: seq<Group>) {
    && |top| <= 5 && Descending(top)
    && (forall g :: g in top ==> CarriesSold(g, t, from, to))
    && (forall i :: i in t.items && Sold(t.orders, i, from, to) && !Listed(top, i) ==>
          |top| == 5 && forall g :: g in top ==> Outranks(g, t, from, to, i))
  }

  // The groups of the items sold: each carries what was sold, and every item sold has one
  ghost predicate GroupsMean(t: Tables, from: real, to: real, groups: seq<Group>) {
    && (forall g :: g in groups ==> CarriesSold(g, t, from, to))
    && (forall i :: i in t.items && Sold(t.orders, i, from, to) ==> Covered(groups, i))
  }

  lemma GroupsCarrySold(t: Tables, from: real, to: real)
    ensures GroupsMean(t, from, to, GroupItems(ItemsOf(t.items, PaidOrders(t.orders, from, to))))
  {
    var items := ItemsOf(t.items, PaidOrders(t.orders, from, to));
    GroupsAreDishes(items);
    forall g | g in GroupItems(items) ensures CarriesSold(g, t, from, to) {
      assert Carries(g, items);
      DishIsSold(t, from, to, g.dish, g.name);
    }
    forall i | i in t.items && Sold(t.orders, i, from, to) ensures Covered(GroupItems(items), i) {
      HasOrderIffSold(t.orders, i, from, to);
      assert i in items;
    }
  }

  lemma TopOrOmitted(groups: seq<Group>, g: Group)
    ensures g in groups <==> g in TopFive(groups) || g in Omitted(groups)
  {
    TopFiveIsBest(groups);
    assert g in groups <==> g in multiset(groups);
  }

  lemma SmallTopOmitsNothing(groups: seq<Group>)
    requires Omitted(groups) != []
    ensures |TopFive(groups)| == 5
  {}

  lemma TopOfGroups(t: Tables, from: real, to: real, groups: seq<Group>)
    requires GroupsMean(t, from, to, groups)
    ensures TopMeans(t, from, to, TopFive(groups))
  {
    var top := TopFive(groups);
    TopFiveIsBest(groups);
    forall g | g in top ensures CarriesSold(g, t, from, to) {
      TopOrOmitted(groups, g);
    }
    forall i | i in t.items && Sold(t.orders, i, from, to) && !Listed(top, i)
      ensures |top| == 5 && forall g :: g in top ==> Outranks(g, t, from, to, i)
    {
      var k :| 0 <= k < |groups| && SameDish(groups[k], i);
      var h := groups[k];
      assert CarriesSold(h, t, from, to);
      TopOrOmitted(groups, h);
      SmallTopOmitsNothing(groups);
      assert forall g :: g in top ==> RanksFirst(g, h);
    }
  }

  // `average` is nothing for no orders, and otherwise what times `count` makes `revenue`
  predicate Averages(average: real, count: nat, revenue: real) {
    if count == 0 then average == 0.0 else average * count as real == revenue
  }

  lemma AverageAverages(revenue: real, count: nat)
    ensures Averages(Average(revenue, count), count, revenue)
  {}

  /** A summary's revenue, number and average are those of the orders paid in the range. */
  lemma QueryTotals(t: Tables, from: real, to: real)
    ensures var s := Query(t, from, to);
            && s.revenue == PaidRevenue(t.orders, from, to)
            && s.count == PaidCount(t.orders, from, to)
            && Averages(s.average, s.count, s.revenue)
  {
    RevenueIsPaid(t.orders, from, to);
    AverageAverages(PaidRevenue(t.orders, from, to), PaidCount(t.orders, from, to));
  }

  /** Its list is the best five dishes sold in them: a dish that was sold and is not listed is outranked by five that are. */
  lemma QueryTop(t: Tables, from: real, to: real)
    ensures TopMeans(t, from, to, Query(t, from, to).top)
  {
    GroupsCarrySold(t, from, to);
    TopOfGroups(t, from, to, GroupItems(ItemsOf(t.items, PaidOrders(t.orders, from, to))));
  }

  // ----- The cache -----

  const TTL := 30.0

  datatype Key = Key(tenant: int, from: real, to: real)

  datatype Entry = Entry(value: Summary, expires: real)

  type Cache = map<Key, Entry>

  predicate Live(cache: Cache, key: Key, at: real) {
    key in cache && at < cache[key].expires
  }

  // SETEX: the thirty seconds run from the write, not from the query
  function Stored(cache: Cache, key: Key, value: Summary, at: real): Cache {
    cache[key := Entry(value, at + TTL)]
  }

  // A read that nothing interrupts: GET at `get`, the query, SETEX at `put`
  function Read(tables: map<int, Tables>, cache: Cache, key: Key, get: real, put: real): (Summary, Cache)
    requires key.tenant in tables
  {
    if Live(cache, key, get) then (cache[key].value, cache)
    else
      var value := Query(tables[key.tenant], key.from, key.to);
      (value, Stored(cache, key, value, put))
  }

  class SummaryService {
    var tables: map<int, Tables>
    var cache: Cache

    constructor (tables: map<int, Tables>)
      ensures this.tables == tables && cache == map[]
    {
      this.tables, cache := tables, map[];
    }

    method GetSummary(key: Key, get: real, put: real) returns (r: Summary)
      requires key.tenant in tables
      modifies this`cache
      ensures (r, cache) == Read(tables, old(cache), key, get, put)
    {
      if key in cache && get < cache[key].expires {
        return cache[key].value;
      }
      r := Query(tables[key.tenant], key.from, key.to);
      cache := cache[key := Entry(r, put + TTL)];
    }
  }

  // ----- Reads interleaved with changes and with each other -----

  // A read whose GET missed, and one whose query has run (at `since`) but whose SETEX has not
  datatype Pending = Missed(key: Key) | Fetched(key: Key, value: Summary, since: real)

  datatype State = State(tables: map<int, Tables>, cache: Cache, open: map<int, Pending>)

  // A tenant's tables change in any way, or reader `reader` does its GET, its query or its SETEX
  datatype Action =
    | Change(tenant: int, tables: Tables, at: real)
    | Get(reader: int, key: Key, at: real)
    | Fetch(reader: int, at: real)
    | Put(reader: int, at: real)

  predicate Fetches(s: State, a: Action) {
    a.Fetch? && a.reader in s.open && s.open[a.reader].Missed? && s.open[a.reader].key.tenant in s.tables
  }

  predicate Puts(s: State, a: Action) {
    a.Put? && a.reader in s.open && s.open[a.reader].Fetched?
  }

  // Actions that are not enabled leave the state as it is; a GET that hits answers at once
  function Apply(s: State, a: Action): State {
    match a
    case Change(tenant, tables, _) => s.(tables := s.tables[tenant := tables])
    case Get(reader, key, at) =>
      if reader in s.open || Live(s.cache, key, at) then s else s.(open := s.open[reader := Missed(key)])
    case Fetch(reader, at) =>
      if !Fetches(s, a) then s
      else
        var key := s.open[reader].key;
        s.(open := s.open[reader := Fetched(key, Query(s.tables[key.tenant], key.from, key.to), at)])
    case Put(reader, at) =>
      if !Puts(s, a) then s
      else
        var p := s.open[reader];
        s.(cache := Stored(s.cache, p.key, p.value, at), open := s.open - {reader})
  }

  function Run(s: State, acts: seq<Action>): State {
    if acts == [] then s else Apply(Run(s, acts[..|acts| - 1]), acts[|acts| - 1])
  }

  // The summary that an action returns to its reader
  function Answer(s: State, a: Action): Option<(Key, Summary)> {
    if a.Get? && a.reader !in s.open && Live(s.cache, a.key, a.at) then Some((a.key, s.cache[a.key].value))
    else if Puts(s, a) then Some((s.open[a.reader].key, s.open[a.reader].value))
    else None
  }

  /** A read whose steps nothing interrupts answers and caches what the handler does. */
  lemma UninterruptedRead(s: State, reader: int, key: Key, get: real, fetch: real, put: real)
    requires s.open == map[] && key.tenant in s.tables
    ensures var (value, cache) := Read(s.tables, s.cache, key, get, put);
            var s1 := Apply(s, Get(reader, key, get));
            var s2 := Apply(s1, Fetch(reader, fetch));
            if Live(s.cache, key, get) then Answer(s, Get(reader, key, get)) == Some((key, value)) && s1 == s.(cache := cache)
            else Answer(s2, Put(reader, put)) == Some((key, value)) && Apply(s2, Put(reader, put)) == s.(cache := cache)
  {}

  // At step `j` of the run the query really had the result `value`
  ghost predicate TrueAt(s: State, acts: seq<Action>, j: nat, key: Key, value: Summary)
    requires j <= |acts|
  {
    var past := Run(s, acts[..j]);
    key.tenant in past.tables && value == Query(past.tables[key.tenant], key.from, key.to)
  }

  // Step `j` ran the query that `p` holds the result of
  ghost predicate Origin(s: State, acts: seq<Action>, j: nat, p: Pending) {
    p.Fetched? && j < |acts| && acts[j].at == p.since && TrueAt(s, acts, j, p.key, p.value)
  }

  // Step `m` put `value` into the cache until `expires`, having queried it at step `j`
  ghost predicate CachedBy(s: State, acts: seq<Action>, j: nat, m: nat, key: Key, value: Summary, expires: real) {
    && j < m < |acts| && Puts(Run(s, acts[..m]), acts[m])
    && acts[m].at + 30.0 == expires
    && var p := Run(s, acts[..m]).open[acts[m].reader];
       p.key == key && p.value == value && Origin(s, acts, j, p)
  }

  lemma OriginStays(s: State, acts: seq<Action>, a: Action, j: nat, p: Pending)
    requires Origin(s, acts, j, p)
    ensures Origin(s, acts + [a], j, p)
  {
    assert (acts + [a])[..j] == acts[..j];
  }

  lemma CachedByStays(s: State, acts: seq<Action>, a: Action, j: nat, m: nat, key: Key, e: Entry)
    requires CachedBy(s, acts, j, m, key, e.value, e.expires)
    ensures CachedBy(s, acts + [a], j, m, key, e.value, e.expires)
  {
    assert (acts + [a])[..m] == acts[..m];
    OriginStays(s, acts, a, j, Run(s, acts[..m]).open[acts[m].reader]);
  }

  ghost predicate Empty(s: State) {
    s.cache == map[] && s.open == map[]
  }

  // A fetched read was fetched before this step, or this step ran its query
  lemma FetchedHow(s: State, a: Action, reader: int)
    requires reader in Apply(s, a).open && Apply(s, a).open[reader].Fetched?
    ensures reader in s.open
    ensures var p := Apply(s, a).open[reader];
            if s.open[reader].Fetched? then s.open[reader] == p
            else
              && a.at == p.since && p.key.tenant in s.tables
              && p.value == Query(s.tables[p.key.tenant], p.key.from, p.key.to)
  {}

  // The step that has just run a query is its origin
  lemma FetchIsOrigin(s: State, before: seq<Action>, a: Action, p: Pending)
    requires p.Fetched? && a.at == p.since
    requires var now := Run(s, before);
             p.key.tenant in now.tables && p.value == Query(now.tables[p.key.tenant], p.key.from, p.key.to)
    ensures Origin(s, before + [a], |before|, p)
  {
    assert (before + [a])[..|before|] == before;
  }

  lemma {:induction false} PendingHasOrigin(s: State, acts: seq<Action>, reader: int) returns (j: nat)
    requires Empty(s) && reader in Run(s, acts).open && Run(s, acts).open[reader].Fetched?
    ensures Origin(s, acts, j, Run(s, acts).open[reader])
  {
    assert acts != [];
    var before, a := acts[..|acts| - 1], acts[|acts| - 1];
    var p := Run(s, acts).open[reader];
    assert acts == before + [a];
    FetchedHow(Run(s, before), a, reader);
    if Run(s, before).open[reader].Fetched? {
      j := PendingHasOrigin(s, before, reader);
      OriginStays(s, before, a, j, p);
    } else {
      FetchIsOrigin(s, before, a, p);
      j := |before|;
    }
  }

  lemma {:induction false} EntryHasOrigin(s: State, acts: seq<Action>, key: Key) returns (j: nat, m: nat)
    requires Empty(s) && key in Run(s, acts).cache
    ensures var e := Run(s, acts).cache[key];
            CachedBy(s, acts, j, m, key, e.value, e.expires)
  {
    var before, a := acts[..|acts| - 1], acts[|acts| - 1];
    assert acts == before + [a];
    var now := Run(s, before);
    if Puts(now, a) && now.open[a.reader].key == key {
      j := PendingHasOrigin(s, before, a.reader);
      OriginStays(s, before, a, j, now.open[a.reader]);
      m := |before|;
    } else {
      j, m := EntryHasOrigin(s, before, key);
      CachedByStays(s, before, a, j, m, key, now.cache[key]);
    }
  }

  ghost predicate Ordered(acts: seq<Action>) {
    forall i, j :: 0 <= i < j < |acts| ==> acts[i].at <= acts[j].at
  }

  /**
   Every answer is the true result, for its key, of a query run at step `j` and cached at step `m` less than thirty
   seconds ago.
   */
  lemma AnswerIsRecent(s: State, acts: seq<Action>, a: Action) returns (j: nat, m: nat)
    requires Empty(s) && Ordered(acts + [a]) && Answer(Run(s, acts), a).Some?
    ensures var all := acts + [a];
            var (key, value) := Answer(Run(s, acts), a).value;
            && j < m < |all|
            && CachedBy(s, all, j, m, key, value, all[m].at + 30.0)
            && all[j].at <= all[m].at <= a.at
            && a.at - all[j].at < 30.0 + (all[m].at - all[j].at)
  {
    var all, now := acts + [a], Run(s, acts);
    assert all[..|acts|] == acts && all[|acts|] == a;
    if a.Get? {
      j, m := EntryHasOrigin(s, acts, a.key);
      CachedByStays(s, acts, a, j, m, a.key, now.cache[a.key]);
    } else {
      j := PendingHasOrigin(s, acts, a.reader);
      OriginStays(s, acts, a, j, now.open[a.reader]);
      m := |acts|;
    }
    assert all[j].at <= all[m].at;
    if m < |acts| {
      assert all[m].at <= all[|acts|].at;
    }
  }

  // ----- How old an answer can be -----

  // No read takes more than `latency` from its query to its SETEX
  ghost predicate Prompt(s: State, acts: seq<Action>, latency: real) {
    forall m :: 0 <= m < |acts| && Puts(Run(s, acts[..m]), acts[m]) ==>
      acts[m].at - Run(s, acts[..m]).open[acts[m].reader].since <= latency
  }

  // The answer was the query's true result at some step less than `age` seconds before
  ghost predicate TrueWithin(s: State, acts: seq<Action>, a: Action, age: real)
    requires Answer(Run(s, acts), a).Some?
  {
    var all := acts + [a];
    var (key, value) := Answer(Run(s, acts), a).value;
    exists j :: 0 <= j < |all| && 0.0 <= a.at - all[j].at < age && TrueAt(s, all, j, key, value)
  }

  ghost predicate Keeps(s: State, acts: seq<Action>, a: Action, latency: real, age: real) {
    Empty(s) && Ordered(acts + [a]) && Prompt(s, acts + [a], latency) && Answer(Run(s, acts), a).Some? ==>
      TrueWithin(s, acts, a, age)
  }

  lemma PromptAnswerIsRecent(s: State, acts: seq<Action>, a: Action, latency: real, age: real)
    requires age >= 30.0 + latency
    ensures Keeps(s, acts, a, latency, age)
  {
    if Empty(s) && Ordered(acts + [a]) && Prompt(s, acts + [a], latency) && Answer(Run(s, acts), a).Some? {
      var j, m := AnswerIsRecent(s, acts, a);
      var all := acts + [a];
      var (key, value) := Answer(Run(s, acts), a).value;
      assert TrueAt(s, all, j, key, value);
    }
  }

  // An order is paid right after the query of a read whose SETEX comes `latency` later; a second reader asks at `asked`
  const DAY := Key(1, 0.0, 1.0)
  const NO_ORDERS := Tables([], [])
  const ONE_ORDER := Tables([OrderRow(1, Some(5.0), None, "paid", 0.5)], [])
  const QUIET := State(map[1 := NO_ORDERS], map[], map[])

  function LateRead(latency: real): seq<Action> {
    [Get(1, DAY, 0.0), Fetch(1, 0.0), Change(1, ONE_ORDER, 0.0), Put(1, latency)]
  }

  lemma RunNext(s: State, acts: seq<Action>, k: nat)
    requires k < |acts|
    ensures Run(s, acts[..k + 1]) == Apply(Run(s, acts[..k]), acts[k])
  {
    assert acts[..k + 1][..k] == acts[..k];
  }

  lemma OneOrderCounts()
    ensures Query(NO_ORDERS, 0.0, 1.0).count == 0 && Query(ONE_ORDER, 0.0, 1.0).count == 1
  {
    PaidHead(ONE_ORDER.orders, 0.0, 1.0);
  }

  lemma LateReadStates(latency: real)
    ensures var acts, none := LateRead(latency), Query(NO_ORDERS, 0.0, 1.0);
            && Run(QUIET, acts[..0]) == QUIET
            && Run(QUIET, acts[..1]) == QUIET.(open := map[1 := Missed(DAY)])
            && Run(QUIET, acts[..2]) == QUIET.(open := map[1 := Fetched(DAY, none, 0.0)])
            && Run(QUIET, acts[..3]) == State(map[1 := ONE_ORDER], map[], map[1 := Fetched(DAY, none, 0.0)])
            && Run(QUIET, acts[..4]) == State(map[1 := ONE_ORDER], map[DAY := Entry(none, latency + 30.0)], map[])
  {
    var acts := LateRead(latency);
    RunNext(QUIET, acts, 0);
    RunNext(QUIET, acts, 1);
    RunNext(QUIET, acts, 2);
    RunNext(QUIET, acts, 3);
  }

  lemma LateReadIsPrompt(latency: real, a: Action)
    requires a.Get?
    ensures Prompt(QUIET, LateRead(latency) + [a], latency)
  {
    var acts, all := LateRead(latency), LateRead(latency) + [a];
    LateReadStates(latency);
    forall m | 0 <= m < |all| && Puts(Run(QUIET, all[..m]), all[m])
      ensures all[m].at - Run(QUIET, all[..m]).open[all[m].reader].since <= latency
    {
      assert m == 3 && all[..3] == acts[..3];
    }
  }

  // The result of the late read was true only at the run's first instant
  lemma LateReadTrueEarly(latency: real, a: Action, j: nat)
    requires j <= 4 && TrueAt(QUIET, LateRead(latency) + [a], j, DAY, Query(NO_ORDERS, 0.0, 1.0))
    ensures j <= 2
  {
    assert (LateRead(latency) + [a])[..j] == LateRead(latency)[..j];
    LateReadStates(latency);
    OneOrderCounts();
  }

  lemma LateAnswer(latency: real, a: Action)
    requires a.Get? && a.reader == 2 && a.key == DAY && 0.0 <= latency <= a.at < 30.0 + latency
    ensures Empty(QUIET) && Ordered(LateRead(latency) + [a])
    ensures Answer(Run(QUIET, LateRead(latency)), a) == Some((DAY, Query(NO_ORDERS, 0.0, 1.0)))
  {
    LateReadStates(latency);
    assert LateRead(latency)[..4] == LateRead(latency);
  }

  lemma LateAnswerIsOld(latency: real, age: real)
    requires 0.0 <= latency && age < 30.0 + latency
    ensures !Keeps(QUIET, LateRead(latency), Get(2, DAY, if age < latency then latency else age), latency, age)
  {
    var acts, a := LateRead(latency), Get(2, DAY, if age < latency then latency else age);
    var all, none := acts + [a], Query(NO_ORDERS, 0.0, 1.0);
    LateAnswer(latency, a);
    LateReadIsPrompt(latency, a);
    forall j | 0 <= j < |all| && TrueAt(QUIET, all, j, DAY, none) ensures all[j].at == 0.0 {
      LateReadTrueEarly(latency, a, j);
    }
    assert !TrueWithin(QUIET, acts, a, age);
  }

  /**
   When no read takes longer than `latency` to cache its result, `age` seconds bound every answer exactly from thirty
   plus the latency on.
   */
  lemma AgeBoundIff(latency: real, age: real)
    requires latency >= 0.0
    ensures (forall s, acts, a :: Keeps(s, acts, a, latency, age)) <==> age >= 30.0 + latency
  {
    if age >= 30.0 + latency {
      forall s, acts, a ensures Keeps(s, acts, a, latency, age) {
        PromptAnswerIsRecent(s, acts, a, latency, age);
      }
    } else {
      LateAnswerIsOld(latency, age);
    }
  }
}
