/** Creating an admin or widget order: the basket check, its lines and its stored totals. */
module OrderTotals {
  import opened Wrappers

  // Menu prices are whole kopecks; quantities may be fractional
  datatype MenuItem = MenuItem(name: string, price: int, available: bool)

  datatype ItemRequest = ItemRequest(menuItem: int, quantity: real)

  datatype Line = Line(menuItem: int, name: string, price: int, quantity: real, total: real)

  datatype Basket = Basket(lines: seq<Line>, subtotal: real)

  function Ids(items: seq<ItemRequest>): (ids: seq<int>)
    ensures |ids| == |items|
    ensures forall k :: 0 <= k < |items| ==> ids[k] == items[k].menuItem
  {
    seq(|items|, k requires 0 <= k < |items| => items[k].menuItem)
  }

  // The rows the query returns, keyed by id as the source's dictionary is
  function Available(menu: map<int, MenuItem>, ids: seq<int>): map<int, MenuItem> {
    map id | id in ids && id in menu && menu[id].available :: menu[id]
  }

  ghost predicate Distinct(ids: seq<int>) {
    forall i, j :: 0 <= i < j < |ids| ==> ids[i] != ids[j]
  }

  ghost predicate AllAvailable(menu: map<int, MenuItem>, ids: seq<int>) {
    forall k :: 0 <= k < |ids| ==> ids[k] in menu && menu[ids[k]].available
  }

  lemma OneMoreId(menu: map<int, MenuItem>, rest: seq<int>, last: int)
    ensures Distinct(rest + [last]) <==> Distinct(rest) && last !in rest
    ensures AllAvailable(menu, rest + [last]) <==> AllAvailable(menu, rest) && last in menu && menu[last].available
  {
    var ids := rest + [last];
    assert ids[|rest|] == last && forall k :: 0 <= k < |rest| ==> ids[k] == rest[k];
    if last in rest {
      var k :| 0 <= k < |rest| && rest[k] == last;
      assert ids[k] == ids[|rest|];
    }
    if Distinct(ids) {
      forall i, j | 0 <= i < j < |rest| ensures rest[i] != rest[j] {
        assert ids[i] != ids[j];
      }
    }
    if AllAvailable(menu, ids) {
      forall k | 0 <= k < |rest| ensures rest[k] in menu && menu[rest[k]].available {
        assert ids[k] == rest[k];
      }
    }
  }

  lemma FoundWithOneMore(menu: map<int, MenuItem>, rest: seq<int>, last: int)
    ensures |Available(menu, rest + [last])| ==
              |Available(menu, rest)| + if last in menu && menu[last].available && last !in rest then 1 else 0
  {
    var found, before := Available(menu, rest + [last]), Available(menu, rest);
    if last in menu && menu[last].available && last !in rest {
      assert found == before[last := menu[last]];
    } else {
      assert found == before;
    }
  }

  /** Comparing the number of rows found with the number of ids asked for detects repetition and absence alike. */
  lemma {:induction false} FoundAtMost(menu: map<int, MenuItem>, ids: seq<int>)
    ensures |Available(menu, ids)| <= |ids|
    ensures |Available(menu, ids)| == |ids| <==> Distinct(ids) && AllAvailable(menu, ids)
  {
    if ids != [] {
      var rest, last := ids[..|ids| - 1], ids[|ids| - 1];
      assert ids == rest + [last];
      FoundAtMost(menu, rest);
      FoundWithOneMore(menu, rest, last);
      OneMoreId(menu, rest, last);
    }
  }

  function LineOf(menu: map<int, MenuItem>, item: ItemRequest): Line
    requires item.menuItem in menu
  {
    var m := menu[item.menuItem];
    Line(item.menuItem, m.name, m.price, item.quantity, m.price as real * item.quantity)
  }

  function Sum(lines: seq<Line>): real {
    if lines == [] then 0.0 else Sum(lines[..|lines| - 1]) + lines[|lines| - 1].total
  }

  // The menu's price times the quantity, summed over the request
  function Amount(menu: map<int, MenuItem>, items: seq<ItemRequest>): real {
    if items == [] then 0.0
    else
      var last := items[|items| - 1];
      Amount(menu, items[..|items| - 1]) +
      if last.menuItem in menu then menu[last.menuItem].price as real * last.quantity else 0.0
  }

  // A line repeats its item and the menu, and totals price times quantity
  predicate Prices(menu: map<int, MenuItem>, item: ItemRequest, line: Line) {
    && item.menuItem in menu
    && line.menuItem == item.menuItem && line.quantity == item.quantity
    && line.name == menu[item.menuItem].name && line.price == menu[item.menuItem].price
    && line.total == menu[item.menuItem].price as real * item.quantity
  }

  // The first lines of a basket are priced, in order
  ghost predicate Priced(menu: map<int, MenuItem>, items: seq<ItemRequest>, lines: seq<Line>) {
    && |lines| <= |items|
    && forall k :: 0 <= k < |lines| ==> Prices(menu, items[k], lines[k])
  }

  ghost predicate WholeQuantities(lines: seq<Line>) {
    forall k :: 0 <= k < |lines| ==>
      lines[k].quantity == lines[k].quantity.Floor as real && lines[k].total == lines[k].price as real * lines[k].quantity
  }

  ghost predicate WholeItems(items: seq<ItemRequest>) {
    forall k :: 0 <= k < |items| ==> items[k].quantity == items[k].quantity.Floor as real
  }

  lemma PricedNext(menu: map<int, MenuItem>, items: seq<ItemRequest>, lines: seq<Line>, line: Line)
    requires Priced(menu, items, lines) && |lines| < |items| && Prices(menu, items[|lines|], line)
    ensures Priced(menu, items, lines + [line])
  {
    forall k | 0 <= k < |lines + [line]| ensures Prices(menu, items[k], (lines + [line])[k]) {
      assert k < |lines| ==> (lines + [line])[k] == lines[k];
    }
  }

  lemma SumNext(lines: seq<Line>, line: Line)
    ensures Sum(lines + [line]) == Sum(lines) + line.total
  {
    assert (lines + [line])[..|lines|] == lines;
  }

  lemma WholeItemsWholeLines(menu: map<int, MenuItem>, items: seq<ItemRequest>, lines: seq<Line>)
    requires Priced(menu, items, lines) && WholeItems(items)
    ensures WholeQuantities(lines)
  {
    assert forall k :: 0 <= k < |lines| ==> Prices(menu, items[k], lines[k]);
  }

  // An item whose id was found is priced from the whole menu
  lemma FoundLine(menu: map<int, MenuItem>, items: seq<ItemRequest>, k: nat)
    requires k < |items| && AllAvailable(menu, Ids(items))
    ensures var found := Available(menu, Ids(items));
            items[k].menuItem in found && Prices(menu, items[k], LineOf(found, items[k]))
  {
    assert Ids(items)[k] == items[k].menuItem;
  }

  lemma {:induction false} PricedSum(menu: map<int, MenuItem>, items: seq<ItemRequest>, lines: seq<Line>)
    requires |lines| == |items| && Priced(menu, items, lines)
    ensures Sum(lines) == Amount(menu, items)
  {
    if items != [] {
      var n := |items| - 1;
      assert Prices(menu, items[n], lines[n]);
      assert forall k :: 0 <= k < n ==> lines[..n][k] == lines[k] && items[..n][k] == items[k];
      PricedSum(menu, items[..n], lines[..n]);
    }
  }

  /**
   A basket is accepted exactly when its ids are pairwise distinct and all available; it has one line per item, in order,
   at the menu's price times the quantity, and their sum as subtotal.
   */
  method BuildBasket(menu: map<int, MenuItem>, items: seq<ItemRequest>) returns (r: Option<Basket>)
    ensures r.Some? <==> Distinct(Ids(items)) && AllAvailable(menu, Ids(items))
    ensures r.Some? ==>
              && |r.value.lines| == |items| && Priced(menu, items, r.value.lines)
              && r.value.subtotal == Amount(menu, items) == Sum(r.value.lines)
              && (WholeItems(items) ==> WholeQuantities(r.value.lines))
  {
    var ids := Ids(items);
    var found := Available(menu, ids);
    FoundAtMost(menu, ids);
    if |found| != |ids| {
      return None;
    }
    var lines: seq<Line>, subtotal := [], 0.0;
    for k := 0 to |items|
      invariant |lines| == k && Priced(menu, items, lines)
      invariant subtotal == Sum(lines)
    {
      FoundLine(menu, items, k);
      var line := LineOf(found, items[k]);
      PricedNext(menu, items, lines, line);
      SumNext(lines, line);
      subtotal := subtotal + line.total;
      lines := lines + [line];
    }
    PricedSum(menu, items, lines);
    if WholeItems(items) {
      WholeItemsWholeLines(menu, items, lines);
    }
    r := Some(Basket(lines, subtotal));
  }

  // ----- Storage rounds to two decimals, half away from zero -----

  function Round(x: real): int {
    if x >= 0.0 then (x + 0.5).Floor else -((-x + 0.5).Floor)
  }

  function StoredSum(lines: seq<Line>): int {
    if lines == [] then 0 else StoredSum(lines[..|lines| - 1]) + Round(lines[|lines| - 1].total)
  }

  lemma RoundIsNear(x: real)
    ensures -0.5 <= Round(x) as real - x <= 0.5
  {}

  lemma {:induction false} LinesDrift(lines: seq<Line>)
    ensures var gap := StoredSum(lines) as real - Sum(lines);
            -(|lines| as real) / 2.0 <= gap <= |lines| as real / 2.0
  {
    if lines != [] {
      LinesDrift(lines[..|lines| - 1]);
      RoundIsNear(lines[|lines| - 1].total);
    }
  }

  // When every line rounds by a full half in one direction, the lines lie on one side of zero, and so does their sum
  lemma {:induction false} FullDriftSign(lines: seq<Line>)
    ensures var gap := StoredSum(lines) as real - Sum(lines);
            && (gap == |lines| as real / 2.0 ==> Sum(lines) >= 0.0)
            && (gap == -(|lines| as real) / 2.0 ==> Sum(lines) <= 0.0)
  {
    if lines != [] {
      var before, last := lines[..|lines| - 1], lines[|lines| - 1].total;
      FullDriftSign(before);
      LinesDrift(before);
      RoundIsNear(last);
      assert Round(last) as real - last == 0.5 ==> last >= 0.0;
      assert Round(last) as real - last == -0.5 ==> last <= 0.0;
    }
  }

  /** The stored total of an n-line order differs from the sum of its stored line totals by at most n / 2 whole kopecks. */
  lemma StoredTotalDrift(lines: seq<Line>)
    ensures -(|lines| / 2) <= Round(Sum(lines)) - StoredSum(lines) <= |lines| / 2
  {
    var n, gap := |lines|, Round(Sum(lines)) - StoredSum(lines);
    LinesDrift(lines);
    RoundIsNear(Sum(lines));
    FullDriftSign(lines);
    assert -(n + 1) <= 2 * gap <= n + 1;
    assert 2 * gap != n + 1 && 2 * gap != -(n + 1);
  }

  // `n` portions of half a kopeck
  function Halves(n: nat): (lines: seq<Line>)
    ensures |lines| == n
  {
    if n == 0 then [] else Halves(n - 1) + [Line(n, "Sugar", 1, 0.5, 0.5)]
  }

  lemma {:induction false} HalvesSums(n: nat)
    ensures Sum(Halves(n)) == n as real / 2.0 && StoredSum(Halves(n)) == n
  {
    if n > 0 {
      HalvesSums(n - 1);
      assert Halves(n)[..n - 1] == Halves(n - 1);
      assert Round(0.5) == 1;
    }
  }

  /** For every n the bound is reached. */
  lemma DriftIsReached(n: nat)
    ensures Round(Sum(Halves(n))) - StoredSum(Halves(n)) == -(n / 2)
  {
    HalvesSums(n);
    var half := (n + 1) / 2;
    assert (n as real / 2.0 + 0.5).Floor == half;
  }

  lemma ProductOfWholes(a: int, b: int)
    ensures a as real * b as real == (a * b) as real
  {}

  lemma RoundOfWhole(n: int)
    ensures Round(n as real) == n
  {}

  /** With whole quantities nothing is lost: the stored total is the sum of the stored line totals. */
  lemma {:induction false} WholeQuantitiesAreExact(lines: seq<Line>)
    requires WholeQuantities(lines)
    ensures StoredSum(lines) as real == Sum(lines)
    ensures Round(Sum(lines)) == StoredSum(lines)
  {
    if lines != [] {
      var last := lines[|lines| - 1];
      WholeQuantitiesAreExact(lines[..|lines| - 1]);
      ProductOfWholes(last.price, last.quantity.Floor);
      var whole := last.price * last.quantity.Floor;
      assert last.total == whole as real;
      RoundOfWhole(whole);
    }
    RoundOfWhole(StoredSum(lines));
  }
}
