/** Ingredient stock: the reservation loop of checkout and the adding side of the ledger. */
module Stock {
  import opened Wrappers
  import opened Store

  type Levels = map<int, real>

  // Grams of one ingredient that one recipe row of one order item asks for
  datatype Need = Need(ingredient: int, grams: real)

  function RecipeOf(recipes: seq<RecipeRow>, menuItem: int): seq<RecipeRow> {
    if recipes == [] then []
    else (if recipes[0].menuItem == menuItem then [recipes[0]] else []) + RecipeOf(recipes[1..], menuItem)
  }

  function RowNeed(row: RecipeRow, quantity: int): Need {
    Need(row.ingredient, row.grams * quantity as real)
  }

  function ItemNeeds(recipe: seq<RecipeRow>, quantity: int): seq<Need> {
    if recipe == [] then [] else [RowNeed(recipe[0], quantity)] + ItemNeeds(recipe[1..], quantity)
  }

  // Every need of an order, in the order in which the loop meets them
  function Needs(recipes: seq<RecipeRow>, items: seq<ItemRequest>): seq<Need> {
    if items == [] then []
    else ItemNeeds(RecipeOf(recipes, items[0].menuItem), items[0].quantity) + Needs(recipes, items[1..])
  }

  // Check, decrement, next; the levels left behind when a check fails are those reached so far
  function Reserve(levels: Levels, needs: seq<Need>): (Levels, bool) {
    if needs == [] then (levels, true)
    else
      var n := needs[0];
      if n.ingredient !in levels || levels[n.ingredient] < n.grams then (levels, false)
      else Reserve(levels[n.ingredient := levels[n.ingredient] - n.grams], needs[1..])
  }

  // ----- Independent definition: aggregate demand -----

  function Demand(needs: seq<Need>, ingredient: int): real {
    if needs == [] then 0.0
    else (if needs[0].ingredient == ingredient then needs[0].grams else 0.0) + Demand(needs[1..], ingredient)
  }

  ghost predicate Mentions(needs: seq<Need>, ingredient: int) {
    exists k :: 0 <= k < |needs| && needs[k].ingredient == ingredient
  }

  // Every ingredient mentioned exists and its whole demand fits its level
  ghost predicate Fits(levels: Levels, needs: seq<Need>) {
    forall i :: Mentions(needs, i) ==> i in levels && Demand(needs, i) <= levels[i]
  }

  // No need runs past what the needs up to and including it leave
  ghost predicate FitsEveryPrefix(levels: Levels, needs: seq<Need>) {
    forall k :: 0 <= k < |needs| ==>
      needs[k].ingredient in levels && Demand(needs[..k + 1], needs[k].ingredient) <= levels[needs[k].ingredient]
  }

  ghost predicate NonNegative(needs: seq<Need>) {
    forall k :: 0 <= k < |needs| ==> needs[k].grams >= 0.0
  }

  // Recipes that ask for no negative amount and whole-number quantities of at least zero ask for nothing negative
  lemma {:induction false} NeedsNonNegative(recipes: seq<RecipeRow>, items: seq<ItemRequest>)
    requires forall k :: 0 <= k < |recipes| ==> recipes[k].grams >= 0.0
    requires forall k :: 0 <= k < |items| ==> items[k].quantity >= 0
    ensures NonNegative(Needs(recipes, items))
  {
    if items != [] {
      NeedsNonNegative(recipes, items[1..]);
      RecipeNonNegative(recipes, items[0].menuItem);
      ItemNeedsNonNegative(RecipeOf(recipes, items[0].menuItem), items[0].quantity);
    }
  }

  lemma {:induction false} RecipeNonNegative(recipes: seq<RecipeRow>, menuItem: int)
    requires forall k :: 0 <= k < |recipes| ==> recipes[k].grams >= 0.0
    ensures forall k :: 0 <= k < |RecipeOf(recipes, menuItem)| ==> RecipeOf(recipes, menuItem)[k].grams >= 0.0
  {
    if recipes != [] {
      RecipeNonNegative(recipes[1..], menuItem);
    }
  }

  lemma {:induction false} ItemNeedsNonNegative(recipe: seq<RecipeRow>, quantity: int)
    requires quantity >= 0 && forall k :: 0 <= k < |recipe| ==> recipe[k].grams >= 0.0
    ensures NonNegative(ItemNeeds(recipe, quantity))
  {
    if recipe != [] {
      ItemNeedsNonNegative(recipe[1..], quantity);
      ProductNonNegative(recipe[0].grams, quantity as real);
    }
  }

  lemma ProductNonNegative(x: real, y: real)
    requires x >= 0.0 && y >= 0.0
    ensures x * y >= 0.0
  {}

  function Lowered(levels: Levels, needs: seq<Need>): Levels {
    map i | i in levels :: levels[i] - Demand(needs, i)
  }

  lemma {:induction false} DemandWithout(needs: seq<Need>, i: int)
    requires !Mentions(needs, i)
    ensures Demand(needs, i) == 0.0
  {
    if needs != [] {
      assert needs[0].ingredient != i;
      forall k | 0 <= k < |needs[1..]| ensures needs[1..][k].ingredient != i {
        assert needs[1..][k] == needs[k + 1];
      }
      DemandWithout(needs[1..], i);
    }
  }

  lemma {:induction false} DemandNonNegative(needs: seq<Need>, i: int)
    requires NonNegative(needs)
    ensures Demand(needs, i) >= 0.0
  {
    if needs != [] {
      DemandNonNegative(needs[1..], i);
    }
  }

  lemma MentionsSplit(needs: seq<Need>, i: int)
    requires needs != []
    ensures Mentions(needs, i) <==> needs[0].ingredient == i || Mentions(needs[1..], i)
  {
    if Mentions(needs, i) && needs[0].ingredient != i {
      var k :| 0 <= k < |needs| && needs[k].ingredient == i;
      assert needs[1..][k - 1].ingredient == i;
    }
    if Mentions(needs[1..], i) {
      var k :| 0 <= k < |needs[1..]| && needs[1..][k].ingredient == i;
      assert needs[k + 1].ingredient == i;
    }
  }

  /** On success every level has dropped by exactly the aggregate demand. */
  lemma {:induction false} ReserveLowers(levels: Levels, needs: seq<Need>)
    requires Reserve(levels, needs).1
    ensures Reserve(levels, needs).0 == Lowered(levels, needs)
  {
    if needs != [] {
      var n := needs[0];
      ReserveLowers(levels[n.ingredient := levels[n.ingredient] - n.grams], needs[1..]);
    }
  }

  /** The greedy loop accepts exactly when the aggregate demand fits. */
  lemma {:induction false} ReserveIsAggregate(levels: Levels, needs: seq<Need>)
    requires NonNegative(needs)
    ensures Reserve(levels, needs).1 <==> Fits(levels, needs)
  {
    if needs != [] {
      var n, rest := needs[0], needs[1..];
      DemandNonNegative(rest, n.ingredient);
      assert Mentions(needs, n.ingredient) by { assert needs[0].ingredient == n.ingredient; }
      forall i ensures Mentions(needs, i) <==> n.ingredient == i || Mentions(rest, i) {
        MentionsSplit(needs, i);
      }
      if n.ingredient in levels && n.grams <= levels[n.ingredient] {
        ReserveIsAggregate(levels[n.ingredient := levels[n.ingredient] - n.grams], rest);
        if !Mentions(rest, n.ingredient) {
          DemandWithout(rest, n.ingredient);
        }
      }
    }
  }

  /** Without any assumption on the recipe: success means that no prefix of the needs overruns. */
  lemma {:induction false} ReserveIsPrefixwise(levels: Levels, needs: seq<Need>)
    ensures Reserve(levels, needs).1 <==> FitsEveryPrefix(levels, needs)
  {
    if needs != [] {
      var n, rest := needs[0], needs[1..];
      assert needs[..1] == [n];
      assert Demand(needs[..1], n.ingredient) == n.grams + Demand(needs[..1][1..], n.ingredient);
      if n.ingredient in levels && n.grams <= levels[n.ingredient] {
        var lower := levels[n.ingredient := levels[n.ingredient] - n.grams];
        ReserveIsPrefixwise(lower, rest);
        forall k | 0 <= k < |rest|
          ensures rest[k] == needs[k + 1]
          ensures Demand(needs[..k + 2], rest[k].ingredient)
               == (if n.ingredient == rest[k].ingredient then n.grams else 0.0) + Demand(rest[..k + 1], rest[k].ingredient)
        {
          assert needs[..k + 2][1..] == rest[..k + 1];
        }
        if FitsEveryPrefix(levels, needs) {
          forall k | 0 <= k < |rest|
            ensures rest[k].ingredient in lower && Demand(rest[..k + 1], rest[k].ingredient) <= lower[rest[k].ingredient]
          {
            assert rest[k] == needs[k + 1];
          }
        }
        if FitsEveryPrefix(lower, rest) {
          forall k | 0 <= k < |needs|
            ensures needs[k].ingredient in levels && Demand(needs[..k + 1], needs[k].ingredient) <= levels[needs[k].ingredient]
          {
            if k > 0 {
              assert rest[k - 1] == needs[k];
            }
          }
        }
      }
    }
  }

  // ----- Demand straight from the recipe table and the order -----

  // Grams of ingredient `i` that one recipe row asks for one order item
  function GramsFor(row: RecipeRow, item: ItemRequest, i: int): real {
    if row.menuItem == item.menuItem && row.ingredient == i then row.grams * item.quantity as real else 0.0
  }

  function ItemDemand(recipes: seq<RecipeRow>, item: ItemRequest, i: int): real {
    if recipes == [] then 0.0 else GramsFor(recipes[0], item, i) + ItemDemand(recipes[1..], item, i)
  }

  // The sum of grams times quantity over all recipe rows and items with the same dish
  function OrderDemand(recipes: seq<RecipeRow>, items: seq<ItemRequest>, i: int): real {
    if items == [] then 0.0 else ItemDemand(recipes, items[0], i) + OrderDemand(recipes, items[1..], i)
  }

  // Some dish of the order has ingredient `i` in its recipe
  ghost predicate Uses(recipes: seq<RecipeRow>, items: seq<ItemRequest>, i: int) {
    exists r, k :: 0 <= r < |recipes| && 0 <= k < |items| && recipes[r].menuItem == items[k].menuItem && recipes[r].ingredient == i
  }

  // Every ingredient of the order's dishes exists and covers what the order asks of it
  ghost predicate Covers(levels: Levels, recipes: seq<RecipeRow>, items: seq<ItemRequest>) {
    forall i :: Uses(recipes, items, i) ==> i in levels && OrderDemand(recipes, items, i) <= levels[i]
  }

  lemma {:induction false} DemandConcat(a: seq<Need>, b: seq<Need>, i: int)
    ensures Demand(a + b, i) == Demand(a, i) + Demand(b, i)
  {
    if a == [] {
      assert a + b == b;
    } else {
      assert (a + b)[1..] == a[1..] + b;
      DemandConcat(a[1..], b, i);
    }
  }

  // The needs of one item, by the first recipe row
  lemma ItemNeedsHead(recipes: seq<RecipeRow>, menuItem: int, quantity: int)
    requires recipes != []
    ensures var rest := ItemNeeds(RecipeOf(recipes[1..], menuItem), quantity);
            ItemNeeds(RecipeOf(recipes, menuItem), quantity) ==
              if recipes[0].menuItem == menuItem then [RowNeed(recipes[0], quantity)] + rest else rest
  {
    var rest := RecipeOf(recipes[1..], menuItem);
    assert [] + rest == rest && ([recipes[0]] + rest)[1..] == rest;
  }

  lemma {:induction false} DemandOfItem(recipes: seq<RecipeRow>, item: ItemRequest, i: int)
    ensures Demand(ItemNeeds(RecipeOf(recipes, item.menuItem), item.quantity), i) == ItemDemand(recipes, item, i)
  {
    if recipes != [] {
      DemandOfItem(recipes[1..], item, i);
      ItemNeedsHead(recipes, item.menuItem, item.quantity);
      var rest := ItemNeeds(RecipeOf(recipes[1..], item.menuItem), item.quantity);
      assert ([RowNeed(recipes[0], item.quantity)] + rest)[1..] == rest;
    }
  }

  /** What the loop asks of an ingredient is the sum of grams times quantity over the recipe rows of the order's dishes. */
  lemma {:induction false} DemandOfOrder(recipes: seq<RecipeRow>, items: seq<ItemRequest>, i: int)
    ensures Demand(Needs(recipes, items), i) == OrderDemand(recipes, items, i)
  {
    if items != [] {
      DemandOfItem(recipes, items[0], i);
      DemandOfOrder(recipes, items[1..], i);
      DemandConcat(ItemNeeds(RecipeOf(recipes, items[0].menuItem), items[0].quantity), Needs(recipes, items[1..]), i);
    }
  }

  lemma MentionsConcat(a: seq<Need>, b: seq<Need>, i: int)
    ensures Mentions(a + b, i) <==> Mentions(a, i) || Mentions(b, i)
  {
    if Mentions(a, i) {
      var k :| 0 <= k < |a| && a[k].ingredient == i;
      assert (a + b)[k].ingredient == i;
    }
    if Mentions(b, i) {
      var k :| 0 <= k < |b| && b[k].ingredient == i;
      assert (a + b)[|a| + k].ingredient == i;
    }
  }

  ghost predicate ItemUses(recipes: seq<RecipeRow>, menuItem: int, i: int) {
    exists r :: 0 <= r < |recipes| && recipes[r].menuItem == menuItem && recipes[r].ingredient == i
  }

  lemma {:induction false} ItemMentions(recipes: seq<RecipeRow>, menuItem: int, quantity: int, i: int)
    ensures Mentions(ItemNeeds(RecipeOf(recipes, menuItem), quantity), i) <==> ItemUses(recipes, menuItem, i)
  {
    if recipes != [] {
      var row, rest := recipes[0], recipes[1..];
      ItemMentions(rest, menuItem, quantity, i);
      assert ItemUses(recipes, menuItem, i) <==> (row.menuItem == menuItem && row.ingredient == i) || ItemUses(rest, menuItem, i) by {
        if ItemUses(rest, menuItem, i) {
          var r :| 0 <= r < |rest| && rest[r].menuItem == menuItem && rest[r].ingredient == i;
          assert recipes[r + 1] == rest[r];
        }
        assert forall r :: 1 <= r < |recipes| ==> recipes[r] == rest[r - 1];
      }
      ItemNeedsHead(recipes, menuItem, quantity);
      if row.menuItem == menuItem {
        var later := ItemNeeds(RecipeOf(rest, menuItem), quantity);
        MentionsSplit([RowNeed(row, quantity)] + later, i);
        assert ([RowNeed(row, quantity)] + later)[1..] == later;
      }
    }
  }

  lemma UsesSplit(recipes: seq<RecipeRow>, items: seq<ItemRequest>, i: int)
    requires items != []
    ensures Uses(recipes, items, i) <==> ItemUses(recipes, items[0].menuItem, i) || Uses(recipes, items[1..], i)
  {
    if Uses(recipes, items[1..], i) {
      var r, k :| 0 <= r < |recipes| && 0 <= k < |items[1..]|
                  && recipes[r].menuItem == items[1..][k].menuItem && recipes[r].ingredient == i;
      assert items[k + 1] == items[1..][k];
    }
    if Uses(recipes, items, i) {
      var r, k :| 0 <= r < |recipes| && 0 <= k < |items| && recipes[r].menuItem == items[k].menuItem && recipes[r].ingredient == i;
      assert k > 0 ==> items[k] == items[1..][k - 1];
    }
  }

  lemma {:induction false} MentionedIffUsed(recipes: seq<RecipeRow>, items: seq<ItemRequest>, i: int)
    ensures Mentions(Needs(recipes, items), i) <==> Uses(recipes, items, i)
  {
    if items != [] {
      UsesSplit(recipes, items, i);
      ItemMentions(recipes, items[0].menuItem, items[0].quantity, i);
      MentionedIffUsed(recipes, items[1..], i);
      MentionsConcat(ItemNeeds(RecipeOf(recipes, items[0].menuItem), items[0].quantity), Needs(recipes, items[1..]), i);
    }
  }

  /** Fitting in aggregate, read from the tables: every ingredient of the order's dishes covers what the order asks of it. */
  lemma FitsIffCovers(levels: Levels, recipes: seq<RecipeRow>, items: seq<ItemRequest>)
    ensures Fits(levels, Needs(recipes, items)) <==> Covers(levels, recipes, items)
  {
    forall i
      ensures Mentions(Needs(recipes, items), i) <==> Uses(recipes, items, i)
      ensures Demand(Needs(recipes, items), i) == OrderDemand(recipes, items, i)
    {
      MentionedIffUsed(recipes, items, i);
      DemandOfOrder(recipes, items, i);
    }
  }

  // Every level is what the order leaves of it
  ghost predicate Reduced(before: Levels, after: Levels, recipes: seq<RecipeRow>, items: seq<ItemRequest>) {
    after.Keys == before.Keys && forall i :: i in before ==> after[i] == before[i] - OrderDemand(recipes, items, i)
  }

  /**
   An order that the loop accepts takes from every level exactly what its dishes ask for, and no more than is there in
   aggregate.
   */
  lemma AcceptedTakesDemand(levels: Levels, recipes: seq<RecipeRow>, items: seq<ItemRequest>)
    requires Reserve(levels, Needs(recipes, items)).1
    ensures Reduced(levels, Reserve(levels, Needs(recipes, items)).0, recipes, items)
    ensures Covers(levels, recipes, items)
  {
    ReserveLowers(levels, Needs(recipes, items));
    AcceptedFits(levels, Needs(recipes, items));
    FitsIffCovers(levels, recipes, items);
    forall i ensures Demand(Needs(recipes, items), i) == OrderDemand(recipes, items, i) {
      DemandOfOrder(recipes, items, i);
    }
  }

  // ----- Order of items and of recipe rows does not matter -----

  lemma DemandSplit(needs: seq<Need>, k: nat, i: int)
    requires k <= |needs|
    ensures Demand(needs, i) == Demand(needs[..k], i) + Demand(needs[k..], i)
  {
    assert needs == needs[..k] + needs[k..];
    DemandConcat(needs[..k], needs[k..], i);
  }

  // After every need, the later ones ask on balance for nothing negative of its ingredient
  ghost predicate NothingGivenBack(needs: seq<Need>) {
    forall k :: 0 <= k < |needs| ==> Demand(needs[k + 1..], needs[k].ingredient) >= 0.0
  }

  lemma DemandFrom(needs: seq<Need>, n: nat, i: int)
    requires n < |needs|
    ensures Demand(needs[n..], i) == (if needs[n].ingredient == i then needs[n].grams else 0.0) + Demand(needs[n + 1..], i)
  {
    assert needs[n..][1..] == needs[n + 1..];
  }

  // The last need of `i`, looked for among the first `n`; the others ask for none of it
  lemma {:induction false} LastMention(needs: seq<Need>, i: int, n: nat) returns (k: nat)
    requires n <= |needs| && Demand(needs[n..], i) == 0.0
    requires exists j :: 0 <= j < n && needs[j].ingredient == i
    ensures k < |needs| && needs[k].ingredient == i && Demand(needs[k + 1..], i) == 0.0
  {
    if needs[n - 1].ingredient == i {
      k := n - 1;
    } else {
      DemandFrom(needs, n - 1, i);
      k := LastMention(needs, i, n - 1);
    }
  }

  /** Whatever the recipe, an order that the loop accepts fits in aggregate. */
  lemma AcceptedFits(levels: Levels, needs: seq<Need>)
    requires Reserve(levels, needs).1
    ensures Fits(levels, needs)
  {
    ReserveIsPrefixwise(levels, needs);
    forall i | Mentions(needs, i) ensures i in levels && Demand(needs, i) <= levels[i] {
      var k := LastMention(needs, i, |needs|);
      DemandSplit(needs, k + 1, i);
      assert i in levels && Demand(needs[..k + 1], i) <= levels[i];
    }
  }

  // Exactly the aggregate demand of every ingredient mentioned
  function Exactly(needs: seq<Need>): Levels {
    map i | i in (set k | 0 <= k < |needs| :: needs[k].ingredient) :: Demand(needs, i)
  }

  /** At all levels the loop accepts exactly what fits in aggregate, if and only if no need is given back by the later ones. */
  lemma AggregateIff(needs: seq<Need>)
    ensures (forall levels: Levels :: Reserve(levels, needs).1 <==> Fits(levels, needs)) <==> NothingGivenBack(needs)
  {
    forall levels: Levels | NothingGivenBack(needs) ensures Reserve(levels, needs).1 <==> Fits(levels, needs) {
      if Fits(levels, needs) {
        forall k | 0 <= k < |needs|
          ensures needs[k].ingredient in levels && Demand(needs[..k + 1], needs[k].ingredient) <= levels[needs[k].ingredient]
        {
          assert Mentions(needs, needs[k].ingredient);
          DemandSplit(needs, k + 1, needs[k].ingredient);
        }
        ReserveIsPrefixwise(levels, needs);
      } else if Reserve(levels, needs).1 {
        AcceptedFits(levels, needs);
      }
    }
    if !NothingGivenBack(needs) {
      var k :| 0 <= k < |needs| && Demand(needs[k + 1..], needs[k].ingredient) < 0.0;
      DemandSplit(needs, k + 1, needs[k].ingredient);
      ReserveIsPrefixwise(Exactly(needs), needs);
      assert Fits(Exactly(needs), needs) && !Reserve(Exactly(needs), needs).1;
    }
  }

  /** Recipes without negative rows give nothing back. */
  lemma NonNegativeRecipes(recipes: seq<RecipeRow>, items: seq<ItemRequest>)
    requires forall k :: 0 <= k < |recipes| ==> recipes[k].grams >= 0.0
    requires forall k :: 0 <= k < |items| ==> items[k].quantity >= 0
    ensures NothingGivenBack(Needs(recipes, items))
  {
    var needs := Needs(recipes, items);
    NeedsNonNegative(recipes, items);
    forall k | 0 <= k < |needs| ensures Demand(needs[k + 1..], needs[k].ingredient) >= 0.0 {
      DemandNonNegative(needs[k + 1..], needs[k].ingredient);
    }
  }

  // A dish whose recipe asks for eight grams of an ingredient and gives four back
  const ODD_RECIPES := [RecipeRow(1, 7, 8.0), RecipeRow(1, 7, -4.0)]
  const ONE_DISH := [ItemRequest(1, 1, [], 5.0)]

  /** With such a recipe the loop refuses one portion at a level of five, which the aggregate demand of four fits. */
  lemma NegativeGramsBreakAggregate()
    ensures Needs(ODD_RECIPES, ONE_DISH) == [Need(7, 8.0), Need(7, -4.0)]
    ensures Fits(map[7 := 5.0], Needs(ODD_RECIPES, ONE_DISH)) && !Reserve(map[7 := 5.0], Needs(ODD_RECIPES, ONE_DISH)).1
  {
    var needs := [Need(7, 8.0), Need(7, -4.0)];
    assert RecipeOf(ODD_RECIPES, 1) == ODD_RECIPES by {
      assert ODD_RECIPES[1..] == [RecipeRow(1, 7, -4.0)];
    }
    assert ItemNeeds(ODD_RECIPES, 1) == needs;
    assert ONE_DISH[1..] == [];
    assert Demand(needs, 7) == 4.0 by { assert needs[1..] == [Need(7, -4.0)]; }
  }

  // Where the head of `a` stands in its permutation `b`
  lemma MatchingIndex<T>(a: seq<T>, b: seq<T>) returns (j: nat)
    requires a != [] && multiset(a) == multiset(b)
    ensures j < |b| && b[j] == a[0] && b == b[..j] + ([b[j]] + b[j + 1..])
    ensures multiset(a[1..]) == multiset(b[..j] + b[j + 1..])
  {
    assert a[0] in multiset(b);
    j :| 0 <= j < |b| && b[j] == a[0];
    assert b == b[..j] + ([b[j]] + b[j + 1..]);
    assert multiset(b) == multiset(b[..j]) + (multiset{b[j]} + multiset(b[j + 1..]));
    assert multiset(b[..j] + b[j + 1..]) == multiset(b) - multiset{a[0]};
    assert a == [a[0]] + a[1..];
    assert multiset(a[1..]) == multiset(a) - multiset{a[0]};
  }

  lemma {:induction false} DemandPermuted(a: seq<Need>, b: seq<Need>, i: int)
    requires multiset(a) == multiset(b)
    ensures Demand(a, i) == Demand(b, i)
  {
    if a == [] {
      assert |multiset(b)| == 0;
    } else {
      var j := MatchingIndex(a, b);
      var b' := b[..j] + b[j + 1..];
      DemandPermuted(a[1..], b', i);
      DemandConcat(b[..j], b[j + 1..], i);
      DemandConcat(b[..j], [b[j]] + b[j + 1..], i);
      assert ([b[j]] + b[j + 1..])[1..] == b[j + 1..];
    }
  }

  lemma {:induction false} NeedsConcat(recipes: seq<RecipeRow>, a: seq<ItemRequest>, b: seq<ItemRequest>)
    ensures Needs(recipes, a + b) == Needs(recipes, a) + Needs(recipes, b)
  {
    if a == [] {
      assert a + b == b;
    } else {
      assert (a + b)[1..] == a[1..] + b;
      NeedsConcat(recipes, a[1..], b);
    }
  }

  lemma {:induction false} NeedsPermuted(recipes: seq<RecipeRow>, a: seq<ItemRequest>, b: seq<ItemRequest>)
    requires multiset(a) == multiset(b)
    ensures multiset(Needs(recipes, a)) == multiset(Needs(recipes, b))
  {
    if a == [] {
      assert |multiset(b)| == 0;
    } else {
      var j := MatchingIndex(a, b);
      var b' := b[..j] + b[j + 1..];
      NeedsPermuted(recipes, a[1..], b');
      NeedsConcat(recipes, b[..j], b[j + 1..]);
      NeedsConcat(recipes, b[..j], [b[j]] + b[j + 1..]);
      assert ([b[j]] + b[j + 1..])[1..] == b[j + 1..];
    }
  }

  // The largest amount of an ingredient that has been asked for when one of its needs is met
  function Peak(needs: seq<Need>, i: int): Option<real> {
    if needs == [] then None
    else
      var later := Peak(needs[1..], i);
      if needs[0].ingredient != i then later
      else if later.Some? && later.value > 0.0 then Some(needs[0].grams + later.value)
      else Some(needs[0].grams)
  }

  lemma {:induction false} PeakIffMentioned(needs: seq<Need>, i: int)
    ensures Peak(needs, i).Some? <==> Mentions(needs, i)
  {
    if needs != [] {
      PeakIffMentioned(needs[1..], i);
      MentionsSplit(needs, i);
    }
  }

  /** A peak is the largest demand of the prefixes that end in one of its ingredient's needs. */
  lemma {:induction false} PeakIsLargestPrefix(needs: seq<Need>, i: int, bound: real)
    requires Peak(needs, i).Some?
    ensures Peak(needs, i).value <= bound <==>
              forall k :: 0 <= k < |needs| && needs[k].ingredient == i ==> Demand(needs[..k + 1], i) <= bound
  {
    var n, rest := needs[0], needs[1..];
    var own := if n.ingredient == i then n.grams else 0.0;
    forall k | 0 <= k < |needs| ensures Demand(needs[..k + 1], i) == own + Demand(rest[..k], i) {
      assert needs[..k + 1][1..] == rest[..k];
    }
    assert forall k :: 0 <= k < |rest| ==> rest[k] == needs[k + 1];
    if Peak(rest, i).Some? {
      PeakIsLargestPrefix(rest, i, bound - own);
    } else {
      PeakIffMentioned(rest, i);
    }
  }

  // Every ingredient mentioned exists at a level of its peak or more
  ghost predicate FitsPeaks(levels: Levels, needs: seq<Need>) {
    forall i :: Peak(needs, i).Some? ==> i in levels && Peak(needs, i).value <= levels[i]
  }

  /** Whatever the recipe, the loop accepts exactly when every level reaches its ingredient's peak. */
  lemma {:induction false} ReserveIsPeaks(levels: Levels, needs: seq<Need>)
    ensures Reserve(levels, needs).1 <==> FitsPeaks(levels, needs)
  {
    if needs != [] {
      var n, rest := needs[0], needs[1..];
      assert Peak(needs, n.ingredient).Some? && Peak(needs, n.ingredient).value >= n.grams;
      if n.ingredient in levels && n.grams <= levels[n.ingredient] {
        var lower := levels[n.ingredient := levels[n.ingredient] - n.grams];
        ReserveIsPeaks(lower, rest);
        assert forall i :: i != n.ingredient ==> Peak(needs, i) == Peak(rest, i);
        assert Peak(rest, n.ingredient).Some? && Peak(rest, n.ingredient).value > 0.0 ==>
                 Peak(needs, n.ingredient).value == n.grams + Peak(rest, n.ingredient).value;
      }
    }
  }

  // Levels at exactly the peaks: nothing lower would do
  function AtPeaks(needs: seq<Need>): Levels {
    map i | i in (set k | 0 <= k < |needs| :: needs[k].ingredient) && Peak(needs, i).Some? :: Peak(needs, i).value
  }

  lemma AtPeaksAccepts(needs: seq<Need>)
    ensures Reserve(AtPeaks(needs), needs).1
    ensures forall i :: i in AtPeaks(needs) <==> Peak(needs, i).Some?
    ensures forall i :: i in AtPeaks(needs) ==> AtPeaks(needs)[i] == Peak(needs, i).value
  {
    forall i ensures i in AtPeaks(needs) <==> Peak(needs, i).Some? {
      PeakIffMentioned(needs, i);
    }
    ReserveIsPeaks(AtPeaks(needs), needs);
  }

  ghost predicate SameVerdicts(a: seq<Need>, b: seq<Need>) {
    forall levels: Levels :: Reserve(levels, a).1 == Reserve(levels, b).1
  }

  ghost predicate SamePeaks(a: seq<Need>, b: seq<Need>) {
    forall i :: Peak(a, i) == Peak(b, i)
  }

  /**
   Two lists of needs, any two at all, get the same verdict at all levels exactly when every ingredient has the same
   peak in both.
   */
  lemma SameVerdictsIff(a: seq<Need>, b: seq<Need>)
    ensures SameVerdicts(a, b) <==> SamePeaks(a, b)
  {
    if SamePeaks(a, b) {
      forall levels: Levels ensures Reserve(levels, a).1 == Reserve(levels, b).1 {
        ReserveIsPeaks(levels, a);
        ReserveIsPeaks(levels, b);
      }
    }
    if SameVerdicts(a, b) {
      AtPeaksAccepts(a);
      AtPeaksAccepts(b);
      ReserveIsPeaks(AtPeaks(a), b);
      ReserveIsPeaks(AtPeaks(b), a);
      assert Reserve(AtPeaks(a), b).1 && Reserve(AtPeaks(b), a).1;
      forall i ensures Peak(a, i) == Peak(b, i) {
        assert Peak(b, i).Some? ==> i in AtPeaks(a) && Peak(b, i).value <= AtPeaks(a)[i];
        assert Peak(a, i).Some? ==> i in AtPeaks(b) && Peak(a, i).value <= AtPeaks(b)[i];
      }
    }
  }

  // No need of `i` is negative, or all of them are the same
  ghost predicate Orderless(needs: seq<Need>, i: int) {
    || (forall k :: 0 <= k < |needs| && needs[k].ingredient == i ==> needs[k].grams >= 0.0)
    || (forall j, k :: 0 <= j < |needs| && 0 <= k < |needs| && needs[j].ingredient == i && needs[k].ingredient == i ==>
          needs[j].grams == needs[k].grams)
  }

  lemma {:induction false} PeakOfNonNegative(needs: seq<Need>, i: int)
    requires forall k :: 0 <= k < |needs| && needs[k].ingredient == i ==> needs[k].grams >= 0.0
    ensures Demand(needs, i) >= 0.0
    ensures Peak(needs, i).Some? ==> Peak(needs, i).value == Demand(needs, i)
    ensures Peak(needs, i).None? ==> Demand(needs, i) == 0.0
  {
    if needs != [] {
      assert forall k :: 0 <= k < |needs[1..]| ==> needs[1..][k] == needs[k + 1];
      PeakOfNonNegative(needs[1..], i);
    }
  }

  lemma {:induction false} PeakOfEqual(needs: seq<Need>, i: int, grams: real)
    requires grams < 0.0
    requires forall k :: 0 <= k < |needs| && needs[k].ingredient == i ==> needs[k].grams == grams
    ensures Peak(needs, i).Some? ==> Peak(needs, i).value == grams
  {
    if needs != [] {
      assert forall k :: 0 <= k < |needs[1..]| ==> needs[1..][k] == needs[k + 1];
      PeakOfEqual(needs[1..], i, grams);
    }
  }

  lemma SameMembers(a: seq<Need>, b: seq<Need>)
    requires multiset(a) == multiset(b)
    ensures forall k :: 0 <= k < |b| ==> b[k] in a
    ensures forall k :: 0 <= k < |a| ==> a[k] in b
  {
    forall k | 0 <= k < |b| ensures b[k] in a {
      assert b[k] in multiset(a);
    }
    forall k | 0 <= k < |a| ensures a[k] in b {
      assert a[k] in multiset(b);
    }
  }

  lemma PeakPermuted(a: seq<Need>, b: seq<Need>, i: int)
    requires multiset(a) == multiset(b) && Orderless(a, i)
    ensures Peak(a, i) == Peak(b, i)
  {
    SameMembers(a, b);
    PeakIffMentioned(a, i);
    PeakIffMentioned(b, i);
    assert Mentions(a, i) <==> Mentions(b, i);
    if forall k :: 0 <= k < |a| && a[k].ingredient == i ==> a[k].grams >= 0.0 {
      DemandPermuted(a, b, i);
      PeakOfNonNegative(a, i);
      PeakOfNonNegative(b, i);
    } else {
      var k :| 0 <= k < |a| && a[k].ingredient == i && a[k].grams < 0.0;
      PeakOfEqual(a, i, a[k].grams);
      PeakOfEqual(b, i, a[k].grams);
    }
  }

  lemma Without(needs: seq<Need>, x: Need) returns (rest: seq<Need>)
    requires x in needs
    ensures multiset(needs) == multiset{x} + multiset(rest)
  {
    var j :| 0 <= j < |needs| && needs[j] == x;
    var before, after := needs[..j], needs[j + 1..];
    assert needs == before + ([x] + after);
    assert multiset(needs) == multiset(before) + (multiset{x} + multiset(after));
    rest := before + after;
  }

  // What is left of `needs` when `x` and `y` go to the front
  lemma TwoInFront(needs: seq<Need>, x: Need, y: Need) returns (rest: seq<Need>)
    requires x in needs && y in needs && x != y
    ensures multiset([x, y] + rest) == multiset(needs)
    ensures forall m :: m in rest ==> m in needs
  {
    var others := Without(needs, x);
    assert y in multiset(needs) && y in multiset(others);
    rest := Without(others, y);
    assert multiset([x, y] + rest) == multiset{x, y} + multiset(rest);
    forall m | m in rest ensures m in needs {
      assert m in multiset(rest) && m in multiset(needs);
    }
  }

  lemma SwapFront(x: Need, y: Need, rest: seq<Need>)
    ensures multiset([x, y] + rest) == multiset([y, x] + rest)
  {
    assert multiset([x, y] + rest) == multiset{x, y} + multiset(rest);
  }

  lemma PeakOfTwo(x: Need, y: Need, rest: seq<Need>, i: int)
    requires x.ingredient == i && y.ingredient == i
    ensures Peak([y] + rest, i).Some? && Peak([y] + rest, i).value >= y.grams
    ensures Peak([x, y] + rest, i) ==
              Some(x.grams + if Peak([y] + rest, i).value > 0.0 then Peak([y] + rest, i).value else 0.0)
  {
    assert ([y] + rest)[1..] == rest && ([x, y] + rest)[1..] == [y] + rest;
  }

  lemma {:induction false} PeakWithLast(needs: seq<Need>, last: Need, i: int)
    requires Peak(needs, i).Some?
    ensures Peak(needs + [last], i).Some? && Peak(needs + [last], i).value >= Peak(needs, i).value
  {
    assert (needs + [last])[1..] == needs[1..] + [last];
    if Peak(needs[1..], i).Some? {
      PeakWithLast(needs[1..], last, i);
    }
  }

  lemma {:induction false} PeakOfNegative(needs: seq<Need>, i: int)
    requires forall k :: 0 <= k < |needs| && needs[k].ingredient == i ==> needs[k].grams < 0.0
    ensures Peak(needs, i).Some? ==> Peak(needs, i).value < 0.0
  {
    if needs != [] {
      assert forall k :: 0 <= k < |needs[1..]| ==> needs[1..][k] == needs[k + 1];
      PeakOfNegative(needs[1..], i);
    }
  }

  lemma MoveLast(x: Need, rest: seq<Need>)
    ensures multiset([x] + rest) == multiset(rest + [x])
  {}

  // A negative need can be met before or after one that is not
  lemma NegativeFirstOrLast(x: Need, y: Need, rest: seq<Need>, i: int)
    requires x.ingredient == i && y.ingredient == i && x.grams < 0.0 <= y.grams
    ensures multiset([x, y] + rest) == multiset([y] + rest + [x])
    ensures Peak([x, y] + rest, i) != Peak([y] + rest + [x], i)
  {
    PeakOfTwo(x, y, rest, i);
    PeakWithLast([y] + rest, x, i);
    MoveLast(x, [y] + rest);
    assert [x, y] + rest == [x] + ([y] + rest);
  }

  // Of two different needs, all being negative, the one met first is the peak
  lemma FirstOfNegative(x: Need, y: Need, rest: seq<Need>, i: int)
    requires x.ingredient == i && y.ingredient == i && x.grams < 0.0 && y.grams < 0.0 && x.grams != y.grams
    requires forall m :: m in rest && m.ingredient == i ==> m.grams < 0.0
    ensures multiset([x, y] + rest) == multiset([y, x] + rest)
    ensures Peak([x, y] + rest, i) != Peak([y, x] + rest, i)
  {
    PeakOfTwo(x, y, rest, i);
    PeakOfTwo(y, x, rest, i);
    PeakOfNegative([y] + rest, i);
    PeakOfNegative([x] + rest, i);
    SwapFront(x, y, rest);
  }

  // A negative need and a different one of the same ingredient can be ordered so that the peaks differ
  lemma OrderMatters(needs: seq<Need>, i: int) returns (a: seq<Need>, b: seq<Need>)
    requires !Orderless(needs, i)
    ensures multiset(a) == multiset(needs) && multiset(b) == multiset(needs)
    ensures Peak(a, i) != Peak(b, i)
  {
    var x :| x in needs && x.ingredient == i && x.grams < 0.0;
    if y :| y in needs && y.ingredient == i && y.grams >= 0.0 {
      var rest := TwoInFront(needs, x, y);
      NegativeFirstOrLast(x, y, rest, i);
      a, b := [x, y] + rest, [y] + rest + [x];
    } else {
      var y :| y in needs && y.ingredient == i && y.grams != x.grams;
      var rest := TwoInFront(needs, x, y);
      FirstOfNegative(x, y, rest, i);
      a, b := [x, y] + rest, [y, x] + rest;
    }
  }

  ghost predicate OrderIrrelevant(needs: seq<Need>) {
    forall other :: multiset(other) == multiset(needs) ==> SameVerdicts(needs, other)
  }

  /**
   No permutation of the needs changes the verdict at any levels exactly when each ingredient's needs are all non-
   negative or all equal.
   */
  lemma OrderIrrelevantIff(needs: seq<Need>)
    ensures OrderIrrelevant(needs) <==> forall i :: Orderless(needs, i)
  {
    if forall i :: Orderless(needs, i) {
      forall other | multiset(other) == multiset(needs) ensures SameVerdicts(needs, other) {
        forall i ensures Peak(needs, i) == Peak(other, i) {
          PeakPermuted(needs, other, i);
        }
        SameVerdictsIff(needs, other);
      }
    }
    if i :| !Orderless(needs, i) {
      var a, b := OrderMatters(needs, i);
      SameVerdictsIff(needs, a);
      SameVerdictsIff(needs, b);
      assert Peak(needs, i) != Peak(a, i) || Peak(needs, i) != Peak(b, i);
    }
  }

  /** The same two recipe rows in the other order are accepted: the recipe query has no ORDER BY. */
  lemma RowOrderMatters()
    ensures multiset(ODD_RECIPES) == multiset([ODD_RECIPES[1], ODD_RECIPES[0]])
    ensures !Reserve(map[7 := 5.0], Needs(ODD_RECIPES, ONE_DISH)).1
    ensures Reserve(map[7 := 5.0], Needs([ODD_RECIPES[1], ODD_RECIPES[0]], ONE_DISH)).1
  {
    NegativeGramsBreakAggregate();
    var other := [ODD_RECIPES[1], ODD_RECIPES[0]];
    var needs := [Need(7, -4.0), Need(7, 8.0)];
    assert RecipeOf(other, 1) == other by {
      assert other[1..] == [RecipeRow(1, 7, 8.0)];
    }
    assert ItemNeeds(other, 1) == needs by {
      assert other[1..] == [RecipeRow(1, 7, 8.0)] && other[1..][1..] == [];
      assert RowNeed(other[0], 1) == needs[0] && RowNeed(other[1], 1) == needs[1];
      assert ItemNeeds(other[1..], 1) == [needs[1]];
    }
    assert ONE_DISH[1..] == [];
    assert Needs(other, ONE_DISH) == needs;
    assert needs[1..] == [Need(7, 8.0)];
    assert (map[7 := 5.0])[7 := 9.0] == map[7 := 9.0];
    assert Reserve(map[7 := 9.0], [Need(7, 8.0)]).1;
  }

  /** Whenever two orders of the same needs are both accepted, whatever the grams, they leave the same levels. */
  lemma SameFinalLevels(levels: Levels, a: seq<Need>, b: seq<Need>)
    requires multiset(a) == multiset(b)
    ensures Reserve(levels, a).1 && Reserve(levels, b).1 ==> Reserve(levels, a).0 == Reserve(levels, b).0
  {
    if Reserve(levels, a).1 && Reserve(levels, b).1 {
      ReserveLowers(levels, a);
      ReserveLowers(levels, b);
      forall i ensures Demand(a, i) == Demand(b, i) {
        DemandPermuted(a, b, i);
      }
    }
  }

  /** Verdict and final stock are the same for any order of needs that are, ingredient by ingredient, non-negative or equal. */
  lemma ReserveOrderIndependent(levels: Levels, a: seq<Need>, b: seq<Need>)
    requires multiset(a) == multiset(b) && forall i :: Orderless(a, i)
    ensures Reserve(levels, a).1 == Reserve(levels, b).1
    ensures Reserve(levels, a).1 ==> Reserve(levels, a).0 == Reserve(levels, b).0
  {
    OrderIrrelevantIff(a);
    assert SameVerdicts(a, b);
    SameFinalLevels(levels, a, b);
  }

  /** Under such needs permuting the items of an order changes neither the verdict nor the final stock. */
  lemma ItemOrderIrrelevant(levels: Levels, recipes: seq<RecipeRow>, a: seq<ItemRequest>, b: seq<ItemRequest>)
    requires multiset(a) == multiset(b) && forall i :: Orderless(Needs(recipes, a), i)
    ensures Reserve(levels, Needs(recipes, a)).1 == Reserve(levels, Needs(recipes, b)).1
    ensures Reserve(levels, Needs(recipes, a)).1 ==>
              Reserve(levels, Needs(recipes, a)).0 == Reserve(levels, Needs(recipes, b)).0
  {
    NeedsPermuted(recipes, a, b);
    ReserveOrderIndependent(levels, Needs(recipes, a), Needs(recipes, b));
  }

  lemma {:induction false} RecipeConcat(r: seq<RecipeRow>, s: seq<RecipeRow>, menuItem: int)
    ensures RecipeOf(r + s, menuItem) == RecipeOf(r, menuItem) + RecipeOf(s, menuItem)
  {
    if r == [] {
      assert r + s == s;
    } else {
      assert (r + s)[0] == r[0] && (r + s)[1..] == r[1..] + s;
      RecipeConcat(r[1..], s, menuItem);
      var head := if r[0].menuItem == menuItem then [r[0]] else [];
      assert RecipeOf(r + s, menuItem) == head + (RecipeOf(r[1..], menuItem) + RecipeOf(s, menuItem));
      assert RecipeOf(r, menuItem) == head + RecipeOf(r[1..], menuItem);
    }
  }

  lemma {:induction false} RecipePermuted(r: seq<RecipeRow>, s: seq<RecipeRow>, menuItem: int)
    requires multiset(r) == multiset(s)
    ensures multiset(RecipeOf(r, menuItem)) == multiset(RecipeOf(s, menuItem))
  {
    if r == [] {
      assert |multiset(s)| == 0;
    } else {
      var j := MatchingIndex(r, s);
      RecipePermuted(r[1..], s[..j] + s[j + 1..], menuItem);
      RecipeConcat(s[..j], s[j + 1..], menuItem);
      RecipeConcat(s[..j], [s[j]] + s[j + 1..], menuItem);
      assert ([s[j]] + s[j + 1..])[1..] == s[j + 1..];
    }
  }

  lemma {:induction false} ItemNeedsConcat(r: seq<RecipeRow>, s: seq<RecipeRow>, quantity: int)
    ensures ItemNeeds(r + s, quantity) == ItemNeeds(r, quantity) + ItemNeeds(s, quantity)
  {
    if r == [] {
      assert r + s == s;
    } else {
      assert (r + s)[1..] == r[1..] + s;
      ItemNeedsConcat(r[1..], s, quantity);
    }
  }

  lemma {:induction false} ItemNeedsPermuted(r: seq<RecipeRow>, s: seq<RecipeRow>, quantity: int)
    requires multiset(r) == multiset(s)
    ensures multiset(ItemNeeds(r, quantity)) == multiset(ItemNeeds(s, quantity))
  {
    if r == [] {
      assert |multiset(s)| == 0;
    } else {
      var j := MatchingIndex(r, s);
      ItemNeedsPermuted(r[1..], s[..j] + s[j + 1..], quantity);
      ItemNeedsConcat(s[..j], s[j + 1..], quantity);
      ItemNeedsConcat(s[..j], [s[j]] + s[j + 1..], quantity);
      assert ([s[j]] + s[j + 1..])[1..] == s[j + 1..];
    }
  }

  lemma {:induction false} RowsPermuted(r: seq<RecipeRow>, s: seq<RecipeRow>, items: seq<ItemRequest>)
    requires multiset(r) == multiset(s)
    ensures multiset(Needs(r, items)) == multiset(Needs(s, items))
  {
    if items != [] {
      RowsPermuted(r, s, items[1..]);
      RecipePermuted(r, s, items[0].menuItem);
      ItemNeedsPermuted(RecipeOf(r, items[0].menuItem), RecipeOf(s, items[0].menuItem), items[0].quantity);
    }
  }

  /** With no negative recipe row, neither the order of an order's items nor that of the rows the recipe query returns matters. */
  lemma RowAndItemOrderIrrelevant(levels: Levels, r: seq<RecipeRow>, s: seq<RecipeRow>, a: seq<ItemRequest>, b: seq<ItemRequest>)
    requires multiset(r) == multiset(s) && multiset(a) == multiset(b)
    requires forall k :: 0 <= k < |r| ==> r[k].grams >= 0.0
    requires forall k :: 0 <= k < |a| ==> a[k].quantity >= 0
    ensures Reserve(levels, Needs(r, a)).1 == Reserve(levels, Needs(s, b)).1
    ensures Reserve(levels, Needs(r, a)).1 ==> Reserve(levels, Needs(r, a)).0 == Reserve(levels, Needs(s, b)).0
  {
    NeedsNonNegative(r, a);
    NeedsPermuted(r, a, b);
    RowsPermuted(r, s, b);
    ReserveOrderIndependent(levels, Needs(r, a), Needs(s, b));
  }

  // ----- The statements themselves -----

  // One turn of the inner loop, with the needs of the later items still to come
  lemma ReserveNext(levels: Levels, recipe: seq<RecipeRow>, k: nat, quantity: int, later: seq<Need>)
    requires k < |recipe|
    ensures var need := RowNeed(recipe[k], quantity);
            Reserve(levels, ItemNeeds(recipe[k..], quantity) + later) ==
              if need.ingredient !in levels || levels[need.ingredient] < need.grams then (levels, false)
              else Reserve(levels[need.ingredient := levels[need.ingredient] - need.grams], ItemNeeds(recipe[k + 1..], quantity) + later)
  {
    assert recipe[k..][1..] == recipe[k + 1..];
    var head, tail := [RowNeed(recipe[k], quantity)], ItemNeeds(recipe[k + 1..], quantity);
    assert ItemNeeds(recipe[k..], quantity) == head + tail;
    assert (head + tail) + later == head + (tail + later);
    assert (head + (tail + later))[1..] == tail + later;
  }

  /** The nested loop over items and recipe rows; `ok` is false where the source raises 422. */
  method ReserveIngredients(db: Database, items: seq<ItemRequest>) returns (ok: bool)
    modifies db`stock
    ensures (db.stock, ok) == Reserve(old(db.stock), Needs(db.catalogue.recipes, items))
    ensures ok ==> Reduced(old(db.stock), db.stock, db.catalogue.recipes, items)
  {
    ghost var before := db.stock;
    var recipes := db.catalogue.recipes;
    ghost var all := Reserve(db.stock, Needs(recipes, items));
    var j := 0;
    while j < |items|
      invariant 0 <= j <= |items|
      invariant all == Reserve(db.stock, Needs(recipes, items[j..]))
    {
      var item := items[j];
      var recipe := RecipeOf(recipes, item.menuItem);
      ghost var later := Needs(recipes, items[j + 1..]);
      assert Needs(recipes, items[j..]) == ItemNeeds(recipe[0..], item.quantity) + later by {
        assert items[j..][1..] == items[j + 1..] && recipe[0..] == recipe;
      }
      var k := 0;
      while k < |recipe|
        invariant 0 <= k <= |recipe|
        invariant all == Reserve(db.stock, ItemNeeds(recipe[k..], item.quantity) + later)
      {
        var need := RowNeed(recipe[k], item.quantity);
        ReserveNext(db.stock, recipe, k, item.quantity, later);
        if need.ingredient !in db.stock || db.stock[need.ingredient] < need.grams {
          return false;
        }
        db.stock := db.stock[need.ingredient := db.stock[need.ingredient] - need.grams];
        k := k + 1;
      }
      assert ItemNeeds(recipe[k..], item.quantity) + later == later;
      j := j + 1;
    }
    AcceptedTakesDemand(before, recipes, items);
    ok := true;
  }

  /** `create_ingredient`: the id is the next unused one. */
  method CreateIngredient(db: Database, id: int, initial: real)
    requires id !in db.stock
    modifies db`stock
    ensures db.stock == old(db.stock)[id := initial]
  {
    db.stock := db.stock[id := initial];
  }

  /** `stock_incoming`: whatever the movement's type, its quantity is added. */
  method StockIncoming(db: Database, ingredient: int, kind: string, quantity: real) returns (newStock: Option<real>)
    modifies db`stock, db`movements
    ensures newStock.Some? <==> ingredient in old(db.stock)
    ensures newStock.None? ==> db.Rows() == old(db.Rows())
    ensures newStock.Some? ==>
              && newStock.value == old(db.stock)[ingredient] + quantity
              && db.stock == old(db.stock)[ingredient := newStock.value]
              && db.movements == old(db.movements) + [Movement(ingredient, kind, quantity)]
  {
    if ingredient !in db.stock {
      return None;
    }
    db.stock := db.stock[ingredient := db.stock[ingredient] + quantity];
    db.movements := db.movements + [Movement(ingredient, kind, quantity)];
    newStock := Some(db.stock[ingredient]);
  }
}
