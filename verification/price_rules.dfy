/** The rule-based cart price engine
    (testing_larger_components_shopping_cart/src/main.rs). Money is integer
    cents: 5.0 is 500, 12.5 is 1250, 20.0 is 2000 and 7.50 is 750. The
    `PriceRule` trait becomes a closed datatype whose `Const` variant stands
    for the mock rules of the tests. */
module PriceRules {
  import opened Seqs

  datatype Category = Normal | Electronic

  datatype Item = Item(name: string, quantity: nat, priceCents: int, category: Category)

  datatype ShoppingCart = ShoppingCart(items: seq<Item>)

  datatype Rule =
    | DeliveryPrice
    | ExtraChargeForElectronics
    | Const(cents: int)

  function NewCart(): (c: ShoppingCart)
    ensures NumberOfItems(c) == 0
  {
    ShoppingCart([])
  }

  /** The number of item entries, not the summed quantities. */
  function NumberOfItems(c: ShoppingCart): nat {
    |c.items|
  }

  /** `add` pushes the item at the end of the cart. */
  function Add(c: ShoppingCart, item: Item): (r: ShoppingCart)
    ensures NumberOfItems(r) == NumberOfItems(c) + 1
    ensures r.items[..|c.items|] == c.items
    ensures r.items[|c.items|] == item
  {
    ShoppingCart(c.items + [item])
  }

  /** The delivery charge for a cart with `n` item entries. */
  function DeliveryCents(n: nat): int {
    if n == 0 then 0
    else if n <= 3 then 500
    else if n <= 10 then 1250
    else 2000
  }

  /** `items.iter().any(|item| item.category() == Eletronic)`. */
  function AnyElectronic(items: seq<Item>): (b: bool)
    ensures b <==> exists i :: 0 <= i < |items| && items[i].category == Electronic
  {
    if |items| == 0 then false
    else items[0].category == Electronic || AnyElectronic(items[1..])
  }

  /** `PriceRule::price_to_aggregate` for each rule. */
  function PriceToAggregate(rule: Rule, c: ShoppingCart): int {
    match rule
    case DeliveryPrice => DeliveryCents(NumberOfItems(c))
    case ExtraChargeForElectronics => if AnyElectronic(c.items) then 750 else 0
    case Const(cents) => cents
  }

  /** `PriceCalculator::calculate`: the sum of every configured rule's
      amount, in list order. */
  function Calculate(rules: seq<Rule>, c: ShoppingCart): int {
    if |rules| == 0 then 0
    else PriceToAggregate(rules[0], c) + Calculate(rules[1..], c)
  }

  /** The delivery bands: nothing for an empty cart, 5.00 for one to three
      entries, 12.50 for four to ten, 20.00 above ten. */
  lemma DeliveryBands(c: ShoppingCart)
    ensures var n := NumberOfItems(c);
      && (n == 0 <==> PriceToAggregate(DeliveryPrice, c) == 0)
      && (1 <= n <= 3 <==> PriceToAggregate(DeliveryPrice, c) == 500)
      && (4 <= n <= 10 <==> PriceToAggregate(DeliveryPrice, c) == 1250)
      && (n > 10 <==> PriceToAggregate(DeliveryPrice, c) == 2000)
  {
  }

  /** The band boundaries the tests check: 0, 1, 3, 4, 10 and 11 entries. */
  lemma DeliveryBoundaries()
    ensures DeliveryCents(0) == 0
    ensures DeliveryCents(1) == 500 && DeliveryCents(3) == 500
    ensures DeliveryCents(4) == 1250 && DeliveryCents(10) == 1250
    ensures DeliveryCents(11) == 2000
  {
  }

  /** The delivery charge sees only how many entries the cart has: carts of
      equally many entries pay the same, whatever their quantities, prices
      and categories. */
  lemma DeliveryDependsOnlyOnCount(c1: ShoppingCart, c2: ShoppingCart)
    requires |c1.items| == |c2.items|
    ensures PriceToAggregate(DeliveryPrice, c1) == PriceToAggregate(DeliveryPrice, c2)
  {
  }

  /** Adding an item never lowers the delivery charge. */
  lemma DeliveryMonotone(c: ShoppingCart, item: Item)
    ensures PriceToAggregate(DeliveryPrice, Add(c, item)) >= PriceToAggregate(DeliveryPrice, c)
  {
  }

  /** The surcharge is 7.50 exactly when some item is electronic, and
      nothing otherwise. */
  lemma ElectronicsSurcharge(c: ShoppingCart)
    ensures var r := PriceToAggregate(ExtraChargeForElectronics, c);
      && (r == 750 <==> exists i :: 0 <= i < |c.items| && c.items[i].category == Electronic)
      && (r == 0 <==> forall i :: 0 <= i < |c.items| ==> c.items[i].category == Normal)
  {
  }

  /** An empty cart pays neither delivery nor surcharge. */
  lemma EmptyCartPaysNothing()
    ensures PriceToAggregate(DeliveryPrice, NewCart()) == 0
    ensures PriceToAggregate(ExtraChargeForElectronics, NewCart()) == 0
    ensures Calculate([DeliveryPrice, ExtraChargeForElectronics], NewCart()) == 0
  {
  }

  /** The total over a concatenation of rule lists is the sum of the two
      totals. */
  lemma {:induction false} CalculateAppend(r1: seq<Rule>, r2: seq<Rule>, c: ShoppingCart)
    ensures Calculate(r1 + r2, c) == Calculate(r1, c) + Calculate(r2, c)
  {
    if |r1| == 0 {
      assert r1 + r2 == r2;
    } else {
      assert (r1 + r2)[1..] == r1[1..] + r2;
      CalculateAppend(r1[1..], r2, c);
    }
  }

  /** The order of the rules does not change the total. */
  lemma {:induction false} CalculateOrderFree(r1: seq<Rule>, r2: seq<Rule>, c: ShoppingCart)
    requires multiset(r1) == multiset(r2)
    ensures Calculate(r1, c) == Calculate(r2, c)
    decreases |r1|
  {
    if |r1| > 0 {
      var x := r1[0];
      assert x in multiset(r2);
      var k :| 0 <= k < |r2| && r2[k] == x;
      var rest2 := r2[..k] + r2[k + 1..];
      RemoveAt(r2, k);
      DropHead(r1);
      CalculateOrderFree(r1[1..], rest2, c);
      CalculateAppend(r2[..k] + [x], r2[k + 1..], c);
      CalculateAppend(r2[..k], [x], c);
      CalculateAppend(r2[..k], r2[k + 1..], c);
    } else {
      assert r2 == [];
    }
  }

  /** A rule that always adds zero never changes the total. */
  lemma ZeroRuleIsIdentity(rules: seq<Rule>, c: ShoppingCart)
    ensures Calculate(rules + [Const(0)], c) == Calculate(rules, c)
    ensures Calculate([Const(0)] + rules, c) == Calculate(rules, c)
  {
    CalculateAppend(rules, [Const(0)], c);
    CalculateAppend([Const(0)], rules, c);
  }

  /** The calculator test: rules answering 1.00, 0.00 and 2.00 total 3.00. */
  lemma MockRulesExample(c: ShoppingCart)
    ensures Calculate([Const(100), Const(0), Const(200)], c) == 300
  {
    var rules := [Const(100), Const(0), Const(200)];
    assert rules[1..][1..][1..] == [];
    assert Calculate(rules[1..][1..], c) == 200;
  }

  /** Five normal items and one electronic item: 12.50 delivery plus 7.50
      surcharge make 20.00. */
  lemma MixedCartExample(normal: Item, gadget: Item)
    requires normal.category == Normal && gadget.category == Electronic
    ensures var c := ShoppingCart([normal, normal, normal, normal, normal, gadget]);
      Calculate([DeliveryPrice, ExtraChargeForElectronics], c) == 2000
  {
    var c := ShoppingCart([normal, normal, normal, normal, normal, gadget]);
    assert AnyElectronic(c.items) by {
      assert c.items[5].category == Electronic;
    }
    var rules := [DeliveryPrice, ExtraChargeForElectronics];
    assert rules[1..][1..] == [];
    assert Calculate(rules[1..], c) == 750;
  }
}
