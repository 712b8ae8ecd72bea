/** Splitting a cart into one order per shop, with tax per line and shipping charged once. */
module CartSplit {
  import opened Common
  import opened Sums
  import opened OrderMachine
  import opened Tax

  const COMMISSION_BPS: nat := 1000

  /** A cart line with its product's shop and current price. */
  datatype CartItem = CartItem(product: Id, shop: Id, priceCents: nat, quantity: nat)

  datatype OrderLine = OrderLine(product: Option<Id>, warehouse: Option<Id>, quantity: nat, unitPriceCents: nat,
      lineTotalCents: nat, taxCents: nat)

  datatype Order = Order(shop: Id, status: OrderStatus, lines: seq<OrderLine>,
                         subtotalCents: nat, taxCents: nat, commissionCents: nat, shippingCents: nat, totalCents: nat)

  /** What the rest of the system contributes to a checkout. */
  datatype Terms = Terms(rates: Rates, warehouse: Id -> Option<Id>, shippingCents: nat)

  // --------------------------------------------------------------- grouping

  function GroupOf(cart: seq<CartItem>, shop: Id): seq<CartItem> {
    if |cart| == 0 then []
    else
      var n := |cart| - 1;
      GroupOf(cart[..n], shop) + (if cart[n].shop == shop then [cart[n]] else [])
  }

  /** Shops in the order in which the cart first mentions them. */
  function ShopsOf(cart: seq<CartItem>): (shops: seq<Id>)
    ensures forall i, j :: 0 <= i < j < |shops| ==> shops[i] != shops[j]
    ensures forall s :: s in shops <==> exists i :: 0 <= i < |cart| && cart[i].shop == s
    ensures |cart| > 0 ==> |shops| > 0
  {
    if |cart| == 0 then []
    else
      var n := |cart| - 1;
      var before := ShopsOf(cart[..n]);
      if cart[n].shop in before then before else before + [cart[n].shop]
  }

  /** One more cart line goes to the end of its shop's group, and its shop to the end of the shops if it is new. */
  lemma {:induction false} GroupsGrow(cart: seq<CartItem>, k: nat)
    requires k < |cart|
    ensures ShopsOf(cart[..k + 1]) == if cart[k].shop in ShopsOf(cart[..k]) then ShopsOf(cart[..k])
              else ShopsOf(cart[..k]) + [cart[k].shop]
    ensures forall s :: GroupOf(cart[..k + 1], s) == GroupOf(cart[..k], s)
                        + (if cart[k].shop == s then [cart[k]] else [])
  {
    assert cart[..k + 1][..k] == cart[..k];
  }

  lemma {:induction false} EmptyCart(cart: seq<CartItem>)
    requires |cart| == 0
    ensures ShopsOf(cart) == []
  {
  }

  method GroupByShop(cart: seq<CartItem>) returns (shops: seq<Id>, groups: map<Id, seq<CartItem>>)
    ensures shops == ShopsOf(cart)
    ensures forall s :: s in groups <==> s in shops
    ensures forall s :: s in shops ==> groups[s] == GroupOf(cart, s)
  {
    EmptyCart(cart[..0]);
    hide ShopsOf, GroupOf;
    shops, groups := [], map[];
    for k := 0 to |cart|
      invariant shops == ShopsOf(cart[..k])
      invariant forall s :: s in groups <==> s in shops
      invariant forall s :: s in shops ==> groups[s] == GroupOf(cart[..k], s)
    {
      var item := cart[k];
      GroupsGrow(cart, k);
      if item.shop !in groups {
        EmptyGroup(cart[..k], item.shop);
        groups := groups[item.shop := []];
        shops := shops + [item.shop];
      }
      groups := groups[item.shop := groups[item.shop] + [item]];
    }
    assert cart[..|cart|] == cart;
  }

  lemma {:induction false} EmptyGroup(cart: seq<CartItem>, shop: Id)
    requires shop !in ShopsOf(cart)
    ensures GroupOf(cart, shop) == []
  {
    if |cart| == 0 {
    } else {
      var n := |cart| - 1;
      assert cart[n].shop in ShopsOf(cart);
      EmptyGroup(cart[..n], shop);
    }
  }

  lemma {:induction false} GroupMembers(cart: seq<CartItem>, shop: Id)
    ensures forall i :: 0 <= i < |GroupOf(cart, shop)| ==> GroupOf(cart, shop)[i].shop == shop
                                                           && GroupOf(cart, shop)[i] in cart
  {
    if |cart| == 0 {
    } else {
      GroupMembers(cart[..|cart| - 1], shop);
    }
  }

  function GroupSum(cart: seq<CartItem>, f: CartItem -> int): Id -> int {
    (shop: Id) => Sum(GroupOf(cart, shop), f)
  }

  /** Raising one shop's figure raises the total by as much. */
  lemma {:induction false} RaiseOne(shops: seq<Id>, g: Id -> int, h: Id -> int, at: Id, d: int)
    requires forall i, j :: 0 <= i < j < |shops| ==> shops[i] != shops[j]
    requires at in shops
    requires forall s: Id :: h(s) == g(s) + (if s == at then d else 0)
    ensures Sum(shops, h) == Sum(shops, g) + d
  {
    var n := |shops| - 1;
    if shops[n] == at {
      SumSame(shops[..n], h, shops[..n], g);
    } else {
      RaiseOne(shops[..n], g, h, at, d);
    }
  }

  /** The groups partition the cart: whatever is summed over the lines, the groups sum to the same. */
  lemma {:induction false} GroupsPartition(cart: seq<CartItem>, f: CartItem -> int)
    ensures Sum(ShopsOf(cart), GroupSum(cart, f)) == Sum(cart, f)
  {
    if |cart| == 0 {
    } else {
      var n := |cart| - 1;
      var item, before := cart[n], cart[..n];
      GroupsPartition(before, f);
      forall s: Id ensures GroupSum(cart, f)(s) == GroupSum(before, f)(s) + (if s == item.shop then f(item) else 0) {
        if s == item.shop {
          SumAppend(GroupOf(before, s), item, f);
        } else {
          assert GroupOf(cart, s) == GroupOf(before, s);
        }
      }
      if item.shop !in ShopsOf(before) {
        EmptyGroup(before, item.shop);
        SumAppend(ShopsOf(before), item.shop, GroupSum(before, f));
      }
      RaiseOne(ShopsOf(cart), GroupSum(before, f), GroupSum(cart, f), item.shop, f(item));
    }
  }

  // ----------------------------------------------------------- one shop's order

  function TaxInput(item: CartItem): TaxLineInput {
    TaxLineInput(item.product, item.quantity, item.priceCents)
  }

  function TaxInputs(items: seq<CartItem>): (inputs: seq<TaxLineInput>)
    ensures |inputs| == |items| && forall i :: 0 <= i < |items| ==> inputs[i] == TaxInput(items[i])
  {
    seq(|items|, i requires 0 <= i < |items| => TaxInput(items[i]))
  }

  /** The tax map is keyed by product: a later line of the same product overwrites an earlier one. */
  function TaxByProduct(results: seq<TaxLineResult>, product: Id): Option<TaxLineResult> {
    if |results| == 0 then None
    else
      var n := |results| - 1;
      if results[n].product == product then Some(results[n]) else TaxByProduct(results[..n], product)
  }

  function LineOf(item: CartItem, warehouse: Option<Id>, results: seq<TaxLineResult>): OrderLine {
    var tax := TaxByProduct(results, item.product);
    OrderLine(Some(item.product), warehouse, item.quantity, item.priceCents, item.priceCents * item.quantity,
              if tax.Some? then tax.value.taxCents else 0)
  }

  function LinesOf(items: seq<CartItem>, warehouse: Option<Id>, results: seq<TaxLineResult>): (lines: seq<OrderLine>)
    ensures |lines| == |items| && forall i :: 0 <= i < |items| ==> lines[i] == LineOf(items[i], warehouse, results)
  {
    seq(|items|, i requires 0 <= i < |items| => LineOf(items[i], warehouse, results))
  }

  function Goods(): CartItem -> int {
    (i: CartItem) => i.priceCents * i.quantity
  }

  function ItemTax(rates: Rates): CartItem -> int {
    (i: CartItem) => LineResult(TaxInput(i), rates).taxCents
  }

  function SumNat<T>(xs: seq<T>, f: T -> int): nat {
    Max(0, Sum(xs, f))
  }

  function BuildOrder(shop: Id, items: seq<CartItem>, shippingCents: nat, terms: Terms): Order {
    var results := LineResults(TaxInputs(items), terms.rates);
    var subtotal, tax := SumNat(items, Goods()), SumNat(results, TaxOf());
    Order(shop, PendingPayment, LinesOf(items, terms.warehouse(shop), results),
          subtotal, tax, RoundDiv(subtotal * COMMISSION_BPS, 10000), shippingCents, subtotal + tax + shippingCents)
  }

  /** Orders of the first `n` shops; the first one carries the shipping. */
  function BuildOrders(cart: seq<CartItem>, terms: Terms, n: nat): (orders: seq<Order>)
    requires n <= |ShopsOf(cart)|
    ensures |orders| == n
    ensures forall k :: 0 <= k < n ==>
              orders[k] == BuildOrder(ShopsOf(cart)[k], GroupOf(cart, ShopsOf(cart)[k]),
                  if k == 0 then terms.shippingCents else 0, terms)
  {
    if n == 0 then []
    else
      var shop := ShopsOf(cart)[n - 1];
      BuildOrders(cart, terms, n - 1)
          + [BuildOrder(shop, GroupOf(cart, shop), if n == 1 then terms.shippingCents else 0, terms)]
  }

  function LineTotal(): OrderLine -> int { (l: OrderLine) => l.lineTotalCents }

  function LineTax(): OrderLine -> int { (l: OrderLine) => l.taxCents }

  function OrderTotal(): Order -> int { (o: Order) => o.totalCents }

  predicate DistinctProducts(items: seq<CartItem>) {
    forall i, j :: 0 <= i < j < |items| ==> items[i].product != items[j].product
  }

  lemma {:induction false} TaxFound(results: seq<TaxLineResult>, i: nat)
    requires i < |results|
    requires forall j, k :: 0 <= j < k < |results| ==> results[j].product != results[k].product
    ensures TaxByProduct(results, results[i].product) == Some(results[i])
  {
    if i < |results| - 1 {
      TaxFound(results[..|results| - 1], i);
    }
  }

  /** An order's figures: lines as in the cart, exact sums of the lines, and a tenth of the goods as commission. */
  lemma {:induction false} OrderFigures(shop: Id, items: seq<CartItem>, shippingCents: nat, terms: Terms)
    requires DistinctProducts(items)
    ensures var o := BuildOrder(shop, items, shippingCents, terms);
            && o.subtotalCents == Sum(items, Goods()) == Sum(o.lines, LineTotal())
            && o.taxCents == Sum(items, ItemTax(terms.rates)) == Sum(o.lines, LineTax())
            && o.commissionCents <= o.subtotalCents <= o.totalCents
            && -5 < 10 * o.commissionCents - o.subtotalCents <= 5
            && |o.lines| == |items|
            && (forall i :: 0 <= i < |items| ==>
                  var item := items[i];
                  o.lines[i] == OrderLine(Some(item.product), terms.warehouse(shop), item.quantity, item.priceCents,
                                          item.priceCents * item.quantity, ItemTax(terms.rates)(item)))
            && o.totalCents == Sum(items, Goods()) + Sum(items, ItemTax(terms.rates)) + shippingCents
  {
    var o := BuildOrder(shop, items, shippingCents, terms);
    var results := LineResults(TaxInputs(items), terms.rates);
    SumNonNegative(items, Goods());
    SumNonNegative(items, ItemTax(terms.rates));
    SumSame(results, TaxOf(), items, ItemTax(terms.rates));
    SumSame(items, Goods(), o.lines, LineTotal());
    forall i | 0 <= i < |items| ensures ItemTax(terms.rates)(items[i]) == LineTax()(o.lines[i]) {
      TaxFound(results, i);
    }
    SumSame(items, ItemTax(terms.rates), o.lines, LineTax());
    RoundDivAtMost(o.subtotalCents * COMMISSION_BPS, 10000, o.subtotalCents);
    RoundDivError(o.subtotalCents * COMMISSION_BPS, 10000);
  }

  lemma {:induction false} GroupDistinct(cart: seq<CartItem>, shop: Id)
    requires DistinctProducts(cart)
    ensures DistinctProducts(GroupOf(cart, shop))
  {
    if |cart| == 0 {
    } else {
      var n := |cart| - 1;
      GroupDistinct(cart[..n], shop);
      GroupMembers(cart[..n], shop);
    }
  }

  lemma {:induction false} ShopOrderTotal(cart: seq<CartItem>, shop: Id, shippingCents: nat, terms: Terms)
    requires DistinctProducts(cart)
    ensures OrderTotal()(BuildOrder(shop, GroupOf(cart, shop), shippingCents, terms))
            == GroupSum(cart, Goods())(shop) + GroupSum(cart, ItemTax(terms.rates))(shop) + shippingCents
  {
    GroupDistinct(cart, shop);
    OrderFigures(shop, GroupOf(cart, shop), shippingCents, terms);
  }

  lemma {:induction false} SumWithExtra<T, U>(xs: seq<T>, f: T -> int, ys: seq<U>, g: U -> int, h: U -> int, extra: int)
    requires |xs| == |ys|
    requires forall k :: 0 <= k < |xs| ==> f(xs[k]) == g(ys[k]) + h(ys[k]) + (if k == 0 then extra else 0)
    ensures Sum(xs, f) == Sum(ys, g) + Sum(ys, h) + (if |xs| > 0 then extra else 0)
  {
    if |xs| == 0 {
    } else {
      SumWithExtra(xs[..|xs| - 1], f, ys[..|xs| - 1], g, h, extra);
    }
  }

  /** The orders of a checkout add up to the cart's goods, all its line taxes, and shipping once. */
  lemma {:induction false} CheckoutConserves(cart: seq<CartItem>, terms: Terms)
    requires |cart| > 0 && DistinctProducts(cart)
    ensures Sum(BuildOrders(cart, terms, |ShopsOf(cart)|), OrderTotal())
            == Sum(cart, Goods()) + Sum(cart, ItemTax(terms.rates)) + terms.shippingCents
  {
    var shops := ShopsOf(cart);
    var orders := BuildOrders(cart, terms, |shops|);
    forall k | 0 <= k < |orders|
      ensures OrderTotal()(orders[k])
              == GroupSum(cart, Goods())(shops[k]) + GroupSum(cart, ItemTax(terms.rates))(shops[k])
                  + (if k == 0 then terms.shippingCents else 0)
    {
      ShopOrderTotal(cart, shops[k], if k == 0 then terms.shippingCents else 0, terms);
    }
    SumWithExtra(orders, OrderTotal(), shops, GroupSum(cart, Goods()), GroupSum(cart, ItemTax(terms.rates)),
        terms.shippingCents);
    GroupsPartition(cart, Goods());
    GroupsPartition(cart, ItemTax(terms.rates));
  }
}
