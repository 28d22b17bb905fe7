/** The stock and visibility rule that checkout_view and buy_now apply to every order line,
    and the order lines they write (store/views.py). */
module Inventory {
  import opened Models

  /** One line's effect on its product: the stock is lowered by `qty` only when at least
      `qty` units are in stock, and then the product is published iff some stock is left.
      With too little stock nothing changes (no error is raised). */
  function Decrement(p: Product, qty: nat): (r: Product)
    ensures r.stock <= p.stock
    ensures p.stock >= qty ==> r.stock == p.stock - qty && r.isPublished == (r.stock != 0)
    ensures p.stock < qty ==> r == p
    ensures r.(stock := p.stock, isPublished := p.isPublished) == p
  {
    if p.stock >= qty then
      var left := p.stock - qty;
      p.(stock := left, isPublished := left != 0)
    else p
  }

  /** Every line's product exists (the foreign key of a cart item). */
  predicate LinesIn(ps: map<ProductId, Product>, lines: seq<CartItem>)
  {
    forall i :: 0 <= i < |lines| ==> lines[i].product in ps
  }

  /** Products after the lines are applied one after another, in order. */
  function ApplyOrder(ps: map<ProductId, Product>, lines: seq<CartItem>): (r: map<ProductId, Product>)
    requires LinesIn(ps, lines)
    ensures r.Keys == ps.Keys
    ensures forall p :: p in ps ==> r[p].(stock := ps[p].stock, isPublished := ps[p].isPublished) == ps[p]
    ensures forall p :: p in ps ==> r[p].stock <= ps[p].stock
    decreases |lines|
  {
    if lines == [] then ps
    else
      var prev := ApplyOrder(ps, lines[..|lines| - 1]);
      var l := lines[|lines| - 1];
      prev[l.product := Decrement(prev[l.product], l.quantity)]
  }

  /** Applying one more line of the sequence is one more Decrement. */
  lemma ApplyOrderStep(ps: map<ProductId, Product>, lines: seq<CartItem>, i: nat)
    requires LinesIn(ps, lines) && i < |lines|
    ensures LinesIn(ps, lines[..i]) && LinesIn(ps, lines[..i + 1])
    ensures var prev := ApplyOrder(ps, lines[..i]);
      ApplyOrder(ps, lines[..i + 1]) == prev[lines[i].product := Decrement(prev[lines[i].product], lines[i].quantity)]
  {
    assert lines[..i + 1][..i] == lines[..i];
  }

  /** A product that no line mentions keeps its stock and visibility. */
  lemma {:induction false} ApplyOrderUntouched(ps: map<ProductId, Product>, lines: seq<CartItem>, p: ProductId)
    requires LinesIn(ps, lines) && p in ps
    requires forall i :: 0 <= i < |lines| ==> lines[i].product != p
    ensures ApplyOrder(ps, lines)[p] == ps[p]
    decreases |lines|
  {
    if lines != [] {
      ApplyOrderUntouched(ps, lines[..|lines| - 1], p);
    }
  }

  /** When each product has at most one line (as in a cart), the line of product p decides
      its new stock alone: ApplyOrder gives exactly Decrement of the old product. */
  lemma {:induction false} ApplyOrderLine(ps: map<ProductId, Product>, lines: seq<CartItem>, k: nat)
    requires LinesIn(ps, lines) && k < |lines|
    requires forall i, j :: 0 <= i < j < |lines| ==> lines[i].product != lines[j].product
    ensures ApplyOrder(ps, lines)[lines[k].product] == Decrement(ps[lines[k].product], lines[k].quantity)
    decreases |lines|
  {
    var n := |lines| - 1;
    var init := lines[..n];
    if k == n {
      ApplyOrderUntouched(ps, init, lines[k].product);
    } else {
      assert init[k] == lines[k];
      ApplyOrderLine(ps, init, k);
    }
  }

  /** With one line per product, every product of a line gets that line's Decrement and
      every other product is left as it was. */
  lemma ApplyOrderEffect(ps: map<ProductId, Product>, lines: seq<CartItem>)
    requires LinesIn(ps, lines)
    requires forall i, j :: 0 <= i < j < |lines| ==> lines[i].product != lines[j].product
    ensures forall k :: 0 <= k < |lines| ==>
      ApplyOrder(ps, lines)[lines[k].product] == Decrement(ps[lines[k].product], lines[k].quantity)
    ensures forall p :: p in ps && (forall k :: 0 <= k < |lines| ==> lines[k].product != p) ==> ApplyOrder(ps, lines)[p] == ps[p]
  {
    forall k | 0 <= k < |lines| ensures ApplyOrder(ps, lines)[lines[k].product] == Decrement(ps[lines[k].product], lines[k].quantity) {
      ApplyOrderLine(ps, lines, k);
    }
    forall p | p in ps && (forall k :: 0 <= k < |lines| ==> lines[k].product != p) ensures ApplyOrder(ps, lines)[p] == ps[p] {
      ApplyOrderUntouched(ps, lines, p);
    }
  }

  /** The OrderItem written for one cart line: name of the product, price and quantity of the line. */
  function OrderLine(order: OrderId, ps: map<ProductId, Product>, it: CartItem): OrderItem
    requires it.product in ps
  {
    OrderItem(order, Some(it.product), ps[it.product].name, it.price, it.quantity)
  }

  /** The OrderItems written for the lines of a cart, in order. */
  function OrderLines(order: OrderId, ps: map<ProductId, Product>, lines: seq<CartItem>): (r: seq<OrderItem>)
    requires LinesIn(ps, lines)
    ensures |r| == |lines|
    ensures forall i :: 0 <= i < |lines| ==>
      r[i].order == order && r[i].product == Some(lines[i].product) &&
      r[i].price == lines[i].price && r[i].quantity == lines[i].quantity
  {
    seq(|lines|, i requires 0 <= i < |lines| => OrderLine(order, ps, lines[i]))
  }

  lemma OrderLinesStep(order: OrderId, ps: map<ProductId, Product>, lines: seq<CartItem>, i: nat)
    requires LinesIn(ps, lines) && i < |lines|
    ensures LinesIn(ps, lines[..i]) && LinesIn(ps, lines[..i + 1])
    ensures OrderLines(order, ps, lines[..i + 1]) == OrderLines(order, ps, lines[..i]) + [OrderLine(order, ps, lines[i])]
  {
  }

  /** The order's lines add up to the cart total that became total_amount. */
  lemma {:induction false} OrderLinesSum(order: OrderId, ps: map<ProductId, Product>, lines: seq<CartItem>)
    requires LinesIn(ps, lines)
    ensures OrderSum(OrderLines(order, ps, lines)) == Total(lines)
    decreases |lines|
  {
    if lines != [] {
      var r := OrderLines(order, ps, lines);
      assert r[1..] == OrderLines(order, ps, lines[1..]);
      OrderLinesSum(order, ps, lines[1..]);
      assert OrderItemSubtotal(r[0]) == Subtotal(lines[0]);
    }
  }
}
