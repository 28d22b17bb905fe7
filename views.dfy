/** The cart, stock and visibility logic of the store views (store/views.py), as one
    sequential store whose tables the view methods update in place. Each view is one
    atomic step; rendering, redirects and flash messages are not modelled. */
module Views {
  import opened Models
  import opened CartRows
  import opened Inventory

  /** The `quantity` form field as `int(request.POST.get('quantity', default))` sees it. */
  datatype QuantityField = Missing | Given(n: int) | Unparseable

  /** `int(request.POST.get('quantity', default))`: None when int() raises. */
  function ParseQuantity(f: QuantityField, default: int): Option<int>
  {
    match f
    case Missing => Some(default)
    case Given(n) => Some(n)
    case Unparseable => None
  }

  /** Python's max(1, n). */
  function AtLeastOne(n: int): (r: nat)
    ensures r >= 1 && r >= n
    ensures n >= 1 ==> r == n
    ensures r == 1 || r == n
  {
    if n < 1 then 1 else n
  }

  /** The quantity cart_add and buy_now use: the parsed value (default 1), with anything
      below 1 and anything that does not parse replaced by 1. */
  function AddQuantity(f: QuantityField): (q: nat)
    ensures q >= 1
    ensures f.Given? && f.n >= 1 ==> q == f.n
    ensures !(f.Given? && f.n >= 1) ==> q == 1
  {
    match ParseQuantity(f, 1)
    case Some(n) => AtLeastOne(n)
    case None => 1
  }

  /** The rule after a cart row is deleted: its product is republished exactly when no
      cart item in any cart still references it; otherwise it keeps its visibility. The
      soft-delete flag is not consulted. */
  function AfterRemoval(ps: map<ProductId, Product>, items: seq<CartItem>, p: ProductId): (r: map<ProductId, Product>)
    requires p in ps
    ensures r.Keys == ps.Keys
    ensures r[p].isPublished <==> ps[p].isPublished || !Referenced(items, p)
    ensures r[p].(isPublished := ps[p].isPublished) == ps[p]
    ensures forall q :: q in ps && q != p ==> r[q] == ps[q]
  {
    if Referenced(items, p) then ps else ps[p := ps[p].(isPublished := true)]
  }

  /** A user-cart line after the session cart is folded in: quantities are summed into an
      existing user line (its price and flags kept), a session line the user cart lacked is
      moved over unchanged except for its cart. */
  function Merged(userLine: Option<CartItem>, sessionLine: Option<CartItem>, userCart: CartId): (r: Option<CartItem>)
    ensures r.None? <==> userLine.None? && sessionLine.None?
    ensures r.Some? ==> r.value.cart == (if userLine.Some? then userLine.value.cart else userCart)
  {
    match (userLine, sessionLine)
    case (Some(a), Some(b)) => Some(a.(quantity := a.quantity + b.quantity))
    case (Some(a), None) => Some(a)
    case (None, Some(b)) => Some(b.(cart := userCart))
    case (None, None) => None
  }

  /** The quantity a line holds (0 when there is none). */
  function Qty(line: Option<CartItem>): nat
  {
    if line.Some? then line.value.quantity else 0
  }

  /** After a merge each product's quantity in the user cart is the old user quantity plus
      the session quantity. */
  lemma MergedQuantity(userLine: Option<CartItem>, sessionLine: Option<CartItem>, userCart: CartId)
    ensures Qty(Merged(userLine, sessionLine, userCart)) == Qty(userLine) + Qty(sessionLine)
  {
  }

  /** Table invariant of cart items: primary keys increasing and below the id counter,
      positive quantities, existing products and carts, at most one row per (cart, product). */
  ghost predicate ItemsValid(items: seq<CartItem>, carts: seq<Cart>, products: map<ProductId, Product>, next: nat)
  {
    UniqueLines(items) && IdsIncreasing(items) &&
    forall i :: 0 <= i < |items| ==>
      items[i].id < next && items[i].quantity >= 1 && items[i].product in products && HasCart(carts, items[i].cart)
  }

  /** Cart resolution only adds carts, so every row keeps an existing cart. */
  lemma ItemsValidMoreCarts(items: seq<CartItem>, carts: seq<Cart>, carts': seq<Cart>, products: map<ProductId, Product>, next: nat)
    requires ItemsValid(items, carts, products, next)
    requires forall id :: HasCart(carts, id) ==> HasCart(carts', id)
    ensures ItemsValid(items, carts', products, next)
  {
  }

  /** Rewriting row k with a row of the same id and a key no other row has keeps the table valid. */
  lemma ItemsValidWrite(items: seq<CartItem>, carts: seq<Cart>, products: map<ProductId, Product>, next: nat, k: nat, x: CartItem)
    requires ItemsValid(items, carts, products, next) && k < |items|
    requires forall j :: 0 <= j < |items| && j != k ==> !SameLine(items[j], x.cart, x.product)
    requires x.id == items[k].id && x.quantity >= 1 && x.product in products && HasCart(carts, x.cart)
    ensures ItemsValid(items[k := x], carts, products, next)
    ensures LineOf(items[k := x], x.cart, x.product) == Some(x)
    ensures !SameLine(x, items[k].cart, items[k].product) ==> LineOf(items[k := x], items[k].cart, items[k].product) == None
    ensures forall c, p :: !SameLine(x, c, p) && !SameLine(items[k], c, p) ==> LineOf(items[k := x], c, p) == LineOf(items, c, p)
  {
    LineOfWrite(items, k, x);
    var t := items[k := x];
    forall i, j | 0 <= i < j < |t| ensures t[i].id < t[j].id {
      assert t[i].id == items[i].id && t[j].id == items[j].id;
    }
  }

  /** Appending a row for a key the table lacks, with the next id, keeps the table valid. */
  lemma ItemsValidAppend(items: seq<CartItem>, carts: seq<Cart>, products: map<ProductId, Product>, next: nat, x: CartItem)
    requires ItemsValid(items, carts, products, next)
    requires LineOf(items, x.cart, x.product) == None
    requires x.id == next && x.quantity >= 1 && x.product in products && HasCart(carts, x.cart)
    ensures ItemsValid(items + [x], carts, products, next + 1)
    ensures LineOf(items + [x], x.cart, x.product) == Some(x)
    ensures forall c, p :: !SameLine(x, c, p) ==> LineOf(items + [x], c, p) == LineOf(items, c, p)
  {
    LineOfAppend(items, x);
  }

  /** Changing a product's flags keeps the catalogue's keys and so the table valid. */
  lemma ItemsValidProducts(items: seq<CartItem>, carts: seq<Cart>, products: map<ProductId, Product>, products': map<ProductId, Product>, next: nat)
    requires ItemsValid(items, carts, products, next)
    requires products'.Keys == products.Keys
    ensures ItemsValid(items, carts, products', next)
  {
  }

  /** Deleting the rows of cart c keeps the table valid, and no row of c is left. */
  lemma ItemsValidDropCart(items: seq<CartItem>, carts: seq<Cart>, products: map<ProductId, Product>, next: nat, c: CartId)
    requires ItemsValid(items, carts, products, next)
    ensures ItemsValid(DropCart(items, c), carts, products, next)
    ensures forall i :: 0 <= i < |DropCart(items, c)| ==> DropCart(items, c)[i].cart != c
  {
    LineOfDropCart(items, c);
    var t := DropCart(items, c);
    forall i | 0 <= i < |t|
      ensures t[i].id < next && t[i].quantity >= 1 && t[i].product in products && HasCart(carts, t[i].cart) && t[i].cart != c
    {
      assert t[i] in t;
      var k :| 0 <= k < |items| && items[k] == t[i];
    }
  }

  /** Once no row refers to cart k, deleting that cart keeps the table valid. */
  lemma ItemsValidRemoveCart(items: seq<CartItem>, carts: seq<Cart>, nc: nat, products: map<ProductId, Product>, next: nat, k: nat)
    requires ItemsValid(items, carts, products, next) && CartsValid(carts, nc) && k < |carts|
    requires forall i :: 0 <= i < |items| ==> items[i].cart != carts[k].id
    ensures ItemsValid(items, RemoveAt(carts, k), products, next)
  {
    RemoveCartValid(carts, nc, k);
  }

  predicate HasOrder(orders: seq<Order>, id: OrderId)
  {
    exists j :: 0 <= j < |orders| && orders[j].id == id
  }

  /** Table invariant of orders: increasing ids below the counter; every order line
      belongs to an existing order. */
  ghost predicate OrdersValid(orders: seq<Order>, orderItems: seq<OrderItem>, next: nat)
  {
    (forall i :: 0 <= i < |orders| ==> orders[i].id < next) &&
    (forall i, j :: 0 <= i < j < |orders| ==> orders[i].id < orders[j].id) &&
    (forall i :: 0 <= i < |orderItems| ==> HasOrder(orders, orderItems[i].order))
  }

  lemma AddOrderValid(orders: seq<Order>, orderItems: seq<OrderItem>, next: nat, o: Order, lines: seq<OrderItem>)
    requires OrdersValid(orders, orderItems, next)
    requires o.id == next
    requires forall i :: 0 <= i < |lines| ==> lines[i].order == next
    ensures OrdersValid(orders + [o], orderItems + lines, next + 1)
  {
    var os := orders + [o];
    assert os[|orders|].id == next;
    forall i | 0 <= i < |orderItems + lines| ensures HasOrder(os, (orderItems + lines)[i].order) {
      if i < |orderItems| {
        var j :| 0 <= j < |orders| && orders[j].id == orderItems[i].order;
        assert os[j].id == orderItems[i].order;
      } else {
        assert (orderItems + lines)[i] == lines[i - |orderItems|];
      }
    }
  }

  /** The loop of checkout_view over the cart lines, in order: each line is written as an
      order line (with the product's name) and then applied to its product's stock. */
  method PlaceLines(order: OrderId, ps0: map<ProductId, Product>, lines: seq<CartItem>)
    returns (ps: map<ProductId, Product>, written: seq<OrderItem>)
    requires LinesIn(ps0, lines)
    ensures ps == ApplyOrder(ps0, lines)
    ensures written == OrderLines(order, ps0, lines)
  {
    ps := ps0;
    written := [];
    for i := 0 to |lines|
      invariant LinesIn(ps0, lines[..i])
      invariant ps == ApplyOrder(ps0, lines[..i])
      invariant written == OrderLines(order, ps0, lines[..i])
    {
      var it := lines[i];
      ApplyOrderStep(ps0, lines, i);
      OrderLinesStep(order, ps0, lines, i);
      var prod := ps[it.product];
      assert prod.name == ps0[it.product].name;
      written := written + [OrderItem(order, Some(it.product), prod.name, it.price, it.quantity)];
      if prod.stock >= it.quantity {
        var left := prod.stock - it.quantity;
        ps := ps[it.product := prod.(stock := left, isPublished := left != 0)];
      }
    }
    assert lines[..|lines|] == lines;
  }

  /** One iteration of the merge loop for the session row `it`: when the user cart u has a
      line for the same product its quantity grows by it.quantity, otherwise `it` itself
      is re-pointed at u. Only the two lines of that product (in u and in it's cart) change. */
  method FoldOne(rows: seq<CartItem>, carts: seq<Cart>, products: map<ProductId, Product>, next: nat, u: CartId, it: CartItem)
    returns (rows': seq<CartItem>)
    requires ItemsValid(rows, carts, products, next) && HasCart(carts, u) && u != it.cart
    requires LineOf(rows, it.cart, it.product) == Some(it)
    ensures ItemsValid(rows', carts, products, next)
    ensures LineOf(rows', u, it.product) == Merged(LineOf(rows, u, it.product), Some(it), u)
    ensures forall c, p :: p != it.product ==> LineOf(rows', c, p) == LineOf(rows, c, p)
    ensures forall c :: c != u && c != it.cart ==> LineOf(rows', c, it.product) == LineOf(rows, c, it.product)
  {
    var e := FindLine(rows, u, it.product);
    if e.Some? {
      LineOfAt(rows, e.value);
      var existing := rows[e.value];
      var summed := existing.(quantity := existing.quantity + it.quantity);
      ItemsValidWrite(rows, carts, products, next, e.value, summed);
      rows' := rows[e.value := summed];
    } else {
      FindByIdOf(rows, it);
      var k := FindById(rows, it.id);
      ItemsValidWrite(rows, carts, products, next, k.value, it.(cart := u));
      rows' := rows[k.value := it.(cart := u)];
    }
  }

  /** The loop of _merge_session_cart_to_user over the rows of session cart s, in order:
      a product the user cart u already holds gets the session quantity added, otherwise
      the session row itself is moved to u. */
  method FoldSessionLines(items: seq<CartItem>, carts: seq<Cart>, products: map<ProductId, Product>, next: nat, u: CartId, s: CartId)
    returns (rows: seq<CartItem>)
    requires ItemsValid(items, carts, products, next) && HasCart(carts, u) && u != s
    ensures ItemsValid(rows, carts, products, next)
    ensures forall p :: LineOf(rows, u, p) == Merged(LineOf(items, u, p), LineOf(items, s, p), u)
    ensures forall c, p :: c != u && c != s ==> LineOf(rows, c, p) == LineOf(items, c, p)
  {
    var sessionItems := ItemsOf(items, s);
    ItemsOfDistinctProducts(items, s);
    ItemsOfLines(items, s);
    ghost var done: set<ProductId> := {};
    rows := items;
    for i := 0 to |sessionItems|
      invariant ItemsValid(rows, carts, products, next)
      invariant FoldInv(items, rows, u, s, i, done)
    {
      var it := sessionItems[i];
      ghost var before := rows;
      rows := FoldOne(rows, carts, products, next, u, it);
      FoldInvStep(items, before, rows, u, s, i, done);
      done := done + {it.product};
    }
    ItemsOfCovered(items, s, done);
  }

  /** The state of the merge loop after the first i session rows (whose products form
      `done`) were folded into the user cart u. */
  ghost predicate FoldInv(items: seq<CartItem>, rows: seq<CartItem>, u: CartId, s: CartId, i: nat, done: set<ProductId>)
  {
    var session := ItemsOf(items, s);
    i <= |session| &&
    (forall p :: p in done ==> LineOf(rows, u, p) == Merged(LineOf(items, u, p), LineOf(items, s, p), u)) &&
    (forall p :: p !in done ==> LineOf(rows, u, p) == LineOf(items, u, p)) &&
    (forall j :: i <= j < |session| ==> session[j].product !in done && LineOf(rows, s, session[j].product) == Some(session[j])) &&
    (forall c, p :: c != u && c != s ==> LineOf(rows, c, p) == LineOf(items, c, p)) &&
    (forall j :: 0 <= j < i ==> session[j].product in done)
  }

  lemma FoldInvStep(items: seq<CartItem>, rows: seq<CartItem>, rows': seq<CartItem>, u: CartId, s: CartId, i: nat, done: set<ProductId>)
    requires FoldInv(items, rows, u, s, i, done) && i < |ItemsOf(items, s)| && u != s
    requires UniqueLines(items)
    requires var it := ItemsOf(items, s)[i];
      LineOf(rows', u, it.product) == Merged(LineOf(rows, u, it.product), Some(it), u) &&
      (forall c, p :: p != it.product ==> LineOf(rows', c, p) == LineOf(rows, c, p)) &&
      (forall c :: c != u && c != s ==> LineOf(rows', c, it.product) == LineOf(rows, c, it.product))
    ensures FoldInv(items, rows', u, s, i + 1, done + {ItemsOf(items, s)[i].product})
  {
    var session := ItemsOf(items, s);
    var it := session[i];
    var done' := done + {it.product};
    ItemsOfDistinctProducts(items, s);
    assert LineOf(items, s, it.product) == Some(it) by {
      ItemsOfLines(items, s);
    }
    forall p | p in done' ensures LineOf(rows', u, p) == Merged(LineOf(items, u, p), LineOf(items, s, p), u) {
      if p != it.product {
        assert LineOf(rows', u, p) == LineOf(rows, u, p);
      }
    }
    forall p | p !in done' ensures LineOf(rows', u, p) == LineOf(items, u, p) {
      assert LineOf(rows', u, p) == LineOf(rows, u, p);
    }
    forall j | i + 1 <= j < |session|
      ensures session[j].product !in done' && LineOf(rows', s, session[j].product) == Some(session[j])
    {
      assert session[j].product != it.product;
      assert LineOf(rows', s, session[j].product) == LineOf(rows, s, session[j].product);
    }
    forall j | 0 <= j < i + 1 ensures session[j].product in done' {
    }
  }

  /** Every row of cart c is the line of its product in c. */
  lemma ItemsOfLines(items: seq<CartItem>, c: CartId)
    requires UniqueLines(items)
    ensures forall j :: 0 <= j < |ItemsOf(items, c)| ==> LineOf(items, c, ItemsOf(items, c)[j].product) == Some(ItemsOf(items, c)[j])
  {
    var r := ItemsOf(items, c);
    forall j | 0 <= j < |r| ensures LineOf(items, c, r[j].product) == Some(r[j]) {
      assert r[j] in items;
      var k :| 0 <= k < |items| && items[k] == r[j];
      LineOfAt(items, k);
    }
  }

  /** A product that no row of cart c names has no line in c. */
  lemma ItemsOfCovered(items: seq<CartItem>, c: CartId, names: set<ProductId>)
    requires forall j :: 0 <= j < |ItemsOf(items, c)| ==> ItemsOf(items, c)[j].product in names
    ensures forall p :: p !in names ==> LineOf(items, c, p) == None
  {
    var r := ItemsOf(items, c);
    forall p | p !in names ensures LineOf(items, c, p) == None {
      forall k | 0 <= k < |items| ensures !SameLine(items[k], c, p) {
        if items[k].cart == c {
          assert items[k] in r;
        }
      }
    }
  }

  class Store {
    var products: map<ProductId, Product>
    var carts: seq<Cart>
    var items: seq<CartItem>
    var orders: seq<Order>
    var orderItems: seq<OrderItem>
    var nextCartId: nat
    var nextItemId: nat
    var nextOrderId: nat

    ghost predicate Valid()
      reads this
    {
      CartsValid(carts, nextCartId) &&
      ItemsValid(items, carts, products, nextItemId) &&
      OrdersValid(orders, orderItems, nextOrderId)
    }

    /** A store with the given catalogue and no carts or orders yet. */
    constructor (catalogue: map<ProductId, Product>)
      ensures Valid()
      ensures products == catalogue && carts == [] && items == [] && orders == [] && orderItems == []
      ensures nextCartId == 0 && nextItemId == 0 && nextOrderId == 0
    {
      products := catalogue;
      carts, items, orders, orderItems := [], [], [], [];
      nextCartId, nextItemId, nextOrderId := 0, 0, 0;
    }

    /** _get_cart: the user's cart, or the session's cart, created when there is none. */
    method GetCart(who: Identity) returns (c: CartId)
      requires Valid()
      modifies this
      ensures Valid()
      ensures Resolution(carts, nextCartId, c) == ResolveCart(old(carts), old(nextCartId), who)
      ensures products == old(products) && items == old(items) && nextItemId == old(nextItemId)
      ensures orders == old(orders) && orderItems == old(orderItems) && nextOrderId == old(nextOrderId)
    {
      var r := ResolveCart(carts, nextCartId, who);
      ResolveCartValid(carts, nextCartId, who);
      ItemsValidMoreCarts(items, carts, r.carts, products, nextItemId);
      carts, nextCartId, c := r.carts, r.nextCartId, r.cart;
    }

    /** The line step of cart_add on cart c: the quantity is added to the cart's line for
        the product, whose price snapshot stays, or a new line is created at the product's
        current price. */
    method AddToCart(c: CartId, pid: ProductId, q: nat)
      requires Valid() && HasCart(carts, c) && pid in products && q >= 1
      modifies this
      ensures Valid()
      ensures products == old(products) && carts == old(carts) && nextCartId == old(nextCartId)
      ensures orders == old(orders) && orderItems == old(orderItems) && nextOrderId == old(nextOrderId)
      ensures match FindLine(old(items), c, pid)
        case Some(k) =>
          var line := old(items)[k];
          items == old(items)[k := line.(quantity := line.quantity + q)] &&
          nextItemId == old(nextItemId) &&
          LineOf(items, c, pid) == Some(line.(quantity := line.quantity + q))
        case None =>
          var line := CartItem(old(nextItemId), c, pid, q, old(products)[pid].price, false);
          items == old(items) + [line] &&
          nextItemId == old(nextItemId) + 1 &&
          LineOf(items, c, pid) == Some(line)
      ensures forall c', p :: !(c' == c && p == pid) ==> LineOf(items, c', p) == LineOf(old(items), c', p)
    {
      var product := products[pid];
      var k := FindLine(items, c, pid);
      if k.Some? {
        var line := items[k.value];
        var updated := line.(quantity := line.quantity + q);
        ItemsValidWrite(items, carts, products, nextItemId, k.value, updated);
        items := items[k.value := updated];
      } else {
        var line := CartItem(nextItemId, c, pid, q, product.price, false);
        ItemsValidAppend(items, carts, products, nextItemId, line);
        items := items + [line];
        nextItemId := nextItemId + 1;
      }
    }

    /** cart_add: nothing happens for a missing or soft-deleted product (no cart is created
        either); otherwise the caller's cart is resolved, AddToCart applies the quantity of
        the form (1 when it is below 1 or does not parse), and the product is hidden from
        the catalogue. */
    method CartAdd(who: Identity, pid: ProductId, quantity: QuantityField)
      requires Valid()
      modifies this
      ensures Valid()
      ensures orders == old(orders) && orderItems == old(orderItems) && nextOrderId == old(nextOrderId)
      ensures pid !in old(products) || old(products)[pid].isDeleted ==>
        products == old(products) && carts == old(carts) && items == old(items) &&
        nextCartId == old(nextCartId) && nextItemId == old(nextItemId)
      ensures pid in old(products) && !old(products)[pid].isDeleted ==>
        var r := ResolveCart(old(carts), old(nextCartId), who);
        carts == r.carts && nextCartId == r.nextCartId
      ensures pid in old(products) && !old(products)[pid].isDeleted ==>
        products == old(products)[pid := old(products)[pid].(isPublished := false)] && !Listed(products[pid])
      ensures pid in old(products) && !old(products)[pid].isDeleted ==>
        var c := ResolveCart(old(carts), old(nextCartId), who).cart;
        var q := AddQuantity(quantity);
        match FindLine(old(items), c, pid)
        case Some(k) =>
          var line := old(items)[k];
          items == old(items)[k := line.(quantity := line.quantity + q)] &&
          nextItemId == old(nextItemId) &&
          LineOf(items, c, pid) == Some(line.(quantity := line.quantity + q))
        case None =>
          var line := CartItem(old(nextItemId), c, pid, q, old(products)[pid].price, false);
          items == old(items) + [line] &&
          nextItemId == old(nextItemId) + 1 &&
          LineOf(items, c, pid) == Some(line)
      ensures pid in old(products) && !old(products)[pid].isDeleted ==>
        var c := ResolveCart(old(carts), old(nextCartId), who).cart;
        forall c', p :: !(c' == c && p == pid) ==> LineOf(items, c', p) == LineOf(old(items), c', p)
    {
      if pid !in products || products[pid].isDeleted {
        return;
      }
      var c := GetCart(who);
      AddToCart(c, pid, AddQuantity(quantity));
      SetPublished(pid, false);
    }

    /** `product.is_published = visible; product.save()` */
    method SetPublished(pid: ProductId, visible: bool)
      requires Valid() && pid in products
      modifies this
      ensures Valid()
      ensures products == old(products)[pid := old(products)[pid].(isPublished := visible)]
      ensures carts == old(carts) && items == old(items) && nextCartId == old(nextCartId) && nextItemId == old(nextItemId)
      ensures orders == old(orders) && orderItems == old(orderItems) && nextOrderId == old(nextOrderId)
    {
      var product := products[pid].(isPublished := visible);
      ItemsValidProducts(items, carts, products, products[pid := product], nextItemId);
      products := products[pid := product];
    }

    /** Deletes row k and republishes its product when no cart item references it any more
        (shared by cart_remove and by cart_update_quantity with a quantity below 1). */
    method RemoveLine(k: nat)
      requires Valid() && k < |items|
      modifies this
      ensures Valid()
      ensures items == RemoveAt(old(items), k)
      ensures products == AfterRemoval(old(products), items, old(items)[k].product)
      ensures LineOf(items, old(items)[k].cart, old(items)[k].product) == None
      ensures forall c, p :: !SameLine(old(items)[k], c, p) ==> LineOf(items, c, p) == LineOf(old(items), c, p)
      ensures carts == old(carts) && nextCartId == old(nextCartId) && nextItemId == old(nextItemId)
      ensures orders == old(orders) && orderItems == old(orderItems) && nextOrderId == old(nextOrderId)
    {
      var prod := items[k].product;
      LineOfRemove(items, k);
      items := RemoveAt(items, k);
      if !Referenced(items, prod) {
        products := products[prod := products[prod].(isPublished := true)];
      }
    }

    /** cart_remove: deletes the item only when it is in the caller's cart. */
    method CartRemove(who: Identity, itemId: ItemId)
      requires Valid()
      modifies this
      ensures Valid()
      ensures var r := ResolveCart(old(carts), old(nextCartId), who);
        carts == r.carts && nextCartId == r.nextCartId &&
        match FindOwned(old(items), itemId, r.cart)
        case None => items == old(items) && products == old(products)
        case Some(k) =>
          var line := old(items)[k];
          line.id == itemId && line.cart == r.cart &&
          items == RemoveAt(old(items), k) &&
          products == AfterRemoval(old(products), items, line.product) &&
          LineOf(items, r.cart, line.product) == None &&
          forall c, p :: !SameLine(line, c, p) ==> LineOf(items, c, p) == LineOf(old(items), c, p)
      ensures nextItemId == old(nextItemId)
      ensures orders == old(orders) && orderItems == old(orderItems) && nextOrderId == old(nextOrderId)
    {
      var c := GetCart(who);
      var k := FindOwned(items, itemId, c);
      if k.Some? {
        RemoveLine(k.value);
      }
    }

    /** cart_update_quantity: for an item of the caller's cart, a quantity below 1 removes
        it (as cart_remove does), a quantity of 1 or more is set as it is, a missing field
        keeps the current quantity, and a value that does not parse changes nothing. */
    method CartUpdateQuantity(who: Identity, itemId: ItemId, quantity: QuantityField)
      requires Valid()
      modifies this
      ensures Valid()
      ensures var r := ResolveCart(old(carts), old(nextCartId), who);
        carts == r.carts && nextCartId == r.nextCartId &&
        match FindOwned(old(items), itemId, r.cart)
        case None => items == old(items) && products == old(products)
        case Some(k) =>
          var line := old(items)[k];
          line.id == itemId && line.cart == r.cart &&
          match ParseQuantity(quantity, line.quantity)
          case None => items == old(items) && products == old(products)
          case Some(q) =>
            if q < 1 then
              items == RemoveAt(old(items), k) &&
              products == AfterRemoval(old(products), items, line.product) &&
              LineOf(items, r.cart, line.product) == None &&
              forall c, p :: !SameLine(line, c, p) ==> LineOf(items, c, p) == LineOf(old(items), c, p)
            else
              items == old(items)[k := line.(quantity := q)] &&
              products == old(products) &&
              LineOf(items, r.cart, line.product) == Some(line.(quantity := q)) &&
              forall c, p :: !SameLine(line, c, p) ==> LineOf(items, c, p) == LineOf(old(items), c, p)
      ensures nextItemId == old(nextItemId)
      ensures orders == old(orders) && orderItems == old(orderItems) && nextOrderId == old(nextOrderId)
    {
      var c := GetCart(who);
      var k := FindOwned(items, itemId, c);
      if k.None? {
        return;
      }
      var line := items[k.value];
      var parsed := ParseQuantity(quantity, line.quantity);
      if parsed.None? {
        return;
      }
      var q := parsed.value;
      if q < 1 {
        RemoveLine(k.value);
      } else {
        var updated := line.(quantity := q);
        LineOfWrite(items, k.value, updated);
        items := items[k.value := updated];
      }
    }

    /** The cart step of product_delete on cart c: an existing line for the product is
        flagged as a backup, re-priced at the current price and keeps max(1, quantity);
        otherwise a backup line of quantity 1 is created. */
    method MarkBackup(c: CartId, pid: ProductId)
      requires Valid() && HasCart(carts, c) && pid in products
      modifies this
      ensures Valid()
      ensures products == old(products) && carts == old(carts) && nextCartId == old(nextCartId)
      ensures orders == old(orders) && orderItems == old(orderItems) && nextOrderId == old(nextOrderId)
      ensures match FindLine(old(items), c, pid)
        case Some(k) =>
          var line := old(items)[k];
          var backup := line.(isDeletedBackup := true, quantity := AtLeastOne(line.quantity), price := products[pid].price);
          items == old(items)[k := backup] && nextItemId == old(nextItemId) &&
          LineOf(items, c, pid) == Some(backup)
        case None =>
          var backup := CartItem(old(nextItemId), c, pid, 1, products[pid].price, true);
          items == old(items) + [backup] && nextItemId == old(nextItemId) + 1 &&
          LineOf(items, c, pid) == Some(backup)
      ensures forall c', p :: !(c' == c && p == pid) ==> LineOf(items, c', p) == LineOf(old(items), c', p)
    {
      var k := FindLine(items, c, pid);
      if k.Some? {
        var line := items[k.value];
        var backup := line.(isDeletedBackup := true, quantity := AtLeastOne(line.quantity), price := products[pid].price);
        ItemsValidWrite(items, carts, products, nextItemId, k.value, backup);
        items := items[k.value := backup];
      } else {
        var backup := CartItem(nextItemId, c, pid, 1, products[pid].price, true);
        ItemsValidAppend(items, carts, products, nextItemId, backup);
        items := items + [backup];
        nextItemId := nextItemId + 1;
      }
    }

    /** product_delete (POST): marks the product soft-deleted, leaving is_published as it
        was, and makes the acting identity's cart hold exactly one backup line for it
        (MarkBackup). No other cart is touched. */
    method ProductDelete(who: Identity, pid: ProductId)
      requires Valid()
      modifies this
      ensures Valid()
      ensures orders == old(orders) && orderItems == old(orderItems) && nextOrderId == old(nextOrderId)
      ensures pid !in old(products) ==>
        products == old(products) && carts == old(carts) && items == old(items) &&
        nextCartId == old(nextCartId) && nextItemId == old(nextItemId)
      ensures pid in old(products) ==>
        var r := ResolveCart(old(carts), old(nextCartId), who);
        var p0 := old(products)[pid];
        carts == r.carts && nextCartId == r.nextCartId &&
        products == old(products)[pid := p0.(isDeleted := true)] &&
        products[pid].isPublished == p0.isPublished && !Listed(products[pid]) &&
        match FindLine(old(items), r.cart, pid)
        case Some(k) =>
          var line := old(items)[k];
          var backup := line.(isDeletedBackup := true, quantity := AtLeastOne(line.quantity), price := p0.price);
          items == old(items)[k := backup] && nextItemId == old(nextItemId) &&
          LineOf(items, r.cart, pid) == Some(backup)
        case None =>
          var backup := CartItem(old(nextItemId), r.cart, pid, 1, p0.price, true);
          items == old(items) + [backup] && nextItemId == old(nextItemId) + 1 &&
          LineOf(items, r.cart, pid) == Some(backup)
      ensures pid in old(products) ==>
        var c := ResolveCart(old(carts), old(nextCartId), who).cart;
        forall c', p :: !(c' == c && p == pid) ==> LineOf(items, c', p) == LineOf(old(items), c', p)
    {
      if pid !in products {
        return;
      }
      var product := products[pid].(isDeleted := true);
      ItemsValidProducts(items, carts, products, products[pid := product], nextItemId);
      products := products[pid := product];
      var c := GetCart(who);
      MarkBackup(c, pid);
    }

    /** cart_restore: only a backup line of the caller's own cart is accepted; its product
        is un-deleted (visibility unchanged) and the line is removed. Any other item id is a
        no-op. */
    method CartRestore(who: Identity, itemId: ItemId)
      requires Valid()
      modifies this
      ensures Valid()
      ensures var r := ResolveCart(old(carts), old(nextCartId), who);
        carts == r.carts && nextCartId == r.nextCartId &&
        match FindBackup(old(items), itemId, r.cart)
        case None => items == old(items) && products == old(products)
        case Some(k) =>
          var line := old(items)[k];
          line.id == itemId && line.cart == r.cart && line.isDeletedBackup &&
          items == RemoveAt(old(items), k) &&
          products == old(products)[line.product := old(products)[line.product].(isDeleted := false)] &&
          products[line.product].isPublished == old(products)[line.product].isPublished &&
          LineOf(items, r.cart, line.product) == None &&
          forall c, p :: !SameLine(line, c, p) ==> LineOf(items, c, p) == LineOf(old(items), c, p)
      ensures nextItemId == old(nextItemId)
      ensures orders == old(orders) && orderItems == old(orderItems) && nextOrderId == old(nextOrderId)
    {
      var c := GetCart(who);
      var k := FindBackup(items, itemId, c);
      if k.None? {
        return;
      }
      var line := items[k.value];
      products := products[line.product := products[line.product].(isDeleted := false)];
      LineOfRemove(items, k.value);
      items := RemoveAt(items, k.value);
    }

    /** Deletes cart k once no row refers to it. */
    method RemoveCart(k: nat)
      requires Valid() && k < |carts|
      requires forall i :: 0 <= i < |items| ==> items[i].cart != carts[k].id
      modifies this
      ensures Valid()
      ensures carts == RemoveAt(old(carts), k) && !HasCart(carts, old(carts)[k].id)
      ensures forall who :: Owns(old(carts)[k], who) ==> FindCart(carts, who).None?
      ensures forall id :: HasCart(old(carts), id) && id != old(carts)[k].id ==> HasCart(carts, id)
      ensures products == old(products) && items == old(items) && nextCartId == old(nextCartId) && nextItemId == old(nextItemId)
      ensures orders == old(orders) && orderItems == old(orderItems) && nextOrderId == old(nextOrderId)
    {
      ItemsValidRemoveCart(items, carts, nextCartId, products, nextItemId, k);
      RemoveCartValid(carts, nextCartId, k);
      forall who | Owns(carts[k], who) ensures FindCart(RemoveAt(carts, k), who).None? {
        RemoveCartOwner(carts, nextCartId, k, who);
      }
      carts := RemoveAt(carts, k);
    }

    /** _merge_session_cart_to_user after a login: nothing happens without a session key
        (None or the empty string, both falsy) or without a cart for it. Otherwise the
        user's cart is resolved, every session line is folded into it (FoldSessionLines),
        and the session cart is deleted with what is left of its rows. Other carts are not
        touched. */
    method MergeSessionCart(sessionKey: Option<string>, user: UserId)
      requires Valid()
      modifies this
      ensures Valid()
      ensures products == old(products) && nextItemId == old(nextItemId)
      ensures orders == old(orders) && orderItems == old(orderItems) && nextOrderId == old(nextOrderId)
      ensures sessionKey.None? || sessionKey.value == "" || FindCart(old(carts), Anonymous(sessionKey.value)).None? ==>
        carts == old(carts) && items == old(items) && nextCartId == old(nextCartId)
      ensures sessionKey.Some? && sessionKey.value != "" && FindCart(old(carts), Anonymous(sessionKey.value)).Some? ==>
        var sidx := FindCart(old(carts), Anonymous(sessionKey.value)).value;
        var r := ResolveCart(old(carts), old(nextCartId), Authenticated(user));
        carts == RemoveAt(r.carts, sidx) && nextCartId == r.nextCartId &&
        r.cart != old(carts)[sidx].id && HasCart(carts, r.cart) &&
        FindCart(carts, Anonymous(sessionKey.value)).None?
      ensures sessionKey.Some? && sessionKey.value != "" && FindCart(old(carts), Anonymous(sessionKey.value)).Some? ==>
        var s := old(carts)[FindCart(old(carts), Anonymous(sessionKey.value)).value].id;
        var u := ResolveCart(old(carts), old(nextCartId), Authenticated(user)).cart;
        ItemsOf(items, s) == [] &&
        (forall p :: LineOf(items, u, p) == Merged(LineOf(old(items), u, p), LineOf(old(items), s, p), u)) &&
        (forall c, p :: c != u && c != s ==> LineOf(items, c, p) == LineOf(old(items), c, p))
    {
      if sessionKey.None? || sessionKey.value == "" {
        return;
      }
      var found := FindCart(carts, Anonymous(sessionKey.value));
      if found.None? {
        return;
      }
      var sidx := found.value;
      var s := carts[sidx].id;
      var u := GetCart(Authenticated(user));
      assert carts[sidx] == old(carts)[sidx];
      ghost var ui := FindCart(carts, Authenticated(user)).value;
      assert ui != sidx && carts[ui].id == u;
      assert HasCart(carts, u) && u != s;
      var rows := FoldSessionLines(items, carts, products, nextItemId, u, s);
      items := rows;
      ClearCart(s);
      RemoveCart(sidx);
    }

    /** The order part of checkout_view on cart c: an order with the cart total and status
        "new", one order line per cart line (backup lines included) with the product's name
        and the line's price and quantity, and each line's Decrement of its product. */
    method RecordOrder(who: Identity, c: CartId) returns (order: OrderId)
      requires Valid()
      modifies this
      ensures Valid()
      ensures carts == old(carts) && nextCartId == old(nextCartId) && items == old(items) && nextItemId == old(nextItemId)
      ensures order == old(nextOrderId) && nextOrderId == old(nextOrderId) + 1
      ensures orders == old(orders) + [Order(order, OrderUser(who), DefaultStatus, CartTotal(items, c))]
      ensures orderItems == old(orderItems) + OrderLines(order, old(products), ItemsOf(items, c))
      ensures OrderSum(OrderLines(order, old(products), ItemsOf(items, c))) == CartTotal(items, c)
      ensures var lines := ItemsOf(items, c);
        products == ApplyOrder(old(products), lines) &&
        (forall k :: 0 <= k < |lines| ==>
          products[lines[k].product] == Decrement(old(products)[lines[k].product], lines[k].quantity)) &&
        (forall p :: p in old(products) && (forall k :: 0 <= k < |lines| ==> lines[k].product != p) ==>
          products[p] == old(products)[p])
    {
      var lines := ItemsOf(items, c);
      var total := CartTotal(items, c);
      order := nextOrderId;
      forall k | 0 <= k < |lines| ensures lines[k].product in products {
        assert lines[k] in items;
      }
      ItemsOfDistinctProducts(items, c);
      OrderLinesSum(order, products, lines);
      ApplyOrderEffect(products, lines);
      var ps, written := PlaceLines(order, products, lines);
      AddOrderValid(orders, orderItems, nextOrderId, Order(order, OrderUser(who), DefaultStatus, total), written);
      ItemsValidProducts(items, carts, products, ps, nextItemId);
      orders := orders + [Order(order, OrderUser(who), DefaultStatus, total)];
      orderItems := orderItems + written;
      nextOrderId := nextOrderId + 1;
      products := ps;
    }

    /** `cart.items.all().delete()`: every row of cart c goes, no other row changes. */
    method ClearCart(c: CartId)
      requires Valid()
      modifies this
      ensures Valid()
      ensures items == DropCart(old(items), c) && ItemsOf(items, c) == []
      ensures forall c', p :: c' != c ==> LineOf(items, c', p) == LineOf(old(items), c', p)
      ensures products == old(products) && carts == old(carts) && nextCartId == old(nextCartId) && nextItemId == old(nextItemId)
      ensures orders == old(orders) && orderItems == old(orderItems) && nextOrderId == old(nextOrderId)
    {
      LineOfDropCart(items, c);
      ItemsValidDropCart(items, carts, products, nextItemId, c);
      items := DropCart(items, c);
    }

    /** checkout_view (POST): resolves the caller's cart, records the order for all of its
        lines (RecordOrder) and then empties the cart (ClearCart). */
    method Checkout(who: Identity) returns (order: OrderId)
      requires Valid()
      modifies this
      ensures Valid()
      ensures var r := ResolveCart(old(carts), old(nextCartId), who);
        carts == r.carts && nextCartId == r.nextCartId && nextItemId == old(nextItemId)
      ensures order == old(nextOrderId) && nextOrderId == old(nextOrderId) + 1
      ensures var c := ResolveCart(old(carts), old(nextCartId), who).cart;
        orders == old(orders) + [Order(order, OrderUser(who), DefaultStatus, CartTotal(old(items), c))]
      ensures var c := ResolveCart(old(carts), old(nextCartId), who).cart;
        orderItems == old(orderItems) + OrderLines(order, old(products), ItemsOf(old(items), c)) &&
        OrderSum(OrderLines(order, old(products), ItemsOf(old(items), c))) == CartTotal(old(items), c)
      ensures var lines := ItemsOf(old(items), ResolveCart(old(carts), old(nextCartId), who).cart);
        products == ApplyOrder(old(products), lines) &&
        (forall k :: 0 <= k < |lines| ==>
          products[lines[k].product] == Decrement(old(products)[lines[k].product], lines[k].quantity)) &&
        (forall p :: p in old(products) && (forall k :: 0 <= k < |lines| ==> lines[k].product != p) ==>
          products[p] == old(products)[p])
      ensures var c := ResolveCart(old(carts), old(nextCartId), who).cart;
        items == DropCart(old(items), c) && ItemsOf(items, c) == [] &&
        forall c', p :: c' != c ==> LineOf(items, c', p) == LineOf(old(items), c', p)
    {
      var c := GetCart(who);
      order := RecordOrder(who, c);
      ClearCart(c);
    }

    /** buy_now (POST): for a product that exists and is not soft-deleted, records an order
        of max(1, quantity) units at the current price, with one order line, and lowers the
        stock when there is enough (Decrement). Carts are not involved. */
    method BuyNow(who: Identity, pid: ProductId, quantity: QuantityField) returns (order: Option<OrderId>)
      requires Valid()
      modifies this
      ensures Valid()
      ensures carts == old(carts) && items == old(items) && nextCartId == old(nextCartId) && nextItemId == old(nextItemId)
      ensures pid !in old(products) || old(products)[pid].isDeleted ==>
        order == None && products == old(products) &&
        orders == old(orders) && orderItems == old(orderItems) && nextOrderId == old(nextOrderId)
      ensures pid in old(products) && !old(products)[pid].isDeleted ==>
        var q := AddQuantity(quantity);
        var p0 := old(products)[pid];
        var line := OrderItem(old(nextOrderId), Some(pid), p0.name, p0.price, q);
        order == Some(old(nextOrderId)) && nextOrderId == old(nextOrderId) + 1 &&
        orders == old(orders) + [Order(old(nextOrderId), OrderUser(who), DefaultStatus, p0.price * q)] &&
        orderItems == old(orderItems) + [line] &&
        OrderSum([line]) == p0.price * q &&
        products == old(products)[pid := Decrement(p0, q)]
    {
      if pid !in products || products[pid].isDeleted {
        return None;
      }
      var product := products[pid];
      var q := AddQuantity(quantity);
      var id := nextOrderId;
      var line := OrderItem(id, Some(pid), product.name, product.price, q);
      AddOrderValid(orders, orderItems, nextOrderId, Order(id, OrderUser(who), DefaultStatus, product.price * q), [line]);
      orders := orders + [Order(id, OrderUser(who), DefaultStatus, product.price * q)];
      orderItems := orderItems + [line];
      nextOrderId := nextOrderId + 1;
      if product.stock >= q {
        var left := product.stock - q;
        product := product.(stock := left, isPublished := left != 0);
      }
      ItemsValidProducts(items, carts, products, products[pid := product], nextItemId);
      products := products[pid := product];
      order := Some(id);
    }
  }
}
