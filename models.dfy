/** Record shapes of the marketplace tables and the money helpers defined on them
    (store/models.py). Decimal fields with two decimal places are integer cents. */
module Models {

  datatype Option<T> = None | Some(value: T)

  type UserId = nat
  type ProductId = nat
  type CartId = nat
  type ItemId = nat
  type OrderId = nat

  /** An amount of money in cents (DecimalField with decimal_places=2). */
  type Cents = int

  /** A sellable listing. Translation fields may be null; `stock` is a PositiveIntegerField. */
  datatype Product = Product(
    name: string,
    nameRu: Option<string>,
    nameKg: Option<string>,
    nameEn: Option<string>,
    slug: string,
    description: string,
    descriptionRu: Option<string>,
    descriptionKg: Option<string>,
    descriptionEn: Option<string>,
    price: Cents,
    stock: nat,
    owner: Option<UserId>,
    isPublished: bool,
    isDeleted: bool)

  /** Shown in the public catalogue: the catalogue pages filter on is_deleted=False, is_published=True. */
  predicate Listed(p: Product)
  {
    p.isPublished && !p.isDeleted
  }

  /** A product as a fresh row gets it from the field defaults. */
  function NewProduct(name: string, slug: string, description: string, price: Cents, owner: Option<UserId>): (p: Product)
    ensures p.stock == 0 && !p.isPublished && !p.isDeleted
    ensures !Listed(p)
    ensures p.nameRu == p.nameKg == p.nameEn == None
    ensures p.descriptionRu == p.descriptionKg == p.descriptionEn == None
  {
    Product(name, None, None, None, slug, description, None, None, None, price, 0, owner, false, false)
  }

  /** A cart belongs to a user or to an anonymous session key. */
  datatype Cart = Cart(id: CartId, user: Option<UserId>, sessionKey: Option<string>)

  /** One line of a cart: `price` is the snapshot taken when the line was created. */
  datatype CartItem = CartItem(
    id: ItemId,
    cart: CartId,
    product: ProductId,
    quantity: nat,
    price: Cents,
    isDeletedBackup: bool)

  /** CartItem.subtotal: the line's quantity times its price. */
  function Subtotal(it: CartItem): (r: Cents)
    ensures it.quantity == 0 ==> r == 0
    ensures it.price >= 0 ==> r >= 0
    ensures it.price >= 0 && it.quantity >= 1 ==> r >= it.price
  {
    it.quantity * it.price
  }

  /** Cart.total: the sum of quantity * price over the given lines, backup lines included. */
  function Total(items: seq<CartItem>): (r: Cents)
    ensures items == [] ==> r == 0
  {
    if items == [] then 0 else Subtotal(items[0]) + Total(items[1..])
  }

  lemma {:induction false} TotalAppend(a: seq<CartItem>, b: seq<CartItem>)
    ensures Total(a + b) == Total(a) + Total(b)
  {
    if a == [] {
      assert a + b == b;
    } else {
      assert (a + b)[1..] == a[1..] + b;
      TotalAppend(a[1..], b);
    }
  }

  /** Removing one line lowers the total by exactly that line's subtotal. */
  lemma {:induction false} TotalRemove(s: seq<CartItem>, i: nat)
    requires i < |s|
    ensures Total(s) == Subtotal(s[i]) + Total(s[..i] + s[i + 1..])
  {
    if i == 0 {
      assert s[..0] + s[1..] == s[1..];
    } else {
      TotalRemove(s[1..], i - 1);
      assert s[1..][..i - 1] + s[1..][i..] == (s[..i] + s[i + 1..])[1..];
      assert (s[..i] + s[i + 1..])[0] == s[0];
    }
  }

  /** The total does not depend on the order in which the cart's rows are read. */
  lemma {:induction false} TotalPermutation(a: seq<CartItem>, b: seq<CartItem>)
    requires multiset(a) == multiset(b)
    ensures Total(a) == Total(b)
    decreases |a|
  {
    if a != [] {
      assert a[0] in multiset(b);
      var i :| 0 <= i < |b| && b[i] == a[0];
      TotalRemove(b, i);
      assert b == b[..i] + [b[i]] + b[i + 1..];
      assert a == [a[0]] + a[1..];
      assert multiset(a) == multiset{a[0]} + multiset(a[1..]);
      assert multiset(b) == multiset(b[..i]) + multiset{b[i]} + multiset(b[i + 1..]);
      assert multiset(b[..i] + b[i + 1..]) == multiset(b[..i]) + multiset(b[i + 1..]);
      assert multiset(a[1..]) == multiset(a) - multiset{a[0]};
      assert multiset(b[..i] + b[i + 1..]) == multiset(b) - multiset{b[i]};
      TotalPermutation(a[1..], b[..i] + b[i + 1..]);
    } else {
      assert |b| == |multiset(b)| == 0;
    }
  }

  /** With non-negative prices a total is never negative. */
  lemma {:induction false} TotalNonNegative(s: seq<CartItem>)
    requires forall i :: 0 <= i < |s| ==> s[i].price >= 0
    ensures Total(s) >= 0
  {
    if s != [] {
      assert s[0].price >= 0;
      assert Subtotal(s[0]) >= 0;
      TotalNonNegative(s[1..]);
    }
  }

  /** Order.STATUS_CHOICES */
  datatype OrderStatus = New | Processing | Paid | Shipped | Cancelled

  const DefaultStatus: OrderStatus := New

  /** The value stored in the status column. */
  function StatusCode(s: OrderStatus): string
  {
    match s
    case New => "new"
    case Processing => "processing"
    case Paid => "paid"
    case Shipped => "shipped"
    case Cancelled => "cancelled"
  }

  /** Reads a status column value; anything outside the choices is rejected. */
  function ParseStatus(code: string): (r: Option<OrderStatus>)
    ensures r.Some? ==> StatusCode(r.value) == code
  {
    if code == "new" then Some(New)
    else if code == "processing" then Some(Processing)
    else if code == "paid" then Some(Paid)
    else if code == "shipped" then Some(Shipped)
    else if code == "cancelled" then Some(Cancelled)
    else None
  }

  lemma StatusRoundTrip(s: OrderStatus)
    ensures ParseStatus(StatusCode(s)) == Some(s)
  {
  }

  lemma StatusCodeInjective(s: OrderStatus, t: OrderStatus)
    ensures StatusCode(s) == StatusCode(t) ==> s == t
  {
    StatusRoundTrip(s);
    StatusRoundTrip(t);
  }

  datatype Order = Order(id: OrderId, user: Option<UserId>, status: OrderStatus, totalAmount: Cents)

  /** An order line: `product` is nullable (SET_NULL), name, price and quantity are copies. */
  datatype OrderItem = OrderItem(order: OrderId, product: Option<ProductId>, name: string, price: Cents, quantity: nat)

  /** OrderItem.subtotal: the copied price times the quantity. */
  function OrderItemSubtotal(oi: OrderItem): (r: Cents)
    ensures oi.quantity == 0 ==> r == 0
    ensures oi.price >= 0 ==> r >= 0
    ensures oi.price >= 0 && oi.quantity >= 1 ==> r >= oi.price
  {
    oi.price * oi.quantity
  }

  /** The sum of the subtotals of some order lines. */
  function OrderSum(ois: seq<OrderItem>): Cents
  {
    if ois == [] then 0 else OrderItemSubtotal(ois[0]) + OrderSum(ois[1..])
  }
}
