/** The cart and cart-item tables as the views read them: rows in primary-key order,
    the ORM filters the views use (`filter(...).first()`, `cart.items.all()`,
    `filter(product=...).exists()`) as functions, and what a single row write, insert
    or delete does to the lines of every cart (store/views.py). */
module CartRows {
  import opened Models

  /** Who is asking: an authenticated user, or a guest with a session key. */
  datatype Identity = Authenticated(user: UserId) | Anonymous(sessionKey: string)

  /** The user a new order is recorded for: `request.user if authenticated else None`. */
  function OrderUser(who: Identity): Option<UserId>
  {
    match who
    case Authenticated(u) => Some(u)
    case Anonymous(_) => None
  }

  /** The cart `get_or_create(user=...)` or `get_or_create(session_key=...)` matches. */
  predicate Owns(c: Cart, who: Identity)
  {
    match who
    case Authenticated(u) => c.user == Some(u)
    case Anonymous(k) => c.sessionKey == Some(k)
  }

  /** The row `get_or_create` creates for an identity that has no cart. */
  function NewCart(id: CartId, who: Identity): (c: Cart)
    ensures c.id == id && Owns(c, who)
    ensures c.user.Some? != c.sessionKey.Some?
  {
    match who
    case Authenticated(u) => Cart(id, Some(u), None)
    case Anonymous(k) => Cart(id, None, Some(k))
  }

  /** `filter(...).first()`: the first row (in primary-key order) that satisfies f. */
  function FirstIndex<T>(s: seq<T>, f: T -> bool): (r: Option<nat>)
    ensures r.Some? ==> r.value < |s| && f(s[r.value]) && forall j :: 0 <= j < r.value ==> !f(s[j])
    ensures r.None? ==> forall j :: 0 <= j < |s| ==> !f(s[j])
  {
    if s == [] then None
    else if f(s[0]) then Some(0)
    else match FirstIndex(s[1..], f)
      case None => None
      case Some(k) => Some(k + 1)
  }

  function RemoveAt<T>(s: seq<T>, k: nat): (r: seq<T>)
    requires k < |s|
    ensures |r| == |s| - 1
    ensures forall j :: 0 <= j < k ==> r[j] == s[j]
    ensures forall j :: k <= j < |r| ==> r[j] == s[j + 1]
  {
    s[..k] + s[k + 1..]
  }

  // ---------------------------------------------------------------- carts

  function FindCart(carts: seq<Cart>, who: Identity): Option<nat>
  {
    FirstIndex(carts, (c: Cart) => Owns(c, who))
  }

  predicate HasCart(carts: seq<Cart>, id: CartId)
  {
    exists j :: 0 <= j < |carts| && carts[j].id == id
  }

  /** Table invariant of carts: fresh ids below the id counter, in increasing order; every
      cart belongs to exactly one of a user or a session key; at most one cart per identity. */
  ghost predicate CartsValid(carts: seq<Cart>, next: nat)
  {
    (forall i :: 0 <= i < |carts| ==> carts[i].id < next && (carts[i].user.Some? != carts[i].sessionKey.Some?)) &&
    (forall i, j :: 0 <= i < j < |carts| ==> carts[i].id < carts[j].id) &&
    (forall i, j, who :: 0 <= i < |carts| && 0 <= j < |carts| && Owns(carts[i], who) && Owns(carts[j], who) ==> i == j)
  }

  datatype Resolution = Resolution(carts: seq<Cart>, nextCartId: nat, cart: CartId)

  /** _get_cart: the identity's cart if it has one, otherwise a new cart for it. */
  function ResolveCart(carts: seq<Cart>, next: nat, who: Identity): (r: Resolution)
    ensures FindCart(r.carts, who).Some? && r.carts[FindCart(r.carts, who).value].id == r.cart
    ensures FindCart(carts, who).Some? ==> r.carts == carts && r.nextCartId == next
    ensures FindCart(carts, who).None? ==> r.carts == carts + [NewCart(next, who)] && r.cart == next && r.nextCartId == next + 1
    ensures forall id :: HasCart(carts, id) ==> HasCart(r.carts, id)
  {
    match FindCart(carts, who)
    case Some(k) => Resolution(carts, next, carts[k].id)
    case None =>
      var c := NewCart(next, who);
      var r := Resolution(carts + [c], next + 1, next);
      assert FindCart(r.carts, who) == Some(|carts|) by {
        assert Owns(r.carts[|carts|], who);
      }
      assert forall id :: HasCart(carts, id) ==> HasCart(r.carts, id) by {
        forall id | HasCart(carts, id) ensures HasCart(r.carts, id) {
          var j :| 0 <= j < |carts| && carts[j].id == id;
          assert r.carts[j].id == id;
        }
      }
      r
  }

  /** Resolving a cart keeps the cart invariant; the cart's id is below the counter. */
  lemma ResolveCartValid(carts: seq<Cart>, next: nat, who: Identity)
    requires CartsValid(carts, next)
    ensures var r := ResolveCart(carts, next, who);
      CartsValid(r.carts, r.nextCartId) && r.cart < r.nextCartId
  {
    var r := ResolveCart(carts, next, who);
    if FindCart(carts, who).None? {
      var t := r.carts;
      var n := |carts|;
      assert t[n] == NewCart(next, who);
      forall i | 0 <= i < |t| ensures t[i].id < next + 1 && (t[i].user.Some? != t[i].sessionKey.Some?) {
        if i < n {
          assert t[i] == carts[i];
        }
      }
      forall i, j | 0 <= i < j < |t| ensures t[i].id < t[j].id {
        assert t[i] == carts[i];
        if j < n {
          assert t[j] == carts[j];
        }
      }
      forall i | 0 <= i < n ensures t[i] == carts[i] && !Owns(t[i], who) {
      }
      forall w | Owns(t[n], w) ensures w == who {
      }
      forall i, j, w | 0 <= i < |t| && 0 <= j < |t| && Owns(t[i], w) && Owns(t[j], w) ensures i == j {
      }
    }
  }

  /** Resolving a second time returns the same cart and creates nothing. */
  lemma ResolveCartIdempotent(carts: seq<Cart>, next: nat, who: Identity)
    ensures var r := ResolveCart(carts, next, who);
            ResolveCart(r.carts, r.nextCartId, who) == r
  {
  }

  /** The id of the cart an identity owns, once it has one. */
  lemma CartOwnerUnique(carts: seq<Cart>, next: nat, who: Identity, i: nat)
    requires CartsValid(carts, next)
    requires i < |carts| && Owns(carts[i], who)
    ensures FindCart(carts, who) == Some(i)
  {
  }

  lemma RemoveCartValid(carts: seq<Cart>, next: nat, k: nat)
    requires CartsValid(carts, next) && k < |carts|
    ensures CartsValid(RemoveAt(carts, k), next)
    ensures forall id :: HasCart(carts, id) && id != carts[k].id ==> HasCart(RemoveAt(carts, k), id)
    ensures !HasCart(RemoveAt(carts, k), carts[k].id)
  {
    var r := RemoveAt(carts, k);
    forall id | HasCart(carts, id) && id != carts[k].id ensures HasCart(r, id) {
      var j :| 0 <= j < |carts| && carts[j].id == id;
      if j < k { assert r[j].id == id; } else { assert j > k; assert r[j - 1].id == id; }
    }
    forall j | 0 <= j < |r| ensures r[j].id != carts[k].id {
      if j < k { assert carts[j].id < carts[k].id; } else { assert carts[k].id < carts[j + 1].id; }
    }
    forall i, j, who | 0 <= i < |r| && 0 <= j < |r| && Owns(r[i], who) && Owns(r[j], who) ensures i == j {
      var i' := if i < k then i else i + 1;
      var j' := if j < k then j else j + 1;
      assert Owns(carts[i'], who) && Owns(carts[j'], who);
    }
  }

  /** Deleting the one cart an identity owns leaves it with no cart. */
  lemma RemoveCartOwner(carts: seq<Cart>, next: nat, k: nat, who: Identity)
    requires CartsValid(carts, next) && k < |carts| && Owns(carts[k], who)
    ensures FindCart(RemoveAt(carts, k), who).None?
  {
    var r := RemoveAt(carts, k);
    forall j | 0 <= j < |r| ensures !Owns(r[j], who) {
      var i := if j < k then j else j + 1;
      assert r[j] == carts[i] && i != k;
    }
  }

  // ---------------------------------------------------------------- cart items

  /** The row is the line of product p in cart c. */
  predicate SameLine(it: CartItem, c: CartId, p: ProductId)
  {
    it.cart == c && it.product == p
  }

  /** At most one row per (cart, product). */
  ghost predicate UniqueLines(s: seq<CartItem>)
  {
    forall i, j :: 0 <= i < |s| && 0 <= j < |s| && s[i].cart == s[j].cart && s[i].product == s[j].product ==> i == j
  }

  /** Primary keys in increasing order. */
  ghost predicate IdsIncreasing(s: seq<CartItem>)
  {
    forall i, j :: 0 <= i < j < |s| ==> s[i].id < s[j].id
  }

  /** `CartItem.objects.filter(cart=c, product=p).first()` */
  function FindLine(s: seq<CartItem>, c: CartId, p: ProductId): Option<nat>
  {
    FirstIndex(s, (it: CartItem) => SameLine(it, c, p))
  }

  /** `CartItem.objects.filter(pk=id, cart=c).first()` */
  function FindOwned(s: seq<CartItem>, id: ItemId, c: CartId): Option<nat>
  {
    FirstIndex(s, (it: CartItem) => it.id == id && it.cart == c)
  }

  /** `CartItem.objects.filter(pk=id, cart=c, is_deleted_backup=True).first()` */
  function FindBackup(s: seq<CartItem>, id: ItemId, c: CartId): Option<nat>
  {
    FirstIndex(s, (it: CartItem) => it.id == id && it.cart == c && it.isDeletedBackup)
  }

  /** The row with primary key id, which `save()` overwrites. */
  function FindById(s: seq<CartItem>, id: ItemId): Option<nat>
  {
    FirstIndex(s, (it: CartItem) => it.id == id)
  }

  /** With distinct primary keys the row a value came from is found by its id. */
  lemma FindByIdOf(s: seq<CartItem>, x: CartItem)
    requires IdsIncreasing(s) && x in s
    ensures FindById(s, x.id).Some? && s[FindById(s, x.id).value] == x
  {
    var m :| 0 <= m < |s| && s[m] == x;
    assert forall j :: 0 <= j < |s| && j != m ==> s[j].id != s[m].id;
  }

  /** `CartItem.objects.filter(product=p).exists()`: some cart, any cart, holds p. */
  predicate Referenced(s: seq<CartItem>, p: ProductId)
  {
    exists k :: 0 <= k < |s| && s[k].product == p
  }

  /** The line of product p in cart c, if any: with UniqueLines the tables hold a partial
      map from (cart, product) to rows, and LineOf reads it. */
  function LineOf(s: seq<CartItem>, c: CartId, p: ProductId): (r: Option<CartItem>)
    ensures r.Some? ==> r.value in s && SameLine(r.value, c, p)
    ensures r.None? <==> forall k :: 0 <= k < |s| ==> !SameLine(s[k], c, p)
  {
    match FindLine(s, c, p)
    case Some(k) => Some(s[k])
    case None => None
  }

  lemma LineOfAt(s: seq<CartItem>, k: nat)
    requires UniqueLines(s) && k < |s|
    ensures LineOf(s, s[k].cart, s[k].product) == Some(s[k])
  {
  }

  /** The rows of one cart (`inCart`), or of all other carts (`!inCart`), in order. */
  function Select(s: seq<CartItem>, c: CartId, inCart: bool): (r: seq<CartItem>)
    ensures forall x :: x in r <==> x in s && (x.cart == c) == inCart
    ensures |r| <= |s|
  {
    if s == [] then []
    else if (s[0].cart == c) == inCart then [s[0]] + Select(s[1..], c, inCart)
    else Select(s[1..], c, inCart)
  }

  /** `cart.items.all()` */
  function ItemsOf(s: seq<CartItem>, c: CartId): seq<CartItem>
  {
    Select(s, c, true)
  }

  /** The table once every row of cart c is deleted. */
  function DropCart(s: seq<CartItem>, c: CartId): seq<CartItem>
  {
    Select(s, c, false)
  }

  /** Cart.total of cart c over the table s. */
  function CartTotal(s: seq<CartItem>, c: CartId): Cents
  {
    Total(ItemsOf(s, c))
  }

  lemma {:induction false} SelectPreserves(s: seq<CartItem>, c: CartId, inCart: bool)
    ensures UniqueLines(s) ==> UniqueLines(Select(s, c, inCart))
    ensures IdsIncreasing(s) ==> IdsIncreasing(Select(s, c, inCart))
  {
    if UniqueLines(s) { SelectUnique(s, c, inCart); }
    if IdsIncreasing(s) { SelectIds(s, c, inCart); }
  }

  lemma {:induction false} SelectUnique(s: seq<CartItem>, c: CartId, inCart: bool)
    requires UniqueLines(s)
    ensures UniqueLines(Select(s, c, inCart))
  {
    if s != [] {
      var t := Select(s[1..], c, inCart);
      assert UniqueLines(s[1..]) by {
        forall i, j | 0 <= i < |s[1..]| && 0 <= j < |s[1..]| && s[1..][i].cart == s[1..][j].cart && s[1..][i].product == s[1..][j].product
          ensures i == j
        {
          assert s[1..][i] == s[i + 1] && s[1..][j] == s[j + 1];
        }
      }
      SelectUnique(s[1..], c, inCart);
      if (s[0].cart == c) == inCart {
        var r := [s[0]] + t;
        forall j | 0 < j < |r| ensures !SameLine(r[j], s[0].cart, s[0].product) {
          assert r[j] == t[j - 1];
          assert t[j - 1] in s[1..];
          var m :| 0 <= m < |s[1..]| && s[1..][m] == r[j];
          assert s[m + 1] == r[j];
        }
        forall i, j | 0 <= i < |r| && 0 <= j < |r| && r[i].cart == r[j].cart && r[i].product == r[j].product
          ensures i == j
        {
          if i > 0 && j > 0 {
            assert t[i - 1] == r[i] && t[j - 1] == r[j];
          }
        }
      }
    }
  }

  lemma {:induction false} SelectIds(s: seq<CartItem>, c: CartId, inCart: bool)
    requires IdsIncreasing(s)
    ensures IdsIncreasing(Select(s, c, inCart))
  {
    if s != [] {
      var t := Select(s[1..], c, inCart);
      assert IdsIncreasing(s[1..]) by {
        forall i, j | 0 <= i < j < |s[1..]| ensures s[1..][i].id < s[1..][j].id {
          assert s[1..][i] == s[i + 1] && s[1..][j] == s[j + 1];
        }
      }
      SelectIds(s[1..], c, inCart);
      if (s[0].cart == c) == inCart {
        assert forall x :: x in t ==> s[0].id < x.id by {
          forall x | x in t ensures s[0].id < x.id {
            assert x in s[1..];
            var m :| 0 <= m < |s[1..]| && s[1..][m] == x;
            assert s[m + 1] == x;
          }
        }
        IdsCons(s[0], t);
      }
    }
  }

  lemma IdsCons(x: CartItem, t: seq<CartItem>)
    requires IdsIncreasing(t)
    requires forall y :: y in t ==> x.id < y.id
    ensures IdsIncreasing([x] + t)
  {
    var r := [x] + t;
    forall i, j | 0 <= i < j < |r| ensures r[i].id < r[j].id {
      assert r[j] == t[j - 1];
      if i > 0 {
        assert r[i] == t[i - 1];
      } else {
        assert t[j - 1] in t;
      }
    }
  }

  /** Selecting the rows of cart c from a table that holds none of them gives nothing. */
  lemma {:induction false} SelectNone(s: seq<CartItem>, c: CartId)
    requires forall j :: 0 <= j < |s| ==> s[j].cart != c
    ensures Select(s, c, true) == []
  {
    if s != [] {
      SelectNone(s[1..], c);
    }
  }

  /** Within one cart the lines are for pairwise different products. */
  lemma ItemsOfDistinctProducts(s: seq<CartItem>, c: CartId)
    requires UniqueLines(s)
    ensures forall i, j :: 0 <= i < j < |ItemsOf(s, c)| ==> ItemsOf(s, c)[i].product != ItemsOf(s, c)[j].product
  {
    SelectPreserves(s, c, true);
    var r := ItemsOf(s, c);
    forall i, j | 0 <= i < j < |r| ensures r[i].product != r[j].product {
      assert r[i] in r && r[j] in r;
    }
  }

  /** A row write that keeps the table free of duplicate lines: the written row becomes
      the line for its key, the key it replaces (if different) loses its line, and every
      other (cart, product) keeps its line. Covers both a quantity/price update in place
      and a re-parenting of a row to another cart. */
  lemma LineOfWrite(s: seq<CartItem>, k: nat, x: CartItem)
    requires UniqueLines(s) && k < |s|
    requires forall j :: 0 <= j < |s| && j != k ==> !SameLine(s[j], x.cart, x.product)
    ensures UniqueLines(s[k := x])
    ensures LineOf(s[k := x], x.cart, x.product) == Some(x)
    ensures !SameLine(x, s[k].cart, s[k].product) ==> LineOf(s[k := x], s[k].cart, s[k].product) == None
    ensures forall c, p :: !SameLine(x, c, p) && !SameLine(s[k], c, p) ==> LineOf(s[k := x], c, p) == LineOf(s, c, p)
  {
    var t := s[k := x];
    assert t[k] == x;
    LineOfAt(t, k);
    if !SameLine(x, s[k].cart, s[k].product) {
      forall j | 0 <= j < |t| ensures !SameLine(t[j], s[k].cart, s[k].product) {
        if j != k { assert t[j] == s[j]; }
      }
    }
    forall c, p | !SameLine(x, c, p) && !SameLine(s[k], c, p) ensures LineOf(t, c, p) == LineOf(s, c, p) {
      if LineOf(s, c, p).Some? {
        var j := FindLine(s, c, p).value;
        assert t[j] == s[j];
        LineOfAt(t, j);
      } else {
        forall j | 0 <= j < |t| ensures !SameLine(t[j], c, p) {
          if j != k { assert t[j] == s[j]; }
        }
      }
    }
  }

  /** Inserting a new row for a key that has no line yet. */
  lemma LineOfAppend(s: seq<CartItem>, x: CartItem)
    requires UniqueLines(s)
    requires LineOf(s, x.cart, x.product) == None
    ensures UniqueLines(s + [x])
    ensures LineOf(s + [x], x.cart, x.product) == Some(x)
    ensures forall c, p :: !SameLine(x, c, p) ==> LineOf(s + [x], c, p) == LineOf(s, c, p)
  {
    var t := s + [x];
    assert t[|s|] == x;
    LineOfAt(t, |s|);
    forall c, p | !SameLine(x, c, p) ensures LineOf(t, c, p) == LineOf(s, c, p) {
      if LineOf(s, c, p).Some? {
        var j := FindLine(s, c, p).value;
        assert t[j] == s[j];
        LineOfAt(t, j);
      } else {
        forall j | 0 <= j < |t| ensures !SameLine(t[j], c, p) {
          if j < |s| { assert t[j] == s[j]; }
        }
      }
    }
  }

  /** Deleting a row removes exactly its own line. */
  lemma LineOfRemove(s: seq<CartItem>, k: nat)
    requires UniqueLines(s) && k < |s|
    ensures UniqueLines(RemoveAt(s, k))
    ensures IdsIncreasing(s) ==> IdsIncreasing(RemoveAt(s, k))
    ensures LineOf(RemoveAt(s, k), s[k].cart, s[k].product) == None
    ensures forall c, p :: !SameLine(s[k], c, p) ==> LineOf(RemoveAt(s, k), c, p) == LineOf(s, c, p)
  {
    var t := RemoveAt(s, k);
    forall i, j | 0 <= i < |t| && 0 <= j < |t| && t[i].cart == t[j].cart && t[i].product == t[j].product
      ensures i == j
    {
      var i' := if i < k then i else i + 1;
      var j' := if j < k then j else j + 1;
      assert t[i] == s[i'] && t[j] == s[j'];
    }
    if IdsIncreasing(s) {
      forall i, j | 0 <= i < j < |t| ensures t[i].id < t[j].id {
        var i' := if i < k then i else i + 1;
        var j' := if j < k then j else j + 1;
        assert t[i] == s[i'] && t[j] == s[j'];
      }
    }
    forall j | 0 <= j < |t| ensures !SameLine(t[j], s[k].cart, s[k].product) {
      var j' := if j < k then j else j + 1;
      assert t[j] == s[j'];
    }
    forall c, p | !SameLine(s[k], c, p) ensures LineOf(t, c, p) == LineOf(s, c, p) {
      if LineOf(s, c, p).Some? {
        var j := FindLine(s, c, p).value;
        var j' := if j < k then j else j - 1;
        assert t[j'] == s[j];
        LineOfAt(t, j');
      } else {
        forall j | 0 <= j < |t| ensures !SameLine(t[j], c, p) {
          var j' := if j < k then j else j + 1;
          assert t[j] == s[j'];
        }
      }
    }
  }

  /** Deleting all rows of cart c0 empties that cart and keeps every other cart's lines. */
  lemma LineOfDropCart(s: seq<CartItem>, c0: CartId)
    requires UniqueLines(s)
    ensures UniqueLines(DropCart(s, c0))
    ensures IdsIncreasing(s) ==> IdsIncreasing(DropCart(s, c0))
    ensures ItemsOf(DropCart(s, c0), c0) == []
    ensures forall c, p :: c != c0 ==> LineOf(DropCart(s, c0), c, p) == LineOf(s, c, p)
  {
    var t := DropCart(s, c0);
    SelectPreserves(s, c0, false);
    forall j | 0 <= j < |t| ensures t[j].cart != c0 {
      assert t[j] in t;
    }
    SelectNone(t, c0);
    forall c, p | c != c0 ensures LineOf(t, c, p) == LineOf(s, c, p) {
      if LineOf(s, c, p).Some? {
        var x := LineOf(s, c, p).value;
        assert x in t;
        var j :| 0 <= j < |t| && t[j] == x;
        LineOfAt(t, j);
      } else {
        forall j | 0 <= j < |t| ensures !SameLine(t[j], c, p) {
          assert t[j] in t;
        }
      }
    }
  }
}
