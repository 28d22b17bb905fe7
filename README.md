# StoreHub cart, stock and visibility engine in Dafny

This project models the state logic of the StoreHub marketplace (a Django shop). Buyers
put products in carts and check out into orders. `cart_add` hides the product from the
catalogue; `buy_now` and checkout, for a line the stock covers, lower the stock and
publish the product iff some is left, even while another cart still holds it; a line the
stock does not cover leaves the product as it was. Removing a cart line, or setting its
quantity below 1, publishes the product again when no cart refers to it any more;
restoring a backup line, the merge's cascade delete and checkout's clearing of the cart do
not republish it (after checkout a covered line leaves the product published iff stock
remains; an uncovered line leaves it as it was, hidden if `cart_add` hid it). Any caller,
a guest included, can soft-delete a product, which puts a backup line in that caller's
cart, and can restore it from there. A guest cart is meant to be folded into the user's
cart at login (see the session-key line under "Left out"). Checkout and "buy now" lower
stock only when there is enough of it.

Modules, one per concern:

- `Models` (`models.dfy`): records and money helpers from `store/models.py`. Prices are
  integer cents, because the decimal fields have two decimal places. The file also holds
  `Cart.total`/`CartItem.subtotal` as `Total`/`Subtotal`, and the order status choices.
- `Slugs` (`slugs.dfy`): `_unique_slug_for_model`. This is the `while` loop that appends
  `-1`, `-2`, ... until the slug is free.
- `CartRows` (`cart_rows.dfy`): the cart and cart-item tables as the views read them. The
  model fixes the rows in primary-key order. Django's `.first()` uses that order on an
  unordered model; `.all()` has no guaranteed order because no model declares
  `Meta.ordering`. `TotalPermutation` shows that the cart total does not depend on the
  order; only the order of the written order lines does. The module holds the ORM filters
  as functions, and `LineOf(items, cart, product)`, which reads the tables as a partial
  map from (cart, product) to row. It also holds lemmas on what one row write, insert or
  delete does to every line.
- `Inventory` (`inventory.dfy`): the stock rule (`Decrement`), the stock rule applied to a
  cart's lines in order (`ApplyOrder`), and the order lines written for a cart.
- `Views` (`views.dfy`): the class `Store`, whose fields are the tables plus the
  auto-increment counters. Each view is a method that updates the tables in place.
  `Store.Valid()` is the invariant every view keeps. It says:
  - at most one cart per user or session key, and each cart has exactly one of the two;
  - at most one cart item per (cart, product);
  - cart-item quantities are at least 1, and foreign keys point at existing rows;
  - ids are increasing and below their counters.

  The database does not enforce the one-item-per-(cart, product) rule (`CartItem` has no
  unique constraint). It holds only because every view that creates a row checks for one
  first (the admin site, which also registers `CartItem`, is not modelled).
- `FillTranslations` (`fill_translations.dfy`): the `fill_translations` management
  command, as a loop over an array of products.

Some of what the code does is easy to get wrong; the model follows the code:

- Checkout includes backup lines, does not abort on short stock, and empties the whole cart.
- Soft delete only touches the acting identity's cart and leaves `is_published` as it was.
- Removing a cart line republishes its product even when the product is soft-deleted.
  It is still not listed, because listing also requires `!isDeleted`.
- A quantity below 1 is clamped to 1 (add, buy now) or deletes the line (quantity
  update). It is not rejected as an error.

## Model

| member | source | states |
|---|---|---|
| Models.NewProduct | store/models.py:10-29 | a new product has stock 0, is unpublished and not deleted (so not listed), and has no translations |
| Models.Subtotal | store/models.py:65-66 | a line's subtotal is 0 with no units, never negative for a non-negative price, and at least the price for one or more units |
| Models.Total | store/models.py:48-50 | an empty cart totals 0 (the other properties of `Cart.total` are the lemmas below); `Cart.total()` of one cart is `CartRows.CartTotal(items, c)`, which is `Total(ItemsOf(items, c))` |
| Models.TotalAppend | store/models.py:48-50 | the total of two sequences of lines is the sum of their totals |
| Models.TotalRemove | store/models.py:48-50 | removing one line lowers the cart total by exactly that line's quantity * price |
| Models.TotalPermutation | store/models.py:48-50 | the cart total does not depend on the order in which the items are read |
| Models.TotalNonNegative | store/models.py:48-50 | with non-negative prices a cart total is never negative |
| Models.OrderItemSubtotal | store/models.py:135-136 | an order line's subtotal is 0 with no units, never negative for a non-negative price, and at least the price for one or more units |
| Models.ParseStatus | store/models.py:108-120 | a status code parses only to the status whose code it is |
| Models.StatusRoundTrip | store/models.py:108-120 | every status's code parses back to that status |
| Models.StatusCodeInjective | store/models.py:108-114 | distinct statuses have distinct codes |
| Slugs.CandidateInjective | store/views.py:18 | `base-j` and `base-k` are the same string only when j == k |
| Slugs.TriedCard | store/views.py:15-19 | after the counter reaches n, n distinct slugs have been tried, so the loop ends |
| Slugs.UniqueSlug | store/views.py:13-20 | the result is not taken; it is `base` when that is free; otherwise it is `base-k` for the smallest k >= 1 whose candidate is free |
| CartRows.NewCart | store/views.py:302-309 | a created cart belongs to the identity, by user or by session key, and to exactly one of the two |
| CartRows.ResolveCart | store/views.py:302-309 | the identity's existing cart is returned with nothing created; otherwise one cart is appended with the next id; afterwards the identity has a cart with that id |
| CartRows.ResolveCartValid | store/views.py:302-309 | resolving keeps the cart invariant (increasing ids below the counter, at most one cart per identity) and the returned id is below the new counter |
| CartRows.ResolveCartIdempotent | store/views.py:302-309 | resolving again returns the same cart and creates nothing |
| CartRows.CartOwnerUnique | store/views.py:302-309 | in a valid table the cart an identity owns is the one that get_or_create finds |
| CartRows.RemoveCartValid | store/views.py:399-403 | deleting a cart keeps the cart invariant and every other cart |
| CartRows.RemoveCartOwner | store/views.py:399-403 | after its cart is deleted the session key has no cart |
| CartRows.FindByIdOf | store/views.py:396-398 | `item.save()` overwrites exactly the row the item was read from |
| CartRows.LineOf | store/views.py:334-336 | the found row is in the table and is the (cart, product) line; None exactly when no row matches |
| CartRows.ItemsOfDistinctProducts | store/views.py:391 | one cart's items name distinct products |
| CartRows.LineOfWrite | store/views.py:336-338 | updating one row keeps at most one row per (cart, product), makes it the line of its key, and changes no other line |
| CartRows.LineOfAppend | store/views.py:340 | creating a row for a key with no line makes it the line and changes no other line |
| CartRows.LineOfRemove | store/views.py:355-356 | deleting a row removes exactly its line and keeps keys unique and ids increasing |
| CartRows.LineOfDropCart | store/views.py:473 | deleting a cart's items leaves it no line and changes no other cart's lines |
| Inventory.Decrement | store/views.py:464-469 | stock falls by qty only when stock >= qty, and then published iff stock remains; with too little stock nothing changes; nothing besides stock and is_published changes |
| Inventory.ApplyOrder | store/views.py:455-471 | applying the lines keeps the products, never raises stock and changes only stock and is_published |
| Inventory.ApplyOrderEffect | store/views.py:455-471 | with one line per product, each line's product ends as Decrement of its old state and every other product is unchanged |
| Inventory.ApplyOrderLine | store/views.py:464-469 | the line of a product alone decides its new state |
| Inventory.ApplyOrderUntouched | store/views.py:455-471 | a product no line names keeps its stock and visibility |
| Inventory.OrderLines | store/views.py:455-462 | one order line per cart line, in order, with the order id, the product, and the line's price and quantity |
| Inventory.OrderLinesSum | store/views.py:447-461 | the order lines add up (price * quantity) to the cart total stored as total_amount |
| Views.AddQuantity | store/views.py:326-332 | the quantity is at least 1: the number when it is >= 1, otherwise (below 1, missing or unparseable) 1 |
| Views.AtLeastOne | store/views.py:496 | `max(1, n)`: either 1 or n, at least 1 and at least n, so n itself when n >= 1 and 1 when n < 1 |
| Views.AfterRemoval | store/views.py:358-361 | the product is published afterwards iff it was already published or no cart item anywhere references it; nothing else changes |
| Views.MergedQuantity | store/views.py:392-398 | the merged line's quantity is the user line's quantity plus the session line's (0 for a missing line) |
| Views.Merged | store/views.py:392-398 | a merged line exists iff the user or the session cart had one; it stays in the user cart |
| Views.PlaceLines | store/views.py:455-471 | the loop writes exactly OrderLines and leaves the products as ApplyOrder |
| Views.FoldOne | store/views.py:392-398 | one merge step keeps the table valid; the user line of the product becomes Merged(user line, session row); no other product's line changes |
| Views.FoldSessionLines | store/views.py:391-398 | after the loop every product's user line is Merged(old user line, old session line); carts other than the two are untouched |
| Views.FoldInvStep | store/views.py:391-398 | each step of the merge loop keeps the loop invariant |
| Views.Store.GetCart | store/views.py:302-309 | the store's carts and counter become ResolveCart of the old ones; nothing else changes |
| Views.Store.AddToCart | store/views.py:334-344 | an existing line gains q with its price kept; otherwise a line with the product's current price and the next id is created; no other line and no product changes |
| Views.Store.SetPublished | store/views.py:342-344 | only the product's is_published flag is set to the given value; every other table is unchanged |
| Views.Store.CartAdd | store/views.py:321-348 | a missing or soft-deleted product changes nothing and creates no cart; otherwise the caller's cart is resolved, AddToCart runs with AddQuantity and the product is hidden from the catalogue (is_published false) |
| Views.Store.RemoveLine | store/views.py:157-166 | the row is deleted and the products become AfterRemoval |
| Views.Store.CartRemove | store/views.py:351-365 | only an item of the caller's cart is deleted; its product is republished iff no cart item references it; any other id changes no item |
| Views.Store.CartUpdateQuantity | store/views.py:150-172 | unparseable input changes nothing; quantity < 1 deletes the line as cart_remove does; otherwise the exact quantity is set in place; only the caller's items are touched |
| Views.Store.MarkBackup | store/views.py:183-193 | the cart ends with exactly one backup line for the product: quantity max(1, old) or 1 if new, price the current price; no other line changes |
| Views.Store.ProductDelete | store/views.py:175-195 | a missing product changes nothing; otherwise is_deleted becomes true, is_published is unchanged, and only the actor's cart gets the backup line |
| Views.Store.CartRestore | store/views.py:368-379 | only a backup line of the caller's cart is accepted; its product is un-deleted, visibility unchanged, and the line removed; any other id is a no-op |
| Views.Store.RemoveCart | store/views.py:399-403 | a cart nobody refers to is deleted and its owner has no cart left |
| Views.Store.MergeSessionCart | store/views.py:382-403 | no session key (None or empty) or no session cart: no change; otherwise for each product the user line is Merged(user line, session line), so the quantities add up; the session cart and its rows are gone (a second merge is a no-op); other carts are untouched |
| Views.Store.RecordOrder | store/views.py:449-471 | the order has the cart total and status new, one OrderItem per line including backups, and products become ApplyOrder |
| Views.Store.ClearCart | store/views.py:473 | all of the cart's items are deleted and no other line changes |
| Views.Store.Checkout | store/views.py:444-476 | the caller's cart is resolved; an order with total_amount = cart total and status new is recorded; the order's lines sum to that total; each line's product is Decremented and other products unchanged; the cart is emptied |
| Views.Store.BuyNow | store/views.py:486-511 | a missing or soft-deleted product gives no order; otherwise one order of max(1, qty) units at price * qty with one line, and the product is Decremented |
| FillTranslations.FillField | store/management/commands/fill_translations.py:12-29 | an empty (null or "") field takes the source text, a non-empty one is kept |
| FillTranslations.CountNeedingFill | store/management/commands/fill_translations.py:9-32 | the count of saved products is at most the number of products |
| FillTranslations.FillAll | store/management/commands/fill_translations.py:7-33 | every row becomes its filled form and `updated` counts exactly the rows with at least one empty field |
| FillTranslations.FilledFields | store/management/commands/fill_translations.py:12-29 | each of the six fields is filled from name or description iff it was empty; no other field changes |
| FillTranslations.FilledUnchangedUnlessNeeded | store/management/commands/fill_translations.py:11-31 | a product with no empty field is left unchanged |
| FillTranslations.FilledIdempotent | store/management/commands/fill_translations.py:12-29 | filling twice gives the same fields as filling once |
| FillTranslations.NeedsFillAfterFill | store/management/commands/fill_translations.py:11-32 | a second pass still counts a product iff an empty name or description was copied into an empty translation |
| FillTranslations.FillTwiceSameRows | store/management/commands/fill_translations.py:10-31 | running the pass twice over a table gives the rows of one run |

## Left out

- Rendering, redirects, flash messages and HTTP status pages are presentation. So are the
  GET branches of `product_delete`, `checkout_view` and `buy_now`. The GET branch of
  `checkout_view` can still create a cart through `_get_cart`; the model does not
  capture this.
- Authentication, sessions and `_ensure_session` are framework code. The caller's
  identity, including the guest's session key, is a parameter (`Identity`).
  `MergeSessionCart` takes the session key as an optional parameter: the key as read at
  call time. Both callers run Django's `login()` first (store/views.py:416-417, 431-432),
  which rotates the session key; the key the merge reads is then the rotated one, so the
  guest cart need not be found and the merge need not happen at every login.
- `slugify` is not modelled. `UniqueSlug` takes the base slug and the set of slugs in use
  as parameters instead of querying the table.
- Payments, Celery tasks, the translation service, the AI service, admin screens,
  serializers, favourites, reviews, reservations and the one-off scripts are not part of
  this model.
- Concurrency: each view is one atomic step. The source uses no transactions, and races
  between requests are not modelled.
- The `except Exception: pass` paths around saves are storage faults. They are taken as
  unreachable. The unparseable-quantity paths are modelled (`QuantityField`).
- The widths of the columns are not modelled. Prices and totals (`max_digits` decimals)
  are unbounded integers of cents, and `Product.stock`, `CartItem.quantity` and
  `OrderItem.quantity` (`PositiveIntegerField`, store/models.py:22, 56, 133) are unbounded
  `nat`, so `item.quantity += qty` and the merge's sum of quantities cannot overflow here.
  The image, category, created_at and the order's contact fields are not touched by this
  core and are not in the records.
- Order counters start at 0 and `Order.total_amount`'s default of 0 is never used by this
  core, which always passes a total.
- Views.Store.CartAdd, Views.Store.ProductDelete, Views.Store.MergeSessionCart,
  Views.Store.Checkout: "other carts are untouched" is stated per (cart, product) line
  through `LineOf`, together with the exact row sequence where the source creates or
  updates a row. The merge states the user cart's final lines per product but not its
  row order.
- FillTranslations.FillAll: `getattr(p, 'name_en', None)` on a model that always has the
  field is read as the field itself.
