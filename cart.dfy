/** The shopping cart (src/cart/cart.service.ts).

    Every user has at most one cart (`carts` maps a user id to that user's cart id), and a
    cart holds lines keyed by (cart, product, variant), each with a quantity. Adding to the
    cart is bounded by the variant's stock; setting a quantity of 0 or less removes the line. */
module Cart {
  import opened Common
  import opened Schema
  import opened Pricing

  /** The triple that the cart-line table keeps unique. */
  predicate SameSlot(a: CartItem, b: CartItem) {
    a.cartId == b.cartId && a.productId == b.productId && a.productVariantId == b.productVariantId
  }

  predicate UniqueLines(items: map<string, CartItem>) {
    forall i, j :: i in items && j in items && i != j ==> !SameSlot(items[i], items[j])
  }

  predicate PositiveLines(items: map<string, CartItem>) {
    forall i :: i in items ==> items[i].quantity >= 1
  }

  /** The consistency the cart tables keep: one cart per user and distinct cart ids, every line
      in an existing cart, one line per (cart, product, variant), and positive quantities. */
  predicate TablesValid(carts: map<string, string>, items: map<string, CartItem>) {
    && (forall u, v :: u in carts && v in carts && u != v ==> carts[u] != carts[v])
    && (forall i :: i in items ==> items[i].cartId in carts.Values)
    && UniqueLines(items)
    && PositiveLines(items)
  }

  predicate CartsValid(db: Db)
    reads db
  {
    TablesValid(db.carts, db.cartItems)
  }

  /** The lines of one cart. */
  function ItemsOf(items: map<string, CartItem>, cartId: string): (r: map<string, CartItem>)
    ensures forall i :: i in r <==> i in items && items[i].cartId == cartId
    ensures forall i :: i in r ==> r[i] == items[i]
  {
    map i | i in items && items[i].cartId == cartId :: items[i]
  }

  /** The cart id `cart.upsert({ where: { userId }, create: { userId } })` yields. */
  function CartIdFor(carts: map<string, string>, userId: string, newCartId: string): string {
    if userId in carts then carts[userId] else newCartId
  }

  function CartsAfterUpsert(carts: map<string, string>, userId: string, newCartId: string): (r: map<string, string>)
    ensures userId in r && r[userId] == CartIdFor(carts, userId, newCartId)
    ensures userId in carts ==> r == carts
    ensures forall u :: u in carts ==> u in r && r[u] == carts[u]
    ensures carts.Values <= r.Values
  {
    if userId in carts then carts
    else
      var r := carts[userId := newCartId];
      assert forall v :: v in carts.Values ==> v in r.Values by {
        forall v | v in carts.Values
          ensures v in r.Values
        {
          var u :| u in carts && carts[u] == v;
          assert r[u] == v;
        }
      }
      r
  }

  datatype CartView = CartView(id: string, userId: string, items: map<string, CartItem>)

  /** The user's cart as `getCart` returns it. */
  function ViewOf(carts: map<string, string>, items: map<string, CartItem>, userId: string): CartView
    requires userId in carts
  {
    CartView(carts[userId], userId, ItemsOf(items, carts[userId]))
  }

  /** A variant the add-to-cart lookup finds: the variant and its product exist and neither is
      soft-deleted. */
  predicate Available(variants: map<string, Variant>, products: map<string, Product>, variantId: string) {
    && variantId in variants
    && variants[variantId].deletedAt.None?
    && variants[variantId].productId in products
    && products[variants[variantId].productId].deletedAt.None?
  }

  /** Some line of the cart holds the variant, under whatever product id. */
  predicate HoldsVariant(items: map<string, CartItem>, cartId: string, variantId: string) {
    exists i :: i in items && items[i].cartId == cartId && items[i].productVariantId == variantId
  }

  /** `seen` is a quantity the `findFirst` on (cart, variant) may return: that of some line
      holding the variant, or 0 when none does. */
  ghost predicate Seen(items: map<string, CartItem>, cartId: string, variantId: string, seen: int) {
    || (!HoldsVariant(items, cartId, variantId) && seen == 0)
    || exists i :: i in items && items[i].cartId == cartId && items[i].productVariantId == variantId && items[i].quantity == seen
  }

  /** At most one line of each cart holds any given variant, which is the case while clients
      send each variant with its own product id. */
  predicate OneLinePerVariant(items: map<string, CartItem>) {
    forall i, j :: i in items && j in items && i != j && items[i].cartId == items[j].cartId ==>
      items[i].productVariantId != items[j].productVariantId
  }

  function SlotOf(items: map<string, CartItem>, cartId: string, productId: string, variantId: string): (r: Option<string>)
    requires UniqueLines(items)
    ensures r.Some? ==> r.value in items && SameSlot(items[r.value], CartItem(cartId, productId, variantId, 0))
    ensures r.None? ==> forall i :: i in items ==> !SameSlot(items[i], CartItem(cartId, productId, variantId, 0))
  {
    var slot := CartItem(cartId, productId, variantId, 0);
    if exists i :: i in items && SameSlot(items[i], slot) then
      var i :| i in items && SameSlot(items[i], slot);
      assert forall j :: j in items && SameSlot(items[j], slot) ==> j == i;
      Some(i)
    else None
  }

  /** The cart-line upsert: an existing (cart, product, variant) line grows by `quantity`,
      otherwise a new line holds exactly `quantity`. */
  function AddLine(items: map<string, CartItem>, cartId: string, productId: string, variantId: string,
                   quantity: int, newItemId: string): (r: map<string, CartItem>)
    requires UniqueLines(items) && newItemId !in items
    ensures var slot := SlotOf(items, cartId, productId, variantId);
      && (slot.Some? ==> r == items[slot.value := items[slot.value].(quantity := items[slot.value].quantity + quantity)])
      && (slot.None? ==> r == items[newItemId := CartItem(cartId, productId, variantId, quantity)])
  {
    match SlotOf(items, cartId, productId, variantId)
    case Some(i) => items[i := items[i].(quantity := items[i].quantity + quantity)]
    case None => items[newItemId := CartItem(cartId, productId, variantId, quantity)]
  }

  /** The upsert keeps one line per slot and, for a positive quantity, positive quantities;
      afterwards exactly one line occupies the slot, and no other line changed. */
  lemma AddLineKeepsLinesValid(items: map<string, CartItem>, cartId: string, productId: string, variantId: string,
                               quantity: int, newItemId: string)
    requires UniqueLines(items) && PositiveLines(items) && newItemId !in items && quantity >= 1
    ensures var r := AddLine(items, cartId, productId, variantId, quantity, newItemId);
      && UniqueLines(r) && PositiveLines(r)
      && (exists i :: i in r && SameSlot(r[i], CartItem(cartId, productId, variantId, 0)))
      && (forall i :: i in items && !SameSlot(items[i], CartItem(cartId, productId, variantId, 0)) ==> i in r && r[i] == items[i])
  {
    var r := AddLine(items, cartId, productId, variantId, quantity, newItemId);
    match SlotOf(items, cartId, productId, variantId)
    case Some(i) =>
      assert SameSlot(r[i], CartItem(cartId, productId, variantId, 0));
    case None =>
      assert SameSlot(r[newItemId], CartItem(cartId, productId, variantId, 0));
  }

  /** Adding a line (creating the cart first if need be) keeps the cart tables consistent. */
  lemma AddKeepsTablesValid(carts: map<string, string>, items: map<string, CartItem>, userId: string, productId: string,
                            variantId: string, quantity: int, newCartId: string, newItemId: string)
    requires TablesValid(carts, items) && quantity >= 1 && newCartId !in carts.Values && newItemId !in items
    ensures TablesValid(CartsAfterUpsert(carts, userId, newCartId),
                        AddLine(items, CartIdFor(carts, userId, newCartId), productId, variantId, quantity, newItemId))
  {
    var cartId := CartIdFor(carts, userId, newCartId);
    var carts' := CartsAfterUpsert(carts, userId, newCartId);
    AddLineKeepsLinesValid(items, cartId, productId, variantId, quantity, newItemId);
    assert cartId in carts'.Values;
  }

  /** `getCart`: the user's cart, created empty if the user has none. */
  method GetCart(db: Db, userId: string, newCartId: string) returns (cart: CartView)
    requires CartsValid(db) && newCartId !in db.carts.Values
    modifies db`carts
    ensures CartsValid(db)
    ensures db.carts == CartsAfterUpsert(old(db.carts), userId, newCartId)
    ensures cart == ViewOf(db.carts, db.cartItems, userId)
    ensures userId !in old(db.carts) ==> cart.items == map[]
  {
    if userId !in db.carts {
      assert ItemsOf(db.cartItems, newCartId) == map[];
    }
    db.carts := CartsAfterUpsert(db.carts, userId, newCartId);
    cart := CartView(db.carts[userId], userId, ItemsOf(db.cartItems, db.carts[userId]));
  }

  /** `addItemToCart`: in one transaction, ensures the user has a cart, checks the variant and
      the stock, and upserts the line. `newCartId` and `newItemId` are the ids the store would
      generate for a new cart and a new line. */
  method AddItemToCart(db: Db, userId: string, productId: string, variantId: string, quantity: int,
                       newCartId: string, newItemId: string) returns (r: Result<CartView>)
    requires CartsValid(db) && quantity >= 1
    requires newCartId !in db.carts.Values && newItemId !in db.cartItems
    modifies db`carts, db`cartItems
    ensures CartsValid(db)
    ensures !Available(db.variants, db.products, variantId) ==> r == Err(NotFound("Product variant not found"))
    ensures r.Err? ==> db.carts == old(db.carts) && db.cartItems == old(db.cartItems)
    ensures var cartId := CartIdFor(old(db.carts), userId, newCartId);
      && (Available(db.variants, db.products, variantId) && !HoldsVariant(old(db.cartItems), cartId, variantId) ==>
            (r.Ok? <==> quantity <= StockOf(db.variants[variantId])))
      && (r.Ok? ==> && Available(db.variants, db.products, variantId)
                    && (exists seen :: Seen(old(db.cartItems), cartId, variantId, seen) && quantity + seen <= StockOf(db.variants[variantId]))
                    && db.carts == CartsAfterUpsert(old(db.carts), userId, newCartId)
                    && db.cartItems == AddLine(old(db.cartItems), cartId, productId, variantId, quantity, newItemId)
                    && r.value == ViewOf(db.carts, db.cartItems, userId))
    ensures var cartId := CartIdFor(old(db.carts), userId, newCartId);
      r.Err? && Available(db.variants, db.products, variantId) ==>
        && r == Err(BadRequest("Requested quantity exceeds available stock"))
        && (exists seen :: Seen(old(db.cartItems), cartId, variantId, seen) && quantity + seen > StockOf(db.variants[variantId]))
  {
    var cartId := CartIdFor(db.carts, userId, newCartId);
    if !Available(db.variants, db.products, variantId) {
      return Err(NotFound("Product variant not found"));
    }
    var stock := StockOf(db.variants[variantId]);
    var current := 0;
    if exists i :: i in db.cartItems && db.cartItems[i].cartId == cartId && db.cartItems[i].productVariantId == variantId {
      var i :| i in db.cartItems && db.cartItems[i].cartId == cartId && db.cartItems[i].productVariantId == variantId;
      current := db.cartItems[i].quantity;
    }
    assert Seen(db.cartItems, cartId, variantId, current);
    if quantity + current > stock {
      return Err(BadRequest("Requested quantity exceeds available stock"));
    }
    AddKeepsTablesValid(db.carts, db.cartItems, userId, productId, variantId, quantity, newCartId, newItemId);
    db.carts := CartsAfterUpsert(db.carts, userId, newCartId);
    db.cartItems := AddLine(db.cartItems, cartId, productId, variantId, quantity, newItemId);
    r := Ok(ViewOf(db.carts, db.cartItems, userId));
  }

  /** While a cart holds each variant on one line at most, a successful add leaves the added
      line within the variant's stock. */
  lemma AddStaysWithinStock(items: map<string, CartItem>, cartId: string, productId: string, variantId: string,
                            quantity: int, newItemId: string, seen: int, stock: int)
    requires UniqueLines(items) && PositiveLines(items) && OneLinePerVariant(items) && newItemId !in items
    requires Seen(items, cartId, variantId, seen) && quantity + seen <= stock
    ensures var r := AddLine(items, cartId, productId, variantId, quantity, newItemId);
      forall i :: i in r && SameSlot(r[i], CartItem(cartId, productId, variantId, 0)) ==> r[i].quantity <= stock
  {
    var r := AddLine(items, cartId, productId, variantId, quantity, newItemId);
    var slot := SlotOf(items, cartId, productId, variantId);
    forall i | i in r && SameSlot(r[i], CartItem(cartId, productId, variantId, 0))
      ensures r[i].quantity <= stock
    {
      if slot.Some? {
        assert i == slot.value;
        assert HoldsVariant(items, cartId, variantId);
        var k :| k in items && items[k].cartId == cartId && items[k].productVariantId == variantId && items[k].quantity == seen;
        assert k == i;
      } else {
        assert i == newItemId;
        if HoldsVariant(items, cartId, variantId) {
          var k :| k in items && items[k].cartId == cartId && items[k].productVariantId == variantId && items[k].quantity == seen;
        }
      }
    }
  }

  /** The line `findFirst({ where: { id, cart: { userId }, productVariant: { deletedAt: null },
      product: { deletedAt: null } } })` finds: a line of the user's cart whose variant and
      whose product exist and are not soft-deleted. */
  predicate OwnedLiveLine(carts: map<string, string>, items: map<string, CartItem>, variants: map<string, Variant>,
                          products: map<string, Product>, userId: string, itemId: string)
  {
    && userId in carts
    && itemId in items
    && items[itemId].cartId == carts[userId]
    && items[itemId].productVariantId in variants
    && variants[items[itemId].productVariantId].deletedAt.None?
    && items[itemId].productId in products
    && products[items[itemId].productId].deletedAt.None?
  }

  /** `updateCartItemQuantity`: a quantity of 0 or less removes the line without a stock
      check; a larger one must not exceed the stock and is set exactly. */
  method UpdateCartItemQuantity(db: Db, userId: string, itemId: string, quantity: int) returns (r: Result<CartView>)
    requires CartsValid(db)
    modifies db`cartItems
    ensures CartsValid(db)
    ensures !OwnedLiveLine(db.carts, old(db.cartItems), db.variants, db.products, userId, itemId) ==> r == Err(NotFound("Cart item not found"))
    ensures OwnedLiveLine(db.carts, old(db.cartItems), db.variants, db.products, userId, itemId) ==>
      var stock := StockOf(db.variants[old(db.cartItems)[itemId].productVariantId]);
      && (quantity <= 0 ==> r.Ok? && db.cartItems == old(db.cartItems) - {itemId})
      && (quantity > 0 && quantity > stock ==> r == Err(BadRequest("Requested quantity exceeds available stock")))
      && (0 < quantity <= stock ==> r.Ok? && db.cartItems == old(db.cartItems)[itemId := old(db.cartItems)[itemId].(quantity := quantity)])
    ensures r.Ok? ==> r.value == ViewOf(db.carts, db.cartItems, userId)
    ensures r.Err? ==> db.cartItems == old(db.cartItems)
  {
    if !OwnedLiveLine(db.carts, db.cartItems, db.variants, db.products, userId, itemId) {
      return Err(NotFound("Cart item not found"));
    }
    var line := db.cartItems[itemId];
    if quantity <= 0 {
      db.cartItems := db.cartItems - {itemId};
      return Ok(ViewOf(db.carts, db.cartItems, userId));
    }
    if quantity > StockOf(db.variants[line.productVariantId]) {
      return Err(BadRequest("Requested quantity exceeds available stock"));
    }
    db.cartItems := db.cartItems[itemId := line.(quantity := quantity)];
    r := Ok(ViewOf(db.carts, db.cartItems, userId));
  }

  /** `removeCartItem`: deletes exactly the one line. */
  method RemoveCartItem(db: Db, userId: string, itemId: string) returns (r: Result<CartView>)
    requires CartsValid(db)
    modifies db`cartItems
    ensures CartsValid(db)
    ensures r.Ok? <==> OwnedLiveLine(db.carts, old(db.cartItems), db.variants, db.products, userId, itemId)
    ensures r.Err? ==> r == Err(NotFound("Cart item not found")) && db.cartItems == old(db.cartItems)
    ensures r.Ok? ==> db.cartItems == old(db.cartItems) - {itemId} && r.value == ViewOf(db.carts, db.cartItems, userId)
  {
    if !OwnedLiveLine(db.carts, db.cartItems, db.variants, db.products, userId, itemId) {
      return Err(NotFound("Cart item not found"));
    }
    db.cartItems := db.cartItems - {itemId};
    r := Ok(ViewOf(db.carts, db.cartItems, userId));
  }
}
