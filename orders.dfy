/** Order placement and cancellation (src/order/order.service.ts).

    Placing an order looks up every requested variant, prices each line from the catalogue,
    resolves an optional voucher and, only when every check has passed, decrements stock,
    counts one use of the voucher and stores the order with a snapshot of every line. */
module Orders {
  import opened Common
  import opened Schema
  import opened Pricing

  datatype LineRequest = LineRequest(productVariantId: string, productId: string, quantity: int)

  datatype CreateOrderRequest = CreateOrderRequest(
    email: string,
    fullName: string,
    phone: string,
    items: seq<LineRequest>,
    appliedVoucher: Option<string>,
    shippingAddress: string,
    paymentMethod: PaymentMethod,
    note: Option<string>)

  /** The order form's bound on every line: an integer quantity of at least 1. */
  predicate PositiveQuantities(items: seq<LineRequest>) {
    forall i :: 0 <= i < |items| ==> items[i].quantity >= 1
  }

  /** A variant row that exists and is not soft-deleted. */
  predicate Live(variants: map<string, Variant>, id: string) {
    id in variants && variants[id].deletedAt.None?
  }

  predicate AllLive(items: seq<LineRequest>, variants: map<string, Variant>) {
    forall i :: 0 <= i < |items| ==> Live(variants, items[i].productVariantId)
  }

  predicate DistinctIds(items: seq<LineRequest>) {
    forall i, j :: 0 <= i < j < |items| ==> items[i].productVariantId != items[j].productVariantId
  }

  /** The set of variant ids the request names. */
  function RequestedIds(items: seq<LineRequest>): (r: set<string>)
    ensures forall i :: 0 <= i < |items| ==> items[i].productVariantId in r
    ensures forall x :: x in r ==> exists i :: 0 <= i < |items| && items[i].productVariantId == x
    decreases |items|
  {
    if items == [] then {}
    else
      var n := |items| - 1;
      assert forall i :: 0 <= i < n ==> items[..n][i] == items[i];
      RequestedIds(items[..n]) + {items[n].productVariantId}
  }

  /** The ids of the rows the live-variant query returns: one per distinct requested id that
      names a live variant. */
  function FoundIds(items: seq<LineRequest>, variants: map<string, Variant>): set<string> {
    set id | id in RequestedIds(items) && Live(variants, id)
  }

  /** A request names at most as many distinct variants as it has lines, and exactly as many
      when no variant is repeated. */
  lemma {:induction false} RequestedIdsSize(items: seq<LineRequest>)
    ensures |RequestedIds(items)| <= |items|
    ensures |RequestedIds(items)| == |items| <==> DistinctIds(items)
    decreases |items|
  {
    if items != [] {
      var n := |items| - 1;
      var init := items[..n];
      RequestedIdsSize(init);
      var x := items[n].productVariantId;
      if x in RequestedIds(init) {
        var i :| 0 <= i < n && init[i].productVariantId == x;
        assert items[i].productVariantId == items[n].productVariantId;
      } else {
        assert |RequestedIds(items)| == |RequestedIds(init)| + 1;
        DistinctExtend(items);
      }
    }
  }

  /** Appending a line whose variant is new keeps the lines distinct exactly when they were. */
  lemma DistinctExtend(items: seq<LineRequest>)
    requires |items| > 0 && items[|items| - 1].productVariantId !in RequestedIds(items[..|items| - 1])
    ensures DistinctIds(items) <==> DistinctIds(items[..|items| - 1])
  {
    var n := |items| - 1;
    var init := items[..n];
    if DistinctIds(init) {
      forall i, j | 0 <= i < j < |items|
        ensures items[i].productVariantId != items[j].productVariantId
      {
        assert items[i] == init[i];
        if j < n {
          assert items[j] == init[j];
        }
      }
    }
    if DistinctIds(items) {
      forall i, j | 0 <= i < j < n
        ensures init[i].productVariantId != init[j].productVariantId
      {
        assert items[i] == init[i] && items[j] == init[j];
      }
    }
  }

  lemma SubsetOfEqualSize(a: set<string>, b: set<string>)
    requires a <= b && |a| == |b|
    ensures a == b
  {
    assert b == a + (b - a);
    assert |b - a| == 0;
  }

  /** The row-count check `productVariants.length !== items.length` passes exactly when no
      variant is repeated and every requested variant exists and is not soft-deleted. */
  lemma LookupSucceedsIff(items: seq<LineRequest>, variants: map<string, Variant>)
    ensures |FoundIds(items, variants)| == |items| <==> DistinctIds(items) && AllLive(items, variants)
  {
    var req, found := RequestedIds(items), FoundIds(items, variants);
    RequestedIdsSize(items);
    assert req == found + (req - found);
    if |found| == |items| {
      SubsetOfEqualSize(found, req);
      forall i | 0 <= i < |items|
        ensures Live(variants, items[i].productVariantId)
      {
        assert items[i].productVariantId in found;
      }
    }
    if DistinctIds(items) && AllLive(items, variants) {
      forall x | x in req
        ensures x in found
      {
        var i :| 0 <= i < |items| && items[i].productVariantId == x;
      }
      assert found == req;
    }
  }

  /** Every check a single line must pass: the variant was found, its stock (null as 0)
      covers the quantity, and it has a parent product. */
  predicate LineOk(item: LineRequest, variants: map<string, Variant>, products: map<string, Product>) {
    && Live(variants, item.productVariantId)
    && StockOf(variants[item.productVariantId]) >= item.quantity
    && variants[item.productVariantId].productId in products
  }

  /** The order line built from one requested line, or the error that line raises. */
  function SnapshotLine(item: LineRequest, variants: map<string, Variant>, products: map<string, Product>): (r: Result<OrderItem>)
    ensures r.Ok? <==> LineOk(item, variants, products)
    ensures !Live(variants, item.productVariantId) ==>
      r == Err(BadRequest("Invalid product variant ID: " + item.productVariantId))
    ensures Live(variants, item.productVariantId) && StockOf(variants[item.productVariantId]) < item.quantity ==>
      r == Err(BadRequest("Insufficient stock for product variant ID: " + item.productVariantId))
    ensures r.Ok? ==>
      var v := variants[item.productVariantId];
      && r.value.productId == v.productId
      && r.value.productVariantId == item.productVariantId
      && r.value.productName == products[v.productId].name
      && r.value.variantName == v.name
      && r.value.quantity == item.quantity
      && r.value.originalPrice == v.originalPrice
      && r.value.discountPercentage == DiscountOf(v)
      && r.value.price == UnitPrice(v.originalPrice, DiscountOf(v))
      && r.value.totalLinePrice == r.value.price * item.quantity as real
  {
    var id := item.productVariantId;
    if !Live(variants, id) then
      Err(BadRequest("Invalid product variant ID: " + id))
    else
      var v := variants[id];
      if StockOf(v) < item.quantity then
        Err(BadRequest("Insufficient stock for product variant ID: " + id))
      else if v.productId !in products then
        Err(BadRequest("Data integrity error: Variant " + id + " has no parent Product."))
      else
        var unit := UnitPrice(v.originalPrice, DiscountOf(v));
        Ok(OrderItem(v.productId, id, products[v.productId].name, v.name, item.quantity,
                     unit, v.originalPrice, DiscountOf(v), unit * item.quantity as real))
  }

  /** The sum of the line totals. */
  function Subtotal(lines: seq<OrderItem>): real
    decreases |lines|
  {
    if lines == [] then 0.0 else Subtotal(lines[..|lines| - 1]) + lines[|lines| - 1].totalLinePrice
  }

  datatype Plan = Plan(lines: seq<OrderItem>, subtotal: real)

  /** The lines and subtotal the pricing loop produces, or the error of the first line that
      fails its checks. */
  function PlanLines(items: seq<LineRequest>, variants: map<string, Variant>, products: map<string, Product>): (r: Result<Plan>)
    ensures r.Ok? ==> |r.value.lines| == |items|
    decreases |items|
  {
    if items == [] then Ok(Plan([], 0.0))
    else
      var n := |items| - 1;
      match PlanLines(items[..n], variants, products)
      case Err(e) => Err(e)
      case Ok(plan) =>
        match SnapshotLine(items[n], variants, products)
        case Err(e) => Err(e)
        case Ok(line) => Ok(Plan(plan.lines + [line], plan.subtotal + line.totalLinePrice))
  }

  /** Pricing succeeds exactly when every line passes its checks; then there is one order line
      per requested line, in request order, each the snapshot of its line, and the subtotal is
      the sum of the line totals. */
  lemma PlanLinesSpec(items: seq<LineRequest>, variants: map<string, Variant>, products: map<string, Product>)
    ensures PlanLines(items, variants, products).Ok? <==> forall i :: 0 <= i < |items| ==> LineOk(items[i], variants, products)
    ensures PlanLines(items, variants, products).Ok? ==>
      var plan := PlanLines(items, variants, products).value;
      && (forall i :: 0 <= i < |items| ==> SnapshotLine(items[i], variants, products) == Ok(plan.lines[i]))
      && plan.subtotal == Subtotal(plan.lines)
  {
    PlanLinesOkIff(items, variants, products);
    if PlanLines(items, variants, products).Ok? {
      PlanLinesContents(items, variants, products);
    }
  }

  lemma {:induction false} PlanLinesOkIff(items: seq<LineRequest>, variants: map<string, Variant>, products: map<string, Product>)
    ensures PlanLines(items, variants, products).Ok? <==> forall i :: 0 <= i < |items| ==> LineOk(items[i], variants, products)
    decreases |items|
  {
    if items != [] {
      var n := |items| - 1;
      PlanLinesOkIff(items[..n], variants, products);
      assert forall i :: 0 <= i < n ==> items[..n][i] == items[i];
    }
  }

  lemma {:induction false} PlanLinesContents(items: seq<LineRequest>, variants: map<string, Variant>, products: map<string, Product>)
    requires PlanLines(items, variants, products).Ok?
    ensures var plan := PlanLines(items, variants, products).value;
      && (forall i :: 0 <= i < |items| ==> SnapshotLine(items[i], variants, products) == Ok(plan.lines[i]))
      && plan.subtotal == Subtotal(plan.lines)
    decreases |items|
  {
    if items != [] {
      var n := |items| - 1;
      var front := items[..n];
      var prev := PlanLines(front, variants, products);
      assert prev.Ok?;
      PlanLinesContents(front, variants, products);
      var plan := PlanLines(items, variants, products).value;
      var line := SnapshotLine(items[n], variants, products).value;
      assert plan.lines == prev.value.lines + [line];
      forall i | 0 <= i < |items|
        ensures SnapshotLine(items[i], variants, products) == Ok(plan.lines[i])
      {
        if i < n {
          assert front[i] == items[i];
          assert plan.lines[i] == prev.value.lines[i];
        }
      }
      assert plan.lines[..n] == prev.value.lines;
    }
  }

  /** When pricing fails, its error is the error of the first line that fails its checks. */
  lemma {:induction false} FirstFailureWins(items: seq<LineRequest>, variants: map<string, Variant>, products: map<string, Product>, k: nat)
    requires k < |items| && !LineOk(items[k], variants, products)
    requires forall j :: 0 <= j < k ==> LineOk(items[j], variants, products)
    ensures PlanLines(items, variants, products) == SnapshotLine(items[k], variants, products).PropagateFailure()
    decreases |items|
  {
    var n := |items| - 1;
    var front := items[..n];
    assert forall i :: 0 <= i < n ==> front[i] == items[i];
    if k < n {
      FirstFailureWins(front, variants, products, k);
      assert PlanLines(front, variants, products).Err?;
    } else {
      PlanLinesOkIff(front, variants, products);
      assert PlanLines(front, variants, products).Ok?;
    }
  }

  /** Once a prefix of the request fails, the whole request fails with the same error. */
  lemma {:induction false} FailureIsSticky(items: seq<LineRequest>, k: nat, variants: map<string, Variant>, products: map<string, Product>)
    requires k <= |items| && PlanLines(items[..k], variants, products).Err?
    ensures PlanLines(items, variants, products) == PlanLines(items[..k], variants, products)
    decreases |items|
  {
    if k < |items| {
      var n := |items| - 1;
      assert items[..n][..k] == items[..k];
      FailureIsSticky(items[..n], k, variants, products);
    } else {
      assert items[..k] == items;
    }
  }

  /** One more line of the pricing loop: the plan of a longer prefix extends the plan of the
      shorter one by that line's snapshot, or fails with that line's error. */
  lemma PlanLinesStep(items: seq<LineRequest>, i: nat, variants: map<string, Variant>, products: map<string, Product>)
    requires i < |items| && PlanLines(items[..i], variants, products).Ok?
    ensures var plan := PlanLines(items[..i], variants, products).value;
      PlanLines(items[..i + 1], variants, products) ==
        match SnapshotLine(items[i], variants, products)
        case Err(e) => Err(e)
        case Ok(line) => Ok(Plan(plan.lines + [line], plan.subtotal + line.totalLinePrice))
  {
    assert items[..i + 1][..i] == items[..i];
  }

  /** The pricing loop: walks the requested lines in order, checking each and accumulating
      the order lines and the subtotal. */
  method PriceLines(db: Db, items: seq<LineRequest>) returns (r: Result<Plan>)
    ensures r == PlanLines(items, db.variants, db.products)
  {
    var lines: seq<OrderItem> := [];
    var subtotal := 0.0;
    var i := 0;
    while i < |items|
      invariant 0 <= i <= |items|
      invariant PlanLines(items[..i], db.variants, db.products) == Ok(Plan(lines, subtotal))
    {
      var item := items[i];
      PlanLinesStep(items, i, db.variants, db.products);
      if !(item.productVariantId in db.variants && db.variants[item.productVariantId].deletedAt.None?) {
        r := Err(BadRequest("Invalid product variant ID: " + item.productVariantId));
        FailureIsSticky(items, i + 1, db.variants, db.products);
        return;
      }
      var v := db.variants[item.productVariantId];
      if StockOf(v) < item.quantity {
        r := Err(BadRequest("Insufficient stock for product variant ID: " + item.productVariantId));
        FailureIsSticky(items, i + 1, db.variants, db.products);
        return;
      }
      var itemPrice := UnitPrice(v.originalPrice, DiscountOf(v));
      var lineTotal := itemPrice * item.quantity as real;
      subtotal := subtotal + lineTotal;
      if v.productId !in db.products {
        r := Err(BadRequest("Data integrity error: Variant " + item.productVariantId + " has no parent Product."));
        FailureIsSticky(items, i + 1, db.variants, db.products);
        return;
      }
      var line := OrderItem(v.productId, item.productVariantId, db.products[v.productId].name, v.name,
                            item.quantity, itemPrice, v.originalPrice, DiscountOf(v), lineTotal);
      assert LineOk(item, db.variants, db.products);
      assert SnapshotLine(item, db.variants, db.products).value == line;
      lines := lines + [line];
      i := i + 1;
    }
    assert items[..i] == items;
    r := Ok(Plan(lines, subtotal));
  }

  /** The validity window is enforced only when both bounds are set; both bounds are inclusive. */
  predicate InWindow(d: Discount, now: int) {
    d.startDate.Some? && d.endDate.Some? ==> d.startDate.value <= now <= d.endDate.value
  }

  /** The usage cap is enforced only when both the limit and the count are set. */
  predicate UnderCap(d: Discount) {
    d.usageLimit.Some? && d.usedCount.Some? ==> d.usedCount.value < d.usageLimit.value
  }

  predicate VoucherUsable(discounts: map<string, Discount>, code: string, now: int) {
    code in discounts && discounts[code].isActive && InWindow(discounts[code], now) && UnderCap(discounts[code])
  }

  /** A window set at both ends admits its first and its last instant and nothing outside
      them; a window missing either end admits every instant. */
  lemma {:induction false} WindowIsInclusive(d: Discount, now: int)
    ensures d.startDate.Some? && d.endDate.Some? && d.startDate.value <= d.endDate.value ==>
      InWindow(d, d.startDate.value) && InWindow(d, d.endDate.value)
    ensures d.startDate.Some? && d.endDate.Some? && (now < d.startDate.value || now > d.endDate.value) ==> !InWindow(d, now)
    ensures d.startDate.None? || d.endDate.None? ==> InWindow(d, now)
  {
  }

  /** The refusals for a voucher that exists and is active, in the order the service checks:
      outside its window, then at its usage cap. */
  lemma VoucherRefusals(applied: Option<string>, discounts: map<string, Discount>, subtotal: real, now: int)
    requires Truthy(applied) && applied.value in discounts && discounts[applied.value].isActive
    ensures !InWindow(discounts[applied.value], now) ==>
      ResolveVoucher(applied, discounts, subtotal, now) == Err(BadRequest("Voucher code is not valid at this time"))
    ensures InWindow(discounts[applied.value], now) && !UnderCap(discounts[applied.value]) ==>
      ResolveVoucher(applied, discounts, subtotal, now) == Err(BadRequest("Voucher code usage limit has been reached"))
  {
  }

  /** A voucher one use short of its cap is usable, and the use an order records exhausts it:
      the next order with the same code is refused. */
  lemma LastUseExhaustsVoucher(discounts: map<string, Discount>, code: string, subtotal: real, now: int)
    requires code != "" && VoucherUsable(discounts, code, now)
    requires discounts[code].usageLimit.Some? && discounts[code].usedCount == Some(discounts[code].usageLimit.value - 1)
    ensures ResolveVoucher(Some(code), discounts, subtotal, now).Ok?
    ensures ResolveVoucher(Some(code), UseVoucher(discounts, code), subtotal, now)
      == Err(BadRequest("Voucher code usage limit has been reached"))
  {
    var after := UseVoucher(discounts, code);
    assert after[code].usedCount == discounts[code].usageLimit;
    assert !UnderCap(after[code]);
  }

  /** The amount a voucher takes off the subtotal, or the error that rejects it. A falsy
      voucher code means no voucher. */
  function ResolveVoucher(applied: Option<string>, discounts: map<string, Discount>, subtotal: real, now: int): (r: Result<real>)
    ensures !Truthy(applied) ==> r == Ok(0.0)
    ensures Truthy(applied) ==> (r.Ok? <==> VoucherUsable(discounts, applied.value, now))
    ensures Truthy(applied) && !(applied.value in discounts && discounts[applied.value].isActive) ==>
      r == Err(BadRequest("Invalid voucher code"))
    ensures Truthy(applied) && r.Ok? ==> r.value <= subtotal
    ensures r.Ok? && 0.0 <= subtotal && (Truthy(applied) ==> discounts[applied.value].value >= 0.0) ==> 0.0 <= r.value
    ensures Truthy(applied) && r.Ok? ==>
      var d := discounts[applied.value];
      && (d.kind == Fixed ==> r.value == if d.value > subtotal then subtotal else d.value)
      && (d.kind == Percentage && 0.0 <= subtotal && 0.0 <= d.value <= 100.0 ==> r.value == subtotal * (d.value / 100.0))
      && (d.kind.OtherKind? && 0.0 <= subtotal ==> r.value == 0.0)
  {
    if !Truthy(applied) then Ok(0.0)
    else
      var code := applied.value;
      if !(code in discounts && discounts[code].isActive) then
        Err(BadRequest("Invalid voucher code"))
      else
        var d := discounts[code];
        if !InWindow(d, now) then
          Err(BadRequest("Voucher code is not valid at this time"))
        else if !UnderCap(d) then
          Err(BadRequest("Voucher code usage limit has been reached"))
        else
          var amount := match d.kind
            case Fixed => d.value
            case Percentage => subtotal * (d.value / 100.0)
            case OtherKind(_) => 0.0;
          assert d.kind == Percentage && 0.0 <= subtotal && 0.0 <= d.value ==> 0.0 <= amount by {
            if d.kind == Percentage && 0.0 <= subtotal && 0.0 <= d.value {
              ProductNonNegative(subtotal, d.value / 100.0);
            }
          }
          assert d.kind == Percentage && 0.0 <= subtotal && 0.0 <= d.value <= 100.0 ==> amount <= subtotal by {
            if d.kind == Percentage && 0.0 <= subtotal && 0.0 <= d.value <= 100.0 {
              ProductNonNegative(subtotal, 1.0 - d.value / 100.0);
            }
          }
          Ok(if amount > subtotal then subtotal else amount)
  }

  /** The order placement decision on the state before the call: the stored order, or the
      first error in the order the service checks. */
  function PlaceOrder(variants: map<string, Variant>, products: map<string, Product>, discounts: map<string, Discount>,
                      req: CreateOrderRequest, userId: Option<string>, now: int): (r: Result<Order>)
    ensures r.Ok? ==> && r.value.totalAmount == r.value.subtotal - r.value.discountAmount
                      && r.value.shippingFee == 0.0
                      && r.value.status == Pending
                      && |r.value.items| == |req.items|
                      && (r.value.userId.Some? <==> Truthy(userId))
                      && (r.value.appliedVoucher.Some? <==> Truthy(req.appliedVoucher))
    ensures r.Ok? ==> && ResolveVoucher(req.appliedVoucher, discounts, r.value.subtotal, now) == Ok(r.value.discountAmount)
                      && r.value.userId == OrNull(userId)
                      && r.value.appliedVoucher == OrNull(req.appliedVoucher)
                      && r.value.email == req.email && r.value.fullName == req.fullName && r.value.phone == req.phone
                      && r.value.shippingAddress == req.shippingAddress && r.value.paymentMethod == req.paymentMethod
                      && r.value.note == OrNull(req.note)
  {
    if |FoundIds(req.items, variants)| != |req.items| then
      Err(BadRequest("One or more product variants are invalid"))
    else
      match PlanLines(req.items, variants, products)
      case Err(e) => Err(e)
      case Ok(plan) =>
        match ResolveVoucher(req.appliedVoucher, discounts, plan.subtotal, now)
        case Err(e) => Err(e)
        case Ok(discount) =>
          Ok(Order(OrNull(userId), req.email, req.fullName, req.phone, plan.subtotal, 0.0, discount,
                   plan.subtotal - discount, OrNull(req.appliedVoucher), req.shippingAddress,
                   req.paymentMethod, plan.lines, OrNull(req.note), Pending))
  }

  /** An order is placed exactly when the variants are distinct and live, every line passes
      its checks, and the voucher (if any) is usable. */
  lemma PlaceOrderSucceedsIff(variants: map<string, Variant>, products: map<string, Product>, discounts: map<string, Discount>,
                              req: CreateOrderRequest, userId: Option<string>, now: int)
    ensures PlaceOrder(variants, products, discounts, req, userId, now).Ok? <==>
      && DistinctIds(req.items)
      && (forall i :: 0 <= i < |req.items| ==> LineOk(req.items[i], variants, products))
      && (Truthy(req.appliedVoucher) ==> VoucherUsable(discounts, req.appliedVoucher.value, now))
  {
    LookupSucceedsIff(req.items, variants);
    PlanLinesSpec(req.items, variants, products);
  }

  /** A placed order holds one line per requested line, in request order, each the snapshot of
      its variant and product at the time of purchase, and its subtotal is the sum of the line
      totals. */
  lemma PlacedOrderSnapshot(variants: map<string, Variant>, products: map<string, Product>, discounts: map<string, Discount>,
                            req: CreateOrderRequest, userId: Option<string>, now: int)
    requires PlaceOrder(variants, products, discounts, req, userId, now).Ok?
    ensures var o := PlaceOrder(variants, products, discounts, req, userId, now).value;
      && (forall i :: 0 <= i < |req.items| ==> SnapshotLine(req.items[i], variants, products) == Ok(o.items[i]))
      && o.subtotal == Subtotal(o.items)
      && ResolveVoucher(req.appliedVoucher, discounts, Subtotal(o.items), now) == Ok(o.discountAmount)
      && o.totalAmount == Subtotal(o.items) - o.discountAmount
      && o.shippingFee == 0.0 && o.status == Pending
      && o.email == req.email && o.fullName == req.fullName && o.phone == req.phone
      && o.shippingAddress == req.shippingAddress && o.paymentMethod == req.paymentMethod
      && o.note == OrNull(req.note)
  {
    PlanLinesSpec(req.items, variants, products);
  }

  /** A request that repeats a variant is rejected by the row-count check. */
  lemma RepeatedVariantIsRejected(variants: map<string, Variant>, products: map<string, Product>, discounts: map<string, Discount>,
                                  req: CreateOrderRequest, userId: Option<string>, now: int, i: int, j: int)
    requires 0 <= i < j < |req.items| && req.items[i].productVariantId == req.items[j].productVariantId
    ensures PlaceOrder(variants, products, discounts, req, userId, now) == Err(BadRequest("One or more product variants are invalid"))
  {
    LookupSucceedsIff(req.items, variants);
  }

  /** A request naming a variant that is missing, soft-deleted or repeated is rejected by the
      row-count check, before any line, stock or voucher check. */
  lemma InvalidVariantsAreRejected(variants: map<string, Variant>, products: map<string, Product>, discounts: map<string, Discount>,
                                   req: CreateOrderRequest, userId: Option<string>, now: int)
    requires !(DistinctIds(req.items) && AllLive(req.items, variants))
    ensures PlaceOrder(variants, products, discounts, req, userId, now) == Err(BadRequest("One or more product variants are invalid"))
  {
    LookupSucceedsIff(req.items, variants);
  }

  lemma {:induction false} SubtotalNonNegative(lines: seq<OrderItem>)
    requires forall i :: 0 <= i < |lines| ==> lines[i].totalLinePrice >= 0.0
    ensures Subtotal(lines) >= 0.0
    decreases |lines|
  {
    if lines != [] {
      SubtotalNonNegative(lines[..|lines| - 1]);
    }
  }

  /** With catalogue prices and discounts inside their form bounds and quantities of at
      least 1, the subtotal is not negative. */
  lemma PlanSubtotalNonNegative(items: seq<LineRequest>, variants: map<string, Variant>, products: map<string, Product>)
    requires forall id :: id in variants ==> SaneVariant(variants[id])
    requires PositiveQuantities(items)
    requires PlanLines(items, variants, products).Ok?
    ensures PlanLines(items, variants, products).value.subtotal >= 0.0
  {
    var plan := PlanLines(items, variants, products).value;
    PlanLinesSpec(items, variants, products);
    forall i | 0 <= i < |plan.lines|
      ensures plan.lines[i].totalLinePrice >= 0.0
    {
      LineTotalNonNegative(items[i], variants, products);
    }
    SubtotalNonNegative(plan.lines);
  }

  /** A priced line of a variant inside its form bounds has a non-negative total. */
  lemma LineTotalNonNegative(item: LineRequest, variants: map<string, Variant>, products: map<string, Product>)
    requires forall id :: id in variants ==> SaneVariant(variants[id])
    requires item.quantity >= 1
    ensures SnapshotLine(item, variants, products).Ok? ==> SnapshotLine(item, variants, products).value.totalLinePrice >= 0.0
  {
    var r := SnapshotLine(item, variants, products);
    if r.Ok? {
      ProductNonNegative(r.value.price, item.quantity as real);
    }
  }

  /** With prices and discounts inside their form bounds, quantities of at least 1 and a
      voucher of non-negative value, the amount charged lies between 0 and the subtotal. */
  lemma TotalWithinSubtotal(variants: map<string, Variant>, products: map<string, Product>, discounts: map<string, Discount>,
                            req: CreateOrderRequest, userId: Option<string>, now: int)
    requires forall id :: id in variants ==> SaneVariant(variants[id])
    requires PositiveQuantities(req.items)
    requires Truthy(req.appliedVoucher) && req.appliedVoucher.value in discounts ==> discounts[req.appliedVoucher.value].value >= 0.0
    requires PlaceOrder(variants, products, discounts, req, userId, now).Ok?
    ensures var o := PlaceOrder(variants, products, discounts, req, userId, now).value;
      0.0 <= o.discountAmount && 0.0 <= o.totalAmount <= o.subtotal
  {
    PlanSubtotalNonNegative(req.items, variants, products);
  }

  /** The sum of the quantities the request asks of one variant. */
  function QuantityFor(items: seq<LineRequest>, id: string): int
    decreases |items|
  {
    if items == [] then 0
    else
      var n := |items| - 1;
      QuantityFor(items[..n], id) + (if items[n].productVariantId == id then items[n].quantity else 0)
  }

  /** `stockQuantity: { decrement: q }`; a null stock stays null. */
  function Decrement(v: Variant, quantity: int): Variant {
    v.(stockQuantity := if v.stockQuantity.Some? then Some(v.stockQuantity.value - quantity) else None)
  }

  /** The variant table after one decrement per requested line, in order. */
  function DecrementStock(variants: map<string, Variant>, items: seq<LineRequest>): (r: map<string, Variant>)
    ensures r.Keys == variants.Keys
    decreases |items|
  {
    if items == [] then variants
    else
      var n := |items| - 1;
      var before := DecrementStock(variants, items[..n]);
      var id := items[n].productVariantId;
      if id in before then before[id := Decrement(before[id], items[n].quantity)] else before
  }

  /** After the decrements, each variant's stock has dropped by exactly the quantity requested
      of it, and nothing else about any variant has changed. */
  lemma {:induction false} DecrementStockEffect(variants: map<string, Variant>, items: seq<LineRequest>)
    ensures DecrementStock(variants, items).Keys == variants.Keys
    ensures forall id :: id in variants ==> DecrementStock(variants, items)[id] == Decrement(variants[id], QuantityFor(items, id))
    decreases |items|
  {
    if items != [] {
      var n := |items| - 1;
      DecrementStockEffect(variants, items[..n]);
    }
  }

  /** With distinct variant ids, a requested variant is asked for exactly its line's quantity
      and any other variant for nothing. */
  lemma {:induction false} QuantityForDistinct(items: seq<LineRequest>, id: string)
    requires DistinctIds(items)
    ensures forall i :: 0 <= i < |items| && items[i].productVariantId == id ==> QuantityFor(items, id) == items[i].quantity
    ensures id !in RequestedIds(items) ==> QuantityFor(items, id) == 0
    decreases |items|
  {
    if items != [] {
      var n := |items| - 1;
      assert forall i :: 0 <= i < n ==> items[..n][i] == items[i];
      QuantityForDistinct(items[..n], id);
      if items[n].productVariantId == id {
        assert id !in RequestedIds(items[..n]);
      }
    }
  }

  /** A successful placement never takes a variant's stock below zero. */
  lemma PlacementKeepsStockNonNegative(variants: map<string, Variant>, products: map<string, Product>, discounts: map<string, Discount>,
                                       req: CreateOrderRequest, userId: Option<string>, now: int)
    requires PlaceOrder(variants, products, discounts, req, userId, now).Ok?
    ensures forall id :: id in variants && StockOf(variants[id]) >= 0 ==>
      id in DecrementStock(variants, req.items) && StockOf(DecrementStock(variants, req.items)[id]) >= 0
  {
    PlaceOrderSucceedsIff(variants, products, discounts, req, userId, now);
    DecrementStockEffect(variants, req.items);
    forall id | id in variants && StockOf(variants[id]) >= 0
      ensures StockOf(DecrementStock(variants, req.items)[id]) >= 0
    {
      QuantityForDistinct(req.items, id);
      if id in RequestedIds(req.items) {
        var i :| 0 <= i < |req.items| && req.items[i].productVariantId == id;
        assert LineOk(req.items[i], variants, products);
      }
    }
  }

  /** `usedCount: { increment: 1 }` on the voucher row; a null count stays null. */
  function UseVoucher(discounts: map<string, Discount>, code: string): (r: map<string, Discount>)
    ensures r.Keys == discounts.Keys
    ensures forall c :: c in discounts && c != code ==> r[c] == discounts[c]
    ensures code in discounts ==> r[code] == discounts[code].(usedCount := r[code].usedCount)
    ensures code in discounts ==> (r[code].usedCount.Some? <==> discounts[code].usedCount.Some?)
    ensures code in discounts && discounts[code].usedCount.Some? ==> r[code].usedCount.value == discounts[code].usedCount.value + 1
  {
    if code in discounts then
      var d := discounts[code];
      discounts[code := d.(usedCount := if d.usedCount.Some? then Some(d.usedCount.value + 1) else None)]
    else discounts
  }

  /** The discount table after a successful placement. */
  function DiscountsAfter(discounts: map<string, Discount>, applied: Option<string>): (r: map<string, Discount>)
    ensures r.Keys == discounts.Keys
    ensures forall c :: c in discounts && !(Truthy(applied) && c == applied.value) ==> r[c] == discounts[c]
    ensures Truthy(applied) && applied.value in discounts ==>
      && r[applied.value] == discounts[applied.value].(usedCount := r[applied.value].usedCount)
      && (discounts[applied.value].usedCount.Some? ==> r[applied.value].usedCount == Some(discounts[applied.value].usedCount.value + 1))
      && (discounts[applied.value].usedCount.None? ==> r[applied.value].usedCount.None?)
  {
    if Truthy(applied) then UseVoucher(discounts, applied.value) else discounts
  }

  /** The stock writes of the transaction: one decrement per requested line. */
  method DecrementAll(db: Db, items: seq<LineRequest>)
    modifies db`variants
    ensures db.variants == DecrementStock(old(db.variants), items)
  {
    var i := 0;
    while i < |items|
      invariant 0 <= i <= |items|
      invariant db.variants == DecrementStock(old(db.variants), items[..i])
    {
      var item := items[i];
      assert items[..i + 1][..i] == items[..i];
      if item.productVariantId in db.variants {
        db.variants := db.variants[item.productVariantId := Decrement(db.variants[item.productVariantId], item.quantity)];
      }
      i := i + 1;
    }
    assert items[..i] == items;
  }

  /** `createOrder`: validates and prices the request, then applies every write. */
  method CreateOrder(db: Db, req: CreateOrderRequest, userId: Option<string>, now: int, orderId: string) returns (r: Result<Order>)
    requires orderId !in db.orders
    modifies db`variants, db`discounts, db`orders
    ensures r == PlaceOrder(old(db.variants), db.products, old(db.discounts), req, userId, now)
    ensures r.Ok? ==> && db.variants == DecrementStock(old(db.variants), req.items)
                      && db.discounts == DiscountsAfter(old(db.discounts), req.appliedVoucher)
                      && db.orders == old(db.orders)[orderId := r.value]
    ensures r.Err? ==> db.variants == old(db.variants) && db.discounts == old(db.discounts) && db.orders == old(db.orders)
  {
    var found := FoundIds(req.items, db.variants);
    if |found| != |req.items| {
      return Err(BadRequest("One or more product variants are invalid"));
    }
    var priced := PriceLines(db, req.items);
    if priced.Err? {
      return Err(priced.error);
    }
    var plan := priced.value;
    var voucher := ResolveVoucher(req.appliedVoucher, db.discounts, plan.subtotal, now);
    if voucher.Err? {
      return Err(voucher.error);
    }
    var discountAmount := voucher.value;
    var total := plan.subtotal - discountAmount;

    DecrementAll(db, req.items);
    if Truthy(req.appliedVoucher) {
      db.discounts := UseVoucher(db.discounts, req.appliedVoucher.value);
    }
    var order := Order(OrNull(userId), req.email, req.fullName, req.phone, plan.subtotal, 0.0, discountAmount,
                       total, OrNull(req.appliedVoucher), req.shippingAddress, req.paymentMethod, plan.lines,
                       OrNull(req.note), Pending);
    db.orders := db.orders[orderId := order];
    r := Ok(order);
  }

  /** `getOrdersByUserId`: the orders whose owner is the given user. */
  function OrdersOf(orders: map<string, Order>, userId: string): (r: map<string, Order>)
    ensures forall id :: id in r <==> id in orders && orders[id].userId == Some(userId)
    ensures forall id :: id in r ==> r[id] == orders[id]
  {
    map id | id in orders && orders[id].userId == Some(userId) :: orders[id]
  }

  /** An order placed by a signed-in user is listed for that user; a guest order (falsy user id)
      is listed for nobody, and leaves every user's list as it was. */
  lemma PlacedOrderListing(variants: map<string, Variant>, products: map<string, Product>, discounts: map<string, Discount>,
                           req: CreateOrderRequest, userId: Option<string>, now: int,
                           orders: map<string, Order>, orderId: string, someone: string)
    requires orderId !in orders
    requires PlaceOrder(variants, products, discounts, req, userId, now).Ok?
    ensures var after := orders[orderId := PlaceOrder(variants, products, discounts, req, userId, now).value];
      && (Truthy(userId) ==> orderId in OrdersOf(after, userId.value))
      && (!Truthy(userId) ==> OrdersOf(after, someone) == OrdersOf(orders, someone))
  {
    var after := orders[orderId := PlaceOrder(variants, products, discounts, req, userId, now).value];
    if !Truthy(userId) {
      assert OrdersOf(after, someone).Keys == OrdersOf(orders, someone).Keys;
    }
  }

  /** The cancellation decision: only a PENDING order owned by the caller can be cancelled. */
  function Cancel(orders: map<string, Order>, orderId: string, userId: string): (r: Result<Order>)
    ensures r.Ok? <==> orderId in orders && orders[orderId].userId == Some(userId) && orders[orderId].status == Pending
    ensures !(orderId in orders && orders[orderId].userId == Some(userId)) ==> r == Err(BadRequest("Order not found"))
    ensures orderId in orders && orders[orderId].userId == Some(userId) && orders[orderId].status != Pending ==>
      r == Err(BadRequest("Only pending orders can be cancelled"))
    ensures r.Ok? ==> r.value == orders[orderId].(status := Cancelled)
  {
    if !(orderId in orders && orders[orderId].userId == Some(userId)) then
      Err(BadRequest("Order not found"))
    else if orders[orderId].status != Pending then
      Err(BadRequest("Only pending orders can be cancelled"))
    else
      Ok(orders[orderId].(status := Cancelled))
  }

  /** A cancelled order cannot be cancelled again. */
  lemma CancelIsFinal(orders: map<string, Order>, orderId: string, userId: string)
    requires Cancel(orders, orderId, userId).Ok?
    ensures Cancel(orders[orderId := Cancel(orders, orderId, userId).value], orderId, userId)
      == Err(BadRequest("Only pending orders can be cancelled"))
  {
  }

  /** `cancelOrder`: overwrites the status; stock is not restored. */
  method CancelOrder(db: Db, orderId: string, userId: string) returns (r: Result<Order>)
    modifies db`orders
    ensures r == Cancel(old(db.orders), orderId, userId)
    ensures r.Ok? ==> db.orders == old(db.orders)[orderId := r.value]
    ensures r.Err? ==> db.orders == old(db.orders)
  {
    if !(orderId in db.orders && db.orders[orderId].userId == Some(userId)) {
      return Err(BadRequest("Order not found"));
    }
    var order := db.orders[orderId];
    if order.status != Pending {
      return Err(BadRequest("Only pending orders can be cancelled"));
    }
    var updated := order.(status := Cancelled);
    db.orders := db.orders[orderId := updated];
    r := Ok(updated);
  }
}
