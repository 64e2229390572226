# Melodies merch store: a verified model of the store's services

This project models the business logic of the Melodies merch store backend, a NestJS and
Prisma service that sells band merchandise. The model is written in Dafny and its
properties are proved.

- **Order placement** is at the centre. Placing an order looks up the requested product
  variants, rejects missing, deleted or repeated variants and lines with too little stock,
  and prices every line with exact decimals. It then resolves an optional voucher, snapshots
  every line into the order, and only then decrements stock and counts one use of the voucher.
- **Cancelling an order** takes a PENDING order owned by the caller to CANCELLED.
- **Around the centre** the model covers:
  - the shopping cart and discount-code administration;
  - catalogue listing (filters, sort and pagination), categories with their ancestor walk,
    and artists;
  - roles and staff accounts;
  - the refresh-token whitelist kept in Redis, email verification and password changes;
  - the permission guard and the response formatters.

Every database table is a field of one `Schema.Db` class, as a map from row id to row. Join
tables are sets of pairs or lists of ids. Redis is the `KeyValue.Redis` class, whose entries
carry an expiry time.

Each service operation that writes is a method. Its postcondition ties the new state and the
answer to a pure function of the old state: the decision, with its error cases in the
service's order. The properties of the service are proved as lemmas about those functions.

The model treats these as parameters:
- the clock, fresh ids and uuids, and random tokens;
- bcrypt hashing and comparison, JWT signing and verification, and `slugify`;
- column defaults the database fills in;
- how the database evaluates a `where` and orders rows.

Money is exact: Decimal.js arithmetic is modelled with `real`. JavaScript truthiness is
written out: the empty string and 0 are falsy.

What the code does in a few places a reader might not expect:
- **Shipping fee and total:** the shipping fee is always 0, and the total is the subtotal
  minus the discount, with no clamping at 0.
- **Stock check:** it runs before the transaction, and the decrements and the voucher
  increment inside it are unconditional.
- **Cancellation errors:** failed cancellations answer BadRequest, not NotFound or Conflict.
- **Category listing:** it does not filter out soft-deleted products.

## Model

| member | source | states |
|---|---|---|
| Common.Dedup | src/roles/roles.service.ts:41 | `[...new Set(xs)]` keeps the first copy of each id, in order: no repeats, same members, and the list is unchanged exactly when it had no repeats |
| Common.DedupKeepsFirstOrder | src/roles/roles.service.ts:41 | the deduplicated ids appear in the order of their first occurrences in the input |
| Common.Missing | src/roles/roles.service.ts:50-51 | the ids not found are exactly the requested ids absent from the table; none are missing iff every id exists |
| Common.OrNull | src/order/order.service.ts:164-178 | `x \|\| null`: a value is stored iff it is truthy, and then unchanged |
| Common.Filter | src/artists/artists.service.ts:17-21 | the kept elements are exactly those that pass, and no more of them than there were |
| Pagination.SkipTiles | src/products/products.service.ts:102 | `skip = (page − 1) × limit` tiles the rows: page 1 skips nothing, and each page starts where the one before it ends |
| Pagination.TotalPages | src/products/products.service.ts:131 | totalPages = ceil(total / limit): the least count of pages of `limit` rows that holds every row |
| Pagination.PageMeta | src/products/products.service.ts:127-135 | the meta block reports the page, the limit, the count and totalPages = ceil(count / limit); it has zero pages exactly when nothing matched |
| Pagination.PageOf | src/category/category.service.ts:41-83 | a page reports the count, totalPages = ceil(count / limit), the page and the limit, and holds at most `limit` rows, the k-th being matched row (page − 1) × limit + k |
| Pagination.Window | src/products/products.service.ts:101-102 | `skip`/`take`: at most `take` rows, the k-th being row skip + k, none past the end |
| Pagination.RowIsOnItsPage | src/products/products.service.ts:101-102 | every counted row appears on page k / limit + 1, a page within totalPages |
| Pagination.RowIsOnPageOf | src/category/category.service.ts:41-83 | a row is on any page whose window covers its position, and that page is within totalPages |
| Pagination.WindowHolds | src/products/products.service.ts:101-102 | a row between skip and skip + take is returned, at its offset from skip |
| Pagination.PagesPastTheEndAreEmpty | src/products/products.service.ts:101-102 | a page beyond totalPages holds no row |
| Pagination.PagesWithinCountAreNonEmpty | src/products/products.service.ts:101-102 | every page from 1 to totalPages holds at least one row |
| Pricing.UnitPrice | src/order/order.service.ts:61-65 | original × (100 − discount) / 100 lies between 0 and the list price for a discount in 0..100, is the list price for no discount and 0 for 100 % |
| Pricing.UnitPriceAntitone | src/order/order.service.ts:65 | a larger discount never raises the unit price |
| Orders.RequestedIds | src/order/order.service.ts:27 | the set of requested variant ids is exactly the ids named on some line |
| Orders.RequestedIdsSize | src/order/order.service.ts:27-38 | a request names as many distinct variants as it has lines exactly when no variant repeats |
| Orders.LookupSucceedsIff | src/order/order.service.ts:28-40 | the row-count check passes iff every requested variant is live and none repeats |
| Orders.SnapshotLine | src/order/order.service.ts:46-92 | a line succeeds iff its variant is live with stock (null as 0) ≥ quantity and has a product; the snapshot holds names, quantity, unit price, list price, discount and line total = unit × quantity |
| Orders.PlanLines | src/order/order.service.ts:46-95 | a successful plan has one order line per request line |
| Orders.PlanLinesSpec | src/order/order.service.ts:46-95 | pricing succeeds iff every line passes; then one order line per request line, in order, and the subtotal is the sum of the line totals |
| Orders.PlanLinesOkIff | src/order/order.service.ts:46-75 | pricing succeeds iff every line passes its checks |
| Orders.PlanLinesContents | src/order/order.service.ts:61-95 | a successful plan holds each line's snapshot in request order, and its subtotal is the sum of the line totals |
| Orders.FirstFailureWins | src/order/order.service.ts:46-75 | a failing request fails with the error of its first failing line |
| Orders.FailureIsSticky | src/order/order.service.ts:46-75 | once a prefix of the lines fails, the whole request fails the same way |
| Orders.PriceLines | src/order/order.service.ts:43-95 | the pricing loop computes exactly the specified plan |
| Orders.WindowIsInclusive | src/order/order.service.ts:107-113 | a voucher window set at both ends admits its first and last instant and nothing outside; a window missing an end admits every instant |
| Orders.VoucherRefusals | src/order/order.service.ts:107-121 | an active voucher outside its window is refused as "not valid at this time"; inside it but at its cap, as "usage limit has been reached" |
| Orders.LastUseExhaustsVoucher | src/order/order.service.ts:115-158 | a voucher one use short of its cap resolves, and after the use an order records the same code is refused |
| Orders.ResolveVoucher | src/order/order.service.ts:97-134 | no voucher gives 0; an absent or inactive code, a date outside an inclusive window set at both ends, or a cap reached with both fields set is refused; fixed gives its value, percentage gives subtotal × value / 100, other kinds 0, clamped to the subtotal |
| Orders.PlaceOrder | src/order/order.service.ts:25-181 | a placed order totals subtotal − discount, where the discount is the amount the voucher resolves to on that subtotal; shipping fee 0 and status PENDING; one line per request line; the owner and the voucher code stored iff truthy; email, full name, phone, shipping address and payment method as given, and the note iff truthy |
| Orders.PlaceOrderSucceedsIff | src/order/order.service.ts:25-136 | an order is placed exactly when the variants are distinct and live, every line passes and the voucher resolves |
| Orders.PlacedOrderSnapshot | src/order/order.service.ts:162-181 | the stored order holds each request line's snapshot in order, a subtotal that sums the line totals, the discount the voucher resolves to on that subtotal, total = subtotal − discount, the buyer's contact, address, payment and note fields, shipping fee 0 and status PENDING |
| Orders.InvalidVariantsAreRejected | src/order/order.service.ts:28-40 | a request naming a missing, soft-deleted or repeated variant is rejected with "One or more product variants are invalid" |
| Orders.RepeatedVariantIsRejected | src/order/order.service.ts:38-40 | a request that names a variant twice is rejected with "One or more product variants are invalid" |
| Orders.SubtotalNonNegative | src/order/order.service.ts:67 | a sum of non-negative line totals is non-negative |
| Orders.PlanSubtotalNonNegative | src/order/order.service.ts:61-68 | with prices and discounts in their form bounds and positive quantities the subtotal is ≥ 0 |
| Orders.LineTotalNonNegative | src/order/order.service.ts:61-66 | a priced line of a variant within its form bounds has a non-negative total |
| Orders.TotalWithinSubtotal | src/order/order.service.ts:123-136 | 0 ≤ discount ≤ subtotal, so 0 ≤ total = subtotal − discount ≤ subtotal |
| Orders.DecrementStock | src/order/order.service.ts:140-151 | the decrements neither add nor remove a variant |
| Orders.DecrementStockEffect | src/order/order.service.ts:140-151 | after the decrements each variant's stock has dropped by the total quantity requested of it, and no other variant changes |
| Orders.QuantityForDistinct | src/order/order.service.ts:140-151 | with distinct variant ids, a variant's decrement is its own line's quantity |
| Orders.PlacementKeepsStockNonNegative | src/order/order.service.ts:55-59 | a successful placement leaves no stock below zero |
| Orders.UseVoucher | src/order/order.service.ts:154-158 | only the used voucher changes, and only its usedCount, which rises by exactly 1 (null stays null) |
| Orders.DiscountsAfter | src/order/order.service.ts:154-158 | after a placement only the applied voucher changes, and only its usedCount, which rises by 1 (null stays null); without a voucher nothing changes |
| Orders.DecrementAll | src/order/order.service.ts:140-151 | the stock writes produce the specified variant table |
| Orders.CreateOrder | src/order/order.service.ts:25-183 | the answer is the placement decision; on success the stock, voucher and order tables are updated as specified, on failure nothing is written |
| Orders.OrdersOf | src/order/order.service.ts:12-17 | exactly the orders whose owner is the user |
| Orders.PlacedOrderListing | src/order/order.service.ts:12-17 | a signed-in user's new order is listed for them; a guest order for nobody |
| Orders.Cancel | src/order/order.service.ts:185-204 | only a PENDING order found for (order, user) is cancelled, with only its status changed; otherwise BadRequest |
| Orders.CancelIsFinal | src/order/order.service.ts:194-196 | a cancelled order cannot be cancelled again |
| Orders.CancelOrder | src/order/order.service.ts:185-204 | the order table changes exactly as the cancellation decision says; stock is not restored |
| Cart.ItemsOf | src/cart/cart.service.ts:60-78 | the lines of a cart are exactly the rows with that cart id |
| Cart.CartsAfterUpsert | src/cart/cart.service.ts:9-20 | the upsert keeps an existing cart and adds one only for a user without one |
| Cart.SlotOf | src/cart/cart.service.ts:121-138 | finds the line of a (cart, product, variant) triple when there is one |
| Cart.AddLine | src/cart/cart.service.ts:121-138 | an existing line grows by the quantity; otherwise a line with the quantity is created; nothing else changes |
| Cart.AddLineKeepsLinesValid | src/cart/cart.service.ts:121-138 | the upsert keeps one line per triple and positive quantities |
| Cart.AddKeepsTablesValid | src/cart/cart.service.ts:82-142 | adding to the cart keeps one cart per user and lines inside existing carts |
| Cart.GetCart | src/cart/cart.service.ts:9-80 | returns the user's cart, creating an empty one if there is none |
| Cart.AddItemToCart | src/cart/cart.service.ts:82-142 | NotFound for a missing or deleted variant or product; BadRequest when the quantity already in the cart plus the request exceeds stock (null as 0); otherwise the upsert |
| Cart.AddStaysWithinStock | src/cart/cart.service.ts:105-118 | while each variant sits on one line, a successful add leaves that line within stock |
| Cart.UpdateCartItemQuantity | src/cart/cart.service.ts:144-186 | NotFound for a line not in the user's cart or whose variant or product is gone; quantity ≤ 0 deletes the line without a stock check; above stock fails; otherwise the quantity is set exactly |
| Cart.RemoveCartItem | src/cart/cart.service.ts:188-211 | NotFound for a line not owned or deleted; otherwise exactly that line is deleted |
| Promotion.CodeOf | src/promotion/promotion.service.ts:47-50 | finds the code of the row with a given id, when there is one |
| Promotion.CreatePromotion | src/promotion/promotion.service.ts:19-44 | Conflict for a code in use; BadRequest("Percentage value must be between 0 and 100") for a percentage outside 0..100 (other kinds unchecked); omitted dates stored as null |
| Promotion.Patched | src/promotion/promotion.service.ts:52-70 | supplied type, value, description, usage limit and dates are written, the others kept; id, usedCount and isActive are kept |
| Promotion.UpdatePromotion | src/promotion/promotion.service.ts:46-72 | NotFound for an unknown id; BadRequest when the effective percentage is outside 0..100; a database error when a new code is in use; succeeds exactly otherwise, with the row patched as supplied |
| Promotion.CreateKeepsInvariants | src/promotion/promotion.service.ts:19-44 | creation keeps every stored percentage within 0..100 and ids unique |
| Promotion.UpdateKeepsInvariants | src/promotion/promotion.service.ts:46-72 | an update keeps every stored percentage within 0..100 and ids unique |
| Promotion.KindSwitchChecksStoredValue | src/promotion/promotion.service.ts:52-60 | switching to percentage without a new value checks the stored value |
| Promotion.CreateNewPromotionCode | src/promotion/promotion.service.ts:19-44 | the discount table changes exactly as the creation decision says |
| Promotion.UpdatePromotionCode | src/promotion/promotion.service.ts:46-72 | the discount table changes exactly as the update decision says |
| Promotion.RemoveKeepsInvariants | src/promotion/promotion.service.ts:74-84 | deleting a discount keeps percentages in range and ids unique, and no row with that id remains |
| Promotion.RemovePromotionCode | src/promotion/promotion.service.ts:74-84 | NotFound for an unknown id; otherwise exactly that row is removed |
| ProductQuery.ToList | src/products/dto/get-products.dto.ts:8-10 | a single value becomes a one-element list; a list passes unchanged |
| ProductQuery.StockFlag | src/products/dto/get-products.dto.ts:45 | the flag is set iff the raw value is the text "true" or the boolean true |
| ProductQuery.Normalise | src/products/dto/get-products.dto.ts:8-53 | `artistId` and `type` become lists, `stock_status` a flag, the other fields pass unchanged |
| ProductQuery.BuildWhere | src/products/products.service.ts:28-66 | the artist and type filters apply only to non-empty lists, the keyword and status only when truthy, the price range when either bound is truthy, and the stock filter replaces the price range |
| ProductQuery.ZeroBoundNeedsTheOther | src/products/products.service.ts:46-55 | a zero lower bound is sent only when the upper bound is truthy |
| ProductQuery.StockFilterOverridesPrice | src/products/products.service.ts:46-66 | with the stock flag set, price bounds make no difference to the filter |
| ProductQuery.SortOf | src/products/products.service.ts:68-87 | price_asc and price_desc sort by minPrice, oldest by createdAt ascending, anything else by createdAt descending |
| ProductQuery.LimitOf | src/products/products.service.ts:19 | the limit is 20 when absent and at least 1 |
| ProductQuery.PageOfQuery | src/products/products.service.ts:20 | the page is 1 when absent and at least 1 |
| Products.CatalogPrice | src/order/order.service.ts:61-65 | the catalogue price of a variant lies between 0 and its list price |
| Products.ListedPriceAsWritten | src/products/products.service.ts:114-117 | as written, a variant's listed price agrees with the price an order charges exactly when it has no discount |
| Products.AsWrittenDiffersWithDiscount | src/products/products.service.ts:114-117 | price × (1 − d) and price × (100 − d) / 100 differ for every positive price and non-zero d |
| Products.ListedPriceAsWrittenIsWrong | src/products/products.service.ts:113-118 | for list price 100 and discount 10 the listing computes −900 where the order computes 90 |
| Products.ListedPriceAsWrittenNeverPositive | src/products/products.service.ts:113-118 | as written, any discount of at least 1 % gives a non-positive price |
| Products.MaxPriceAsWritten | src/products/products.service.ts:113-125 | as written: the largest computed variant price, minPrice when there are no variants |
| Products.MaxPrice | src/products/products.service.ts:113-125 | the largest catalogue price of the variants, attained by one of them; minPrice when there are none |
| Products.MaxPriceWithinListPrices | src/products/products.service.ts:113-125 | the corrected maxPrice is ≥ 0 and at most some variant's list price |
| Products.Listed | src/products/products.service.ts:113-125 | a listed product carries its row and a maxPrice that bounds every variant's catalogue price and is attained, or minPrice without variants |
| Products.Matching | src/products/products.service.ts:89-100 | the matched rows are exactly the rows the filter accepts |
| Products.ListPage | src/products/products.service.ts:101-135 | a page of at most `limit` listed rows, taken from the matched rows at the skip, with meta from their count |
| Products.GetProducts | src/products/products.service.ts:15-136 | totalItems counts the rows matching the built filter and totalPages = ceil(count / limit); the page holds at most `limit` listed rows, the k-th being matched row (page − 1) × limit + k |
| Products.ListedRowsAreCounted | src/products/products.service.ts:89-110 | count and page use the same filter: totalItems counts the matching rows and every listed row matches |
| Products.PageRowsMatch | src/products/products.service.ts:101-102 | every listed row is one of the matched rows |
| Products.CountedRowsAreListed | src/products/products.service.ts:89-131 | every counted row is listed on some page within totalPages |
| Products.SamePagingFilter | src/products/products.service.ts:28-66 | changing the page changes neither the filter nor the limit |
| Products.RowPage | src/products/products.service.ts:101-102 | the k-th matched row is listed on page k / limit + 1, a page within totalPages |
| Products.SameListing | src/products/products.service.ts:28-102 | asking for another page lists the same filtered rows with the same limit |
| Products.GetProductDetail | src/products/products.service.ts:138-153 | NotFound("Product not found") iff no product has the slug and status; otherwise a matching product |
| Products.Skus | src/products/products.service.ts:168-175 | the SKUs of the payload, in order |
| Products.VariantRow | src/products/products.service.ts:203-205 | a created variant gets discountPercent 0 and isPreorder false when omitted |
| Products.ArtistLinks | src/products/products.service.ts:178-231 | artist links are created only for a non-empty list |
| Products.FirstTakenSku | src/products/products.service.ts:168-175 | finds a payload SKU that is already stored, or shows none is |
| Products.ProductCreation | src/products/products.service.ts:155-232 | NotFound for a missing category, BadRequest for an SKU in use, a database error for repeats in the payload or a missing artist; otherwise the product row holding the payload's name, description, short description, type and media gallery (empty when omitted), the default status and minPrice, the category when given, and one variant row per payload variant |
| Products.InsertVariants | src/products/products.service.ts:178-231 | the variant table gains exactly the new ids, and every other row is unchanged |
| Products.InsertedRowsReadBack | src/products/products.service.ts:178-231 | with distinct new ids, each new id holds its own row |
| Products.CreatedVariantsAreSane | src/products/dto/create-product.dto.ts:50-64 | created variants satisfy the price, discount and stock bounds |
| Products.InsertKeepsSkusUnique | src/products/products.service.ts:168-175 | inserting variants with fresh, distinct SKUs keeps SKUs unique |
| Products.CreateKeepsSkusUnique | src/products/products.service.ts:155-232 | product creation keeps SKUs unique |
| Products.CreateNewProductForAdmin | src/products/products.service.ts:155-232 | the product, variant and artist-link tables change exactly as the creation decision says |
| Categories.IsCategoryExists | src/category/category.service.ts:18-33 | false when neither id nor slug is given; otherwise true exactly when a truthy id or a truthy slug names a stored category |
| Categories.StepOfNone | src/category/category.service.ts:134-147 | the ancestor walk stops for good once it runs out of parents |
| Categories.StepAgrees | src/category/category.service.ts:134-147 | changing a row off the chain leaves the chain unchanged |
| Categories.ChainStaysInside | src/category/category.service.ts:134-147 | every ancestor reached is a stored category |
| Categories.ReparentKeepsAcyclic | src/category/category.service.ts:160-167 | moving a category under a parent whose chain does not reach it keeps the hierarchy acyclic |
| Categories.ReparentedChainEnds | src/category/category.service.ts:160-167 | after such a move, every chain still ends |
| Categories.InsertKeepsHierarchyValid | src/category/category.service.ts:86-118 | adding a category under an existing parent keeps the hierarchy valid |
| Categories.CreateCategoryOutcome | src/category/category.service.ts:86-118 | NotFound for a missing parent, Conflict for a name or slug in use, otherwise the row with its slug |
| Categories.CreateKeepsInvariants | src/category/category.service.ts:86-118 | creation keeps the hierarchy valid and names unique |
| Categories.CreateCategory | src/category/category.service.ts:86-118 | the category table changes exactly as the creation decision says |
| Categories.Renamed | src/category/category.service.ts:150-167 | a supplied name and parent are written, others kept; the slug is recomputed only from a truthy name with a non-empty slug |
| Categories.UpdateCategoryOutcome | src/category/category.service.ts:120-180 | BadRequest for a self-parent, NotFound for a missing parent, BadRequest("Circular category hierarchy is not allowed") when the parent's chain reaches the category, NotFound("Category not found") for a missing row, Conflict for a name or slug clash; succeeds exactly otherwise |
| Categories.UpdateKeepsInvariants | src/category/category.service.ts:120-180 | an update keeps the hierarchy acyclic and names unique |
| Categories.ReplaceKeepsHierarchy | src/category/category.service.ts:160-167 | a row whose parent is unchanged, or an existing category whose chain does not reach it, keeps the hierarchy valid |
| Categories.SameParentsAfterReplace | src/category/category.service.ts:160-167 | tables that differ only in one row with the same parent agree on every parent link |
| Categories.ReplaceKeepsNamesUnique | src/category/category.service.ts:150-158 | a row whose name and slug no other row has keeps names unique |
| Categories.SameParentsKeepValid | src/category/category.service.ts:160-167 | a rename that keeps every parent keeps the hierarchy valid |
| Categories.SameParentsSameSteps | src/category/category.service.ts:134-147 | the same parents give the same walk |
| Categories.ReachesCategory | src/category/category.service.ts:134-147 | the ancestor loop ends on an acyclic hierarchy and reports true exactly when the parent's chain reaches the category |
| Categories.UpdateCategory | src/category/category.service.ts:120-180 | the table changes exactly as the update decision says |
| Categories.StepShift | src/category/category.service.ts:134-147 | one more step of the walk is one more parent lookup |
| Categories.StepSplit | src/category/category.service.ts:134-147 | a walk of a + b steps is a walk of b steps from the a-th ancestor |
| Categories.ProductsByCategory | src/category/category.service.ts:39-84 | NotFound("Products not found for this category") iff nothing is in the category; otherwise totalPages = ceil(count / limit) and the page holds at most `limit` rows, the k-th being matched row (page − 1) × limit + k |
| Categories.CategoryProductsAreListed | src/category/category.service.ts:39-84 | every product in the category is listed on the page whose window covers its position (page k / limit + 1, by Pagination.RowIsOnItsPage), a page within totalPages |
| Artists.LiveRows | src/artists/artists.service.ts:17-21 | exactly the artists that are not soft-deleted |
| Artists.GetArtists | src/artists/artists.service.ts:13-36 | as written: the page holds live artists but the count includes deleted ones |
| Artists.GetLiveArtists | src/artists/artists.service.ts:13-36 | corrected: the same page, with meta counting only live artists |
| Artists.ListingReportsAnEmptyPage | src/artists/artists.service.ts:16-21 | with 20 live artists and 1 deleted one, the listing reports 2 pages and page 2 is empty |
| Artists.FilterDropsRejected | src/artists/artists.service.ts:17-21 | a deleted artist is not counted among the live ones |
| Artists.LiveListingHasNoEmptyPages | src/artists/artists.service.ts:13-36 | in the corrected listing every reported page holds an artist |
| Artists.GetArtistDetail | src/artists/artists.service.ts:38-64 | NotFound("Artist not found") iff no live artist has the slug |
| Artists.ArtistCreation | src/artists/artists.service.ts:66-87 | Conflict when the slug of the stage name is in use; otherwise a live artist with that slug and the payload's stage name, bio, avatar and status |
| Artists.CreateArtistForAdmin | src/artists/artists.service.ts:66-87 | the artist table changes exactly as the creation decision says |
| Artists.ArtistUpdate | src/artists/artists.service.ts:89-114 | a database error for an unknown id; Conflict iff the slug clashes; otherwise a supplied stage name, bio, avatar and status are written and the others kept, and the slug changes only with a truthy stage name whose slug is non-empty |
| Artists.EmptySlugKeepsStoredSlug | src/artists/artists.service.ts:89-105 | a truthy stage name that slugifies to the empty string leaves the stored slug in place |
| Artists.CreateKeepsSlugsUnique | src/artists/artists.service.ts:66-87 | creation keeps slugs unique |
| Artists.UpdateKeepsSlugsUnique | src/artists/artists.service.ts:89-114 | an update keeps slugs unique |
| Artists.UpdateArtistForAdmin | src/artists/artists.service.ts:89-114 | the artist table changes exactly as the update decision says |
| Artists.ArtistDeletion | src/artists/artists.service.ts:116-145 | NotFound for an unknown id; an artist in any order is soft-deleted (status "deleted", deletedAt set); otherwise the row is removed |
| Artists.DeletedArtistIsHidden | src/artists/artists.service.ts:116-145 | after a delete the artist is no longer live |
| Artists.DeleteArtistForAdmin | src/artists/artists.service.ts:116-145 | the artist table changes exactly as the deletion decision says |
| Formatters.PermissionNames | src/shared/helper/formatRoleResponse.ts:6-8 | one name per permission link, in order |
| Formatters.FormatRoleResponse | src/shared/helper/formatRoleResponse.ts:3-13 | the role's own fields, and its permissions as their names, one per link and in order |
| Formatters.PermissionNamesAppend | src/shared/helper/formatRoleResponse.ts:6-8 | nothing is merged, dropped or reordered |
| Formatters.SplitLabel | src/shared/helper/formatUserResponse.ts:15 | splits a label at its first '.' |
| Formatters.LabelRoundTrip | src/shared/helper/formatUserResponse.ts:15 | a "resource.action" label splits back into the resource and the action |
| Formatters.SplitAtFirstDot | src/shared/helper/formatUserResponse.ts:15 | text joined at a '.' after a dot-free part splits back into its parts |
| Formatters.PermissionLabels | src/shared/helper/formatUserResponse.ts:12-17 | one label per permission link, in order |
| Formatters.FormatPermission | src/shared/helper/formatUserResponse.ts:3-21 | the user's fields, and one role entry per user role, in order, with the role's id, name and labels |
| Formatters.LabelFallsBackToName | src/shared/helper/formatUserResponse.ts:15 | a permission without a resource or an action is listed under its name |
| Formatters.SummaryOf | src/shared/helper/formatCartResponse.ts:14-21 | the variant projection holds exactly the six copied fields; a missing variant leaves them undefined |
| Formatters.FormatCartResponse | src/shared/helper/formatCartResponse.ts:3-21 | the line's own fields, four product fields (undefined without a product) and the variant projection |
| Formatters.CartResponseIsAProjection | src/shared/helper/formatCartResponse.ts:3-21 | lines that agree on the projected fields format alike |
| Roles.PermissionsOf | src/roles/roles.service.ts:20-29 | a role's links joined to their permissions, in link order |
| Roles.RoleRowOf | src/roles/roles.service.ts:20-29 | a role with the permissions it is linked to |
| Roles.GetRoles | src/roles/roles.service.ts:16-31 | exactly the roles that are not soft-deleted, each formatted |
| Roles.FinalPermissionIds | src/roles/roles.service.ts:41 | the requested ids without repeats, or none when absent |
| Roles.MissingPermissions | src/roles/roles.service.ts:43-59 | BadRequest listing the unknown ids iff some id is unknown |
| Roles.RoleCreation | src/roles/roles.service.ts:33-83 | Conflict for a name in use, even by a deleted role; BadRequest for unknown permissions; otherwise the role linked to each requested permission once |
| Roles.CreateKeepsRolesValid | src/roles/roles.service.ts:61-80 | the created role's permission set is the requested set and role names stay unique |
| Roles.CreateNewRoleForAdmin | src/roles/roles.service.ts:33-83 | the role and link tables change exactly as the creation decision says |
| Roles.RoleUpdate | src/roles/roles.service.ts:85-144 | NotFound for an unknown id; Conflict when a new truthy name is held by another role; BadRequest listing unknown permissions; a database error for an empty name held elsewhere; succeeds exactly otherwise, so keeping the name is allowed; name and description change only when given; permissions are replaced only when given |
| Roles.UpdateKeepsRolesValid | src/roles/roles.service.ts:118-141 | an update keeps the tables valid, and an empty permission list clears the role's links |
| Roles.UpdateRoleForAdmin | src/roles/roles.service.ts:85-144 | the role and link tables change exactly as the update decision says; links untouched when no list is given |
| Roles.DeletedName | src/roles/roles.service.ts:170 | the deleted name is the old name followed by `_deleted_` and more |
| Roles.WithoutRole | src/roles/roles.service.ts:160-162 | every user keeps exactly their other roles |
| Roles.RoleDeletion | src/roles/roles.service.ts:146-175 | NotFound for a missing or deleted role; a database error when the new name is taken; succeeds exactly otherwise, with the role marked deleted and renamed `<name>_deleted_<now>`, and every user losing it |
| Roles.DeleteRevokesRole | src/roles/roles.service.ts:158-174 | after a delete no user holds the role, all other links stay, the role's permission links are kept and names stay unique |
| Roles.DeleteRoleForAdmin | src/roles/roles.service.ts:146-175 | the role and user-role tables change exactly as the deletion decision says |
| Staff.GetAllStaff | src/staff/staff.service.ts:17-43 | exactly the users whose status is not "deleted" and who hold a role, each formatted |
| Staff.UserRoleRows | src/staff/staff.service.ts:90-104 | a user's role links joined to the roles and their permissions, in link order |
| Staff.MissingRoles | src/staff/staff.service.ts:56-73 | BadRequest listing the unknown role ids iff some id is unknown |
| Staff.StaffRegistration | src/staff/staff.service.ts:45-108 | Conflict for an email in use; repeated role ids merged silently; BadRequest for unknown roles; the row stores the password's hash and one link per distinct role |
| Staff.RegisterKeepsEmailsUnique | src/staff/staff.service.ts:45-108 | registration keeps emails unique |
| Staff.RegisterStaffForAdmin | src/staff/staff.service.ts:45-108 | the user and user-role tables change exactly as the registration decision says |
| Staff.StaffUpdate | src/staff/staff.service.ts:110-185 | NotFound for a missing or deleted user; BadRequest for repeated role ids; BadRequest("Some roles do not exist: …") listing unknown roles; succeeds exactly otherwise; the hash changes only with a password, roles only when given |
| Staff.RegisterMergesWhatUpdateRefuses | src/staff/staff.service.ts:54-124 | a role list with a repeat is merged by registration and refused by an update |
| Staff.UpdateStaffForAdmin | src/staff/staff.service.ts:110-185 | the user and user-role tables change exactly as the update decision says |
| Staff.StaffDeletion | src/staff/staff.service.ts:187-202 | NotFound for a missing or deleted user; a database error when `deleted_<email>` is taken; succeeds exactly otherwise, with status "deleted", email prefixed with "deleted_", deletedAt set |
| Staff.DeleteReleasesEmail | src/staff/staff.service.ts:187-202 | a delete keeps emails unique, frees the old email and cannot be repeated |
| Staff.DeleteAccountForAdmin | src/staff/staff.service.ts:187-202 | the user table changes exactly as the deletion decision says |
| KeyValue.Lookup | src/auth/auth.service.ts:143 | GET answers the value of a key whose expiry has not passed |
| KeyValue.TimeToLive | src/user/user.service.ts:92 | TTL is −2 for an absent key and otherwise the positive seconds left |
| KeyValue.WrittenKeyReadsBack | src/auth/auth.service.ts:71 | a key set with `EX` reads back until it expires and has the full TTL left |
| KeyValue.Redis.Set | src/auth/auth.service.ts:71 | SET replaces the key's value and expiry |
| KeyValue.Redis.Del | src/auth/auth.service.ts:88 | DEL removes exactly the key |
| Auth.KeysOfOneOwner | src/auth/auth.service.ts:68 | a whitelist key carries its subject's prefix, and a subject's keys differ exactly when their token ids do |
| Auth.OwnersDoNotShareKeys | src/auth/auth.service.ts:118 | for colon-free subjects, one subject's pattern matches no key of another |
| Auth.UserRegistration | src/auth/auth.service.ts:27-45 | Conflict for an email in use; otherwise the row holds the password's hash, never the password |
| Auth.RegistrationKeepsEmailsUnique | src/auth/auth.service.ts:27-45 | registration keeps emails unique |
| Auth.RegisterUserForClient | src/auth/auth.service.ts:27-45 | the user table changes exactly as the registration decision says |
| Auth.ValidateUser | src/auth/auth.service.ts:47-61 | a user is returned iff the account has a hash and the password matches it; the result omits the hash |
| Auth.GeneratedTokensCarryClaims | src/auth/auth.service.ts:97-115 | both tokens carry the user, the email and the token id, and the refresh token's claims name the whitelist key the login writes |
| Auth.Login | src/auth/auth.service.ts:63-77 | exactly one whitelist entry is added, holding the refresh token for 604800 s |
| Auth.LogoutOutcome | src/auth/auth.service.ts:79-95 | an unverifiable token gives "Invalid refresh token"; another user's token gives "Invalid token for user" and deletes nothing; otherwise exactly that key is deleted |
| Auth.LogoutEndsOneToken | src/auth/auth.service.ts:79-95 | logout ends the presented token and no other of the user's tokens |
| Auth.Logout | src/auth/auth.service.ts:79-95 | the store changes exactly as the logout decision says |
| Auth.Revoked | src/auth/auth.service.ts:117-136 | the store without exactly the keys with the user's prefix |
| Auth.RevokeAllTokens | src/auth/auth.service.ts:117-136 | the unlink loop deletes every key with the user's prefix and no other |
| Auth.RefreshOutcome | src/auth/auth.service.ts:138-171 | Forbidden for a missing key; Forbidden after revoking all the subject's keys when the stored token differs; otherwise the old key is replaced by a new key holding the new refresh token |
| Auth.LoginThenRefresh | src/auth/auth.service.ts:63-164 | a token from login refreshes while its entry lives |
| Auth.RefreshTokenIsSingleUse | src/auth/auth.service.ts:154-164 | after a refresh, presenting the same token again is refused and changes nothing |
| Auth.ReuseRevokesEverySession | src/auth/auth.service.ts:150-153 | presenting a stale token ends every session of its subject and touches no other key |
| Auth.RefreshTokens | src/auth/auth.service.ts:138-171 | the store changes exactly as the refresh decision says |
| Accounts.UserProfile | src/user/user.service.ts:35-43 | NotFound("User doesn't exist") iff there is no such user |
| Accounts.ProfileUpdate | src/user/user.service.ts:45-53 | NotFound for an unknown user; only the given fields change |
| Accounts.ProfileUpdateKeepsEmailsUnique | src/user/user.service.ts:45-53 | a profile update keeps emails unique |
| Accounts.UpdateProfileInfo | src/user/user.service.ts:45-53 | the user table changes exactly as the update decision says |
| Accounts.PasswordChange | src/user/user.service.ts:55-78 | BadRequest when the new password equals the old one, before any lookup; NotFound without a user or hash; BadRequest for a wrong old password; otherwise only the hash changes |
| Accounts.PasswordChangeSwapsCredentials | src/user/user.service.ts:66-77 | after a change the new password is accepted and the old one refused |
| Accounts.ChangePassword | src/user/user.service.ts:55-78 | the user table changes exactly as the change decision says |
| Accounts.VerificationRequest | src/user/user.service.ts:80-115 | a verified user is refused, a missing user is not; refused while more than 780 s are left on the old token; otherwise the token is stored for 900 s |
| Accounts.RequestsAreThrottled | src/user/user.service.ts:92-105 | after a granted request, another is refused exactly during the next 120 s |
| Accounts.RequestVerificationEmail | src/user/user.service.ts:80-115 | the store changes exactly as the request decision says |
| Accounts.TokenVerification | src/user/user.service.ts:117-133 | BadRequest for a missing or different token; otherwise the key is deleted and the user marked verified |
| Accounts.TokenVerifiesOnce | src/user/user.service.ts:117-133 | a requested token verifies the account while it lives, and a second use is refused |
| Accounts.VerificationToken | src/user/user.service.ts:117-133 | the store and the user table change exactly as the verification decision says |
| Guard.Lower | src/permissions/permissions.guard.ts:56-59 | lowercases ASCII letters, one character for one |
| Guard.LowerIsIdempotent | src/permissions/permissions.guard.ts:56-59 | lowercasing twice is lowercasing once |
| Guard.HeldPermissions | src/permissions/permissions.guard.ts:37-56 | exactly the lowercased names of the permissions linked to a role the user holds |
| Guard.CanActivate | src/permissions/permissions.guard.ts:19-70 | no required permission admits; a missing user or subject gives Unauthorized; otherwise admitted iff the lowercased `<resource>_<action>` is held, else Forbidden, never false |
| Guard.MatchingIgnoresCase | src/permissions/permissions.guard.ts:56-61 | a permission named in any case admits a handler spelling it in any case |
| Guard.NoRoleNoAccess | src/permissions/permissions.guard.ts:37-69 | a user without roles is refused every guarded handler |
| Guard.DeletedRoleGrantsNothing | src/permissions/permissions.guard.ts:37-56 | after a role is deleted, a user keeps exactly the permissions of their other roles |

## Left out

- Concurrency: the order transaction is modelled as one sequential step. No claim is made about overselling when requests interleave, because the stock check runs outside the transaction.
- Prisma's evaluation of a `where`, and the row order of `findMany`, are parameters. Listings take the rows in database order, and `Products.GetProducts` takes the filter's meaning as a function.
- Catalogue sort: `ProductQuery.SortOf` selects the order, but sorting itself is done by the database and is not modelled.
- Mail sending, the verification URL, JWT expiry times, bcrypt's cost factor and `crypto.randomBytes` are parameters or not modelled.
- Column defaults: product status, minPrice, user status and isVerified are parameters. A product created without a media gallery stores an empty one (`Products.ProductCreation`). A new discount's usedCount 0 and isActive true are modelled as the constants `Promotion.InitialUsedCount` and `Promotion.InitialIsActive`. No other column default is modelled.
- Float conversions: the response DTOs' `DecimalToNumber` and the `Number(...)` arithmetic of maxPrice are modelled in exact reals.
- Number conversions of query parameters: non-integer `limit` and `page` are not modelled.
- JavaScript `undefined` and `null` are both `None`. In the formatted cart response, a missing product or variant and a null column look alike.
- Products.GetProducts: the listing's maxPrice is computed with the catalogue price an order charges, not with the formula the listing code uses; that formula is modelled as written in Products.ListedPriceAsWritten and Products.MaxPriceAsWritten, and the difference is under "## Findings".
- Products.ListPage and Products.Listed: the same substitution of the corrected maxPrice.
- Artists.ArtistDeletion: the effect of a hard delete on the product–artist link rows is not modelled, because it depends on the schema's cascade rules, which are not part of this model.
- Products.VariantRow, Products.ProductCreation, Artists.ArtistCreation and Artists.ArtistUpdate: a variant's nested `attributes` (src/products/products.service.ts:206-216) and an artist's free-form `metadata` (src/artists/dto/create-artist.dto.ts:19, src/artists/dto/update-artist.dto.ts:19) are not modelled. They are written as given and take part in no check.
- ProductQuery.BuildWhere and Products.GetProducts: the filter is modelled with the keys the listing code writes: `artistId` on the product, and `variants` with `price` and `stock`. Elsewhere the code reaches artists through `productArtists` and variants through `productVariants`, whose columns are `originalPrice` and `stockQuantity` (src/products/products.service.ts:105, 198-204). If the schema uses those names, the database rejects every listing query that carries an artist, price or stock filter. The schema is not part of this model, so the listing takes the filter's meaning as a parameter and the model promises nothing about those three filters.
- Artists.ArtistCreation: only the slug is treated as unique. Whether the stage name column has its own unique index is not part of this model.
- Cart.AddItemToCart: the `findFirst` on (cart, variant) may return any matching line. It is proved within stock only while each variant sits on one line of a cart.
- Auth.RevokeAllTokens: keys are unlinked one at a time rather than in chunks of 100. A subject containing glob characters (`*`, `?`, `[`) would match other keys in Redis; the model treats the pattern as a plain prefix.
- Guard.Lower: only ASCII letters are lowercased; Unicode case mapping is not modelled.
- Staff.UserRoleRows and Roles.PermissionsOf: a dangling link joins to nothing. The database's foreign keys rule out dangling links, and the model does not assume them.
- Methods that the controllers call but whose bodies are not among the service files are not modelled. These are the admin order queries and status change, the product update and removal, and category deletion.
- The seed script, the controllers, modules, DTO classes and `main.ts` are not modelled. The DTO bounds appear as preconditions: quantities ≥ 1, prices ≥ 0 and discounts in 0..100.

## Findings

| source | as written | input that shows it | evidently intended | confidence | as-written member | corrected member |
|---|---|---|---|---|---|---|
| src/products/products.service.ts:113-118 | a variant's listed price is originalPrice × (1 − discountPercent), with the percentage not divided by 100 | originalPrice 100, discountPercent 10: listed price −900, maxPrice falls back to another variant or is negative | originalPrice × (100 − discountPercent) / 100, as order placement charges (90 here) | high (not executed) | Products.ListedPriceAsWritten, Products.MaxPriceAsWritten, Products.ListedPriceAsWrittenIsWrong | Products.CatalogPrice, Products.MaxPrice, Products.MaxPriceWithinListPrices |
| src/artists/artists.service.ts:16-21 | totalItems counts every artist row, soft-deleted ones included, while the page lists only live artists | 20 live artists and 1 deleted, limit 20: totalPages is 2 and page 2 is empty | the count uses the same filter as the page | high (not executed) | Artists.GetArtists, Artists.ListingReportsAnEmptyPage | Artists.GetLiveArtists, Artists.LiveListingHasNoEmptyPages |
