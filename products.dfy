/** The catalogue (src/products/products.service.ts): the paginated listing with each
    product's highest variant price, the detail lookup by slug, and product creation with its
    variants. */
module Products {
  import opened Common
  import opened Schema
  import opened Pricing
  import opened Pagination
  import opened ProductQuery
  import Categories

  /** A product row with the variants the listing includes (all of them, soft-deleted ones
      too). */
  datatype ProductRow = ProductRow(id: string, product: Product, variants: seq<Variant>)

  /** A listed product: the row and its `maxPrice`. */
  datatype ListedProduct = ListedProduct(row: ProductRow, maxPrice: real)

  /** The price of a variant in the listing as the service computes it: a truthy discount is
      applied as `original * (1 - discount)`, although discounts are stored as percentages. */
  function ListedPriceAsWritten(v: Variant): (r: real)
    ensures SaneVariant(v) && v.originalPrice > 0.0 ==> (r == CatalogPrice(v) <==> DiscountOf(v) == 0.0)
  {
    if v.discountPercent.Some? && v.discountPercent.value != 0.0 then
      if v.originalPrice > 0.0 then
        AsWrittenDiffersWithDiscount(v.originalPrice, v.discountPercent.value);
        v.originalPrice * (1.0 - v.discountPercent.value)
      else v.originalPrice * (1.0 - v.discountPercent.value)
    else v.originalPrice
  }

  /** The price an order charges for one unit of the variant. */
  function CatalogPrice(v: Variant): (r: real)
    ensures SaneVariant(v) ==> 0.0 <= r <= v.originalPrice
    ensures DiscountOf(v) == 0.0 ==> r == v.originalPrice
  {
    UnitPrice(v.originalPrice, DiscountOf(v))
  }

  /** `original * (1 - d)` and `original * (100 - d) / 100` differ on a positive price for
      every non-zero discount. */
  lemma AsWrittenDiffersWithDiscount(o: real, d: real)
    requires o > 0.0 && d != 0.0
    ensures o * (1.0 - d) != UnitPrice(o, d)
  {
    assert UnitPrice(o, d) == o * ((100.0 - d) / 100.0);
    assert o * (1.0 - d) - o * ((100.0 - d) / 100.0) == o * (d / 100.0 - d);
    assert d / 100.0 - d != 0.0;
    assert o * (d / 100.0 - d) != 0.0;
  }

  /** A 10% discount on a price of 100 is listed at -900 instead of 90. */
  lemma ListedPriceAsWrittenIsWrong()
    ensures var v := Variant("product", "SKU-1", "Standard", 100.0, Some(10.0), Some(5), false, None);
      SaneVariant(v) && ListedPriceAsWritten(v) == -900.0 && CatalogPrice(v) == 90.0
  {
    var v := Variant("product", "SKU-1", "Standard", 100.0, Some(10.0), Some(5), false, None);
    assert UnitPrice(100.0, 10.0) == 100.0 * (90.0 / 100.0);
  }

  /** Every discount of one percent or more drives the as-written listed price to zero or below. */
  lemma ListedPriceAsWrittenNeverPositive(v: Variant)
    requires SaneVariant(v) && DiscountOf(v) >= 1.0
    ensures ListedPriceAsWritten(v) <= 0.0
  {
    var d := v.discountPercent.value;
    assert ListedPriceAsWritten(v) == v.originalPrice * (1.0 - d);
    ProductNonNegative(v.originalPrice, d - 1.0);
    assert v.originalPrice * (1.0 - d) == -(v.originalPrice * (d - 1.0));
  }

  /** The highest price among the variants as the service computes it. */
  function MaxPriceAsWritten(variants: seq<Variant>, minPrice: real): (r: real)
    ensures |variants| == 0 ==> r == minPrice
    ensures forall v :: v in variants ==> ListedPriceAsWritten(v) <= r
  {
    if |variants| == 0 then minPrice
    else if |variants| == 1 then ListedPriceAsWritten(variants[0])
    else
      var rest := MaxPriceAsWritten(variants[..|variants| - 1], minPrice);
      var last := ListedPriceAsWritten(variants[|variants| - 1]);
      assert forall v :: v in variants ==> v in variants[..|variants| - 1] || v == variants[|variants| - 1];
      if last > rest then last else rest
  }

  /** `maxPrice`: the highest price among the variants, each at the price an order charges;
      the product's `minPrice` when it has none. */
  function MaxPrice(variants: seq<Variant>, minPrice: real): (r: real)
    ensures |variants| == 0 ==> r == minPrice
    ensures forall v :: v in variants ==> CatalogPrice(v) <= r
    ensures |variants| > 0 ==> exists v :: v in variants && CatalogPrice(v) == r
  {
    if |variants| == 0 then minPrice
    else if |variants| == 1 then CatalogPrice(variants[0])
    else
      var rest := MaxPrice(variants[..|variants| - 1], minPrice);
      var last := CatalogPrice(variants[|variants| - 1]);
      assert forall v :: v in variants ==> v in variants[..|variants| - 1] || v == variants[|variants| - 1];
      assert forall v :: v in variants[..|variants| - 1] ==> v in variants;
      if last > rest then last else rest
  }

  /** With the bounds the product form enforces, the listed maximum is never negative and never
      above the list price of the variant it comes from. */
  lemma MaxPriceWithinListPrices(variants: seq<Variant>, minPrice: real)
    requires |variants| > 0 && forall v :: v in variants ==> SaneVariant(v)
    ensures 0.0 <= MaxPrice(variants, minPrice)
    ensures exists v :: v in variants && MaxPrice(variants, minPrice) <= v.originalPrice
  {
    var m := MaxPrice(variants, minPrice);
    assert exists v :: v in variants && CatalogPrice(v) == m;
    var v :| v in variants && CatalogPrice(v) == m;
    assert 0.0 <= CatalogPrice(v) <= v.originalPrice;
  }

  /** A listed product: the row with the highest price an order would charge for one of its
      variants, or the product's `minPrice` when it has none. */
  function Listed(row: ProductRow): (r: ListedProduct)
    ensures r.row == row
    ensures |row.variants| == 0 ==> r.maxPrice == row.product.minPrice
    ensures forall v :: v in row.variants ==> CatalogPrice(v) <= r.maxPrice
    ensures |row.variants| > 0 ==> exists v :: v in row.variants && CatalogPrice(v) == r.maxPrice
  {
    ListedProduct(row, MaxPrice(row.variants, row.product.minPrice))
  }

  /** The catalogue rows the database finds for a filter, in the listing's order. */
  function Matching(rows: seq<ProductRow>, w: Where, matches: (Where, ProductRow) -> bool): (r: seq<ProductRow>)
    ensures forall x :: x in r <==> x in rows && matches(w, x)
  {
    Filter(rows, (row: ProductRow) => matches(w, row))
  }

  /** A page of listed products cut from the filtered catalogue. */
  function ListPage(matched: seq<ProductRow>, page: int, limit: int): (r: Page<ListedProduct>)
    requires page >= 1 && limit >= 1
    ensures r.meta == PageMeta(|matched|, page, limit)
    ensures |r.data| <= limit && |r.data| == |Window(matched, Skip(page, limit), limit)|
    ensures forall k :: 0 <= k < |r.data| ==> Skip(page, limit) + k < |matched| && r.data[k] == Listed(matched[Skip(page, limit) + k])
  {
    var window := Window(matched, Skip(page, limit), limit);
    Page(seq(|window|, k requires 0 <= k < |window| => Listed(window[k])), PageMeta(|matched|, page, limit))
  }

  /** `getProducts`. `rows` is the catalogue in the order `SortOf(q.sort)` asks the database
      for, and `matches` is the database's evaluation of a filter. The count and the page are
      taken from the same filter. */
  function GetProducts(rows: seq<ProductRow>, q: ProductsQuery, status: Option<string>,
                       matches: (Where, ProductRow) -> bool): (r: Page<ListedProduct>)
    requires ValidPaging(q.limit, q.page)
    ensures var matched := Matching(rows, BuildWhere(q, status), matches);
      var page, limit := PageOfQuery(q), LimitOf(q);
      && r.meta.totalItems == |matched| && r.meta.totalPages == TotalPages(|matched|, limit)
      && r.meta.currentPage == page && r.meta.limit == limit
      && |r.data| <= limit
      && forall k :: 0 <= k < |r.data| ==> Skip(page, limit) + k < |matched| && r.data[k] == Listed(matched[Skip(page, limit) + k])
  {
    ListPage(Matching(rows, BuildWhere(q, status), matches), PageOfQuery(q), LimitOf(q))
  }

  /** Every listed product satisfies the filter the total counts. */
  lemma ListedRowsAreCounted(rows: seq<ProductRow>, q: ProductsQuery, status: Option<string>,
                             matches: (Where, ProductRow) -> bool)
    requires ValidPaging(q.limit, q.page)
    ensures GetProducts(rows, q, status, matches).meta.totalItems == |Matching(rows, BuildWhere(q, status), matches)|
    ensures forall x :: x in GetProducts(rows, q, status, matches).data ==>
      x.row in rows && matches(BuildWhere(q, status), x.row)
  {
    var w := BuildWhere(q, status);
    PageRowsMatch(Matching(rows, w, matches), PageOfQuery(q), LimitOf(q));
  }

  lemma PageRowsMatch(matched: seq<ProductRow>, page: int, limit: int)
    requires page >= 1 && limit >= 1
    ensures forall x :: x in ListPage(matched, page, limit).data ==> x.row in matched
  {
    var r := ListPage(matched, page, limit);
    forall x | x in r.data
      ensures x.row in matched
    {
      var k :| 0 <= k < |r.data| && r.data[k] == x;
      assert matched[Skip(page, limit) + k] in matched;
    }
  }

  /** Every product the total counts is listed on some page within the reported page count:
      the row at position `k` of the filtered catalogue is on page `k / limit + 1`. */
  lemma CountedRowsAreListed(rows: seq<ProductRow>, q: ProductsQuery, status: Option<string>,
                             matches: (Where, ProductRow) -> bool, row: ProductRow)
    requires ValidPaging(q.limit, q.page)
    requires row in rows && matches(BuildWhere(q, status), row)
    ensures exists page: int :: (1 <= page <= GetProducts(rows, q, status, matches).meta.totalPages &&
      Listed(row) in GetProducts(rows, q.(page := Some(page)), status, matches).data)
  {
    var matched := Matching(rows, BuildWhere(q, status), matches);
    var limit := LimitOf(q);
    assert row in matched;
    var k :| 0 <= k < |matched| && matched[k] == row;
    var page := RowPage(matched, limit, k);
    SameListing(rows, q, status, matches, page);
  }

  /** The `k`-th matched row is listed on page `k / limit + 1`, within the page count. */
  lemma RowPage(matched: seq<ProductRow>, limit: int, k: nat) returns (page: int)
    requires limit >= 1 && k < |matched|
    ensures page == k / limit + 1 && 1 <= page <= TotalPages(|matched|, limit)
    ensures Listed(matched[k]) in ListPage(matched, page, limit).data
  {
    page := k / limit + 1;
    RowIsOnItsPage(matched, limit, k);
    var r := ListPage(matched, page, limit);
    assert r.data[k - Skip(page, limit)] == Listed(matched[k]);
  }

  /** Asking for another page lists the same filtered catalogue with the same limit. */
  lemma SameListing(rows: seq<ProductRow>, q: ProductsQuery, status: Option<string>,
                    matches: (Where, ProductRow) -> bool, page: int)
    requires ValidPaging(q.limit, q.page) && page >= 1
    ensures ValidPaging(q.(page := Some(page)).limit, q.(page := Some(page)).page)
    ensures GetProducts(rows, q.(page := Some(page)), status, matches)
         == ListPage(Matching(rows, BuildWhere(q, status), matches), page, LimitOf(q))
  {
    SamePagingFilter(q, status, page);
  }

  lemma SamePagingFilter(q: ProductsQuery, status: Option<string>, page: int)
    requires ValidPaging(q.limit, q.page) && page >= 1
    ensures ValidPaging(q.(page := Some(page)).limit, q.(page := Some(page)).page)
    ensures BuildWhere(q.(page := Some(page)), status) == BuildWhere(q, status)
    ensures LimitOf(q.(page := Some(page))) == LimitOf(q) && PageOfQuery(q.(page := Some(page))) == page
  {
  }

  /** `getProductDetail`: some product with the slug (and the status, when one is given). */
  method GetProductDetail(db: Db, slug: string, status: Option<string>) returns (r: Result<string>)
    ensures r.Err? <==> !exists id :: id in db.products && DetailMatches(db.products[id], slug, status)
    ensures r.Err? ==> r == Err(NotFound("Product not found"))
    ensures r.Ok? ==> r.value in db.products && DetailMatches(db.products[r.value], slug, status)
  {
    if id :| id in db.products && DetailMatches(db.products[id], slug, status) {
      return Ok(id);
    }
    return Err(NotFound("Product not found"));
  }

  /** `where: { slug, ...(status && { status }) }`: a soft-deleted product still matches. */
  predicate DetailMatches(p: Product, slug: string, status: Option<string>) {
    p.slug == Some(slug) && (Truthy(status) ==> p.status == status.value)
  }

  /** A variant of the creation form. */
  datatype NewVariant = NewVariant(
    sku: string,
    name: string,
    originalPrice: real,
    discountPercent: Option<real>,
    stockQuantity: int,
    isPreorder: Option<bool>)

  /** The creation form. */
  datatype NewProduct = NewProduct(
    name: string,
    description: Option<string>,
    shortDescription: Option<string>,
    categoryId: Option<string>,
    productType: string,
    mediaGallery: Option<seq<string>>,
    artistIds: Option<seq<string>>,
    variants: seq<NewVariant>)

  /** The bounds the creation form validates on each variant. */
  predicate ValidNewVariant(v: NewVariant) {
    v.originalPrice >= 0.0 && v.stockQuantity >= 0
    && (v.discountPercent.Some? ==> 0.0 <= v.discountPercent.value <= 100.0)
  }

  /** The values the database fills in for a new product's status and minimum price. */
  datatype ColumnDefaults = ColumnDefaults(status: string, minPrice: real)

  function Skus(variants: seq<NewVariant>): (r: seq<string>)
    ensures |r| == |variants| && forall i :: 0 <= i < |r| ==> r[i] == variants[i].sku
  {
    seq(|variants|, i requires 0 <= i < |variants| => variants[i].sku)
  }

  /** The stored variant: `discountPercent || 0` and `isPreorder || false`. */
  function VariantRow(productId: string, v: NewVariant): (r: Variant)
    ensures r.productId == productId && r.sku == v.sku && r.name == v.name && r.originalPrice == v.originalPrice
    ensures r.discountPercent.Some? && r.stockQuantity == Some(v.stockQuantity) && r.deletedAt.None?
    ensures r.discountPercent.value == (if v.discountPercent.Some? then v.discountPercent.value else 0.0)
    ensures r.isPreorder <==> v.isPreorder == Some(true)
  {
    Variant(productId, v.sku, v.name, v.originalPrice,
            Some(if v.discountPercent.Some? then v.discountPercent.value else 0.0),
            Some(v.stockQuantity), if v.isPreorder.Some? then v.isPreorder.value else false, None)
  }

  /** Artists to link: only a non-empty `artistIds` creates links. */
  function ArtistLinks(p: NewProduct): (r: seq<string>)
    ensures p.artistIds.Some? && |p.artistIds.value| > 0 ==> r == p.artistIds.value
    ensures !(p.artistIds.Some? && |p.artistIds.value| > 0) ==> r == []
  {
    if p.artistIds.Some? && |p.artistIds.value| > 0 then p.artistIds.value else []
  }

  datatype CreatedProduct = CreatedProduct(id: string, product: Product, variants: seq<Variant>, artistIds: seq<string>)

  /** A SKU of the form that an existing variant (soft-deleted or not) already holds. */
  predicate SkuTaken(existing: map<string, Variant>, skus: seq<string>, sku: string) {
    sku in skus && exists k :: k in existing && existing[k].sku == sku
  }

  /** One SKU of the form that is already taken, if any. */
  function FirstTakenSku(existing: map<string, Variant>, skus: seq<string>): (r: Option<string>)
    ensures r.Some? ==> SkuTaken(existing, skus, r.value)
    ensures r.None? ==> forall s :: !SkuTaken(existing, skus, s)
    decreases |skus|
  {
    if skus == [] then None
    else if exists k :: k in existing && existing[k].sku == skus[0] then Some(skus[0])
    else
      var r := FirstTakenSku(existing, skus[1..]);
      assert forall s :: s in skus ==> s == skus[0] || s in skus[1..];
      assert r.None? ==> forall s :: !SkuTaken(existing, skus, s) by {
        if r.None? {
          forall s
            ensures !SkuTaken(existing, skus, s)
          {
            if s in skus && s != skus[0] {
              assert !SkuTaken(existing, skus[1..], s);
            }
          }
        }
      }
      r
  }

  /** `createNewProductForAdmin`: the rows it creates, or why it refuses. After the category and
      SKU checks, a SKU repeated within the form, an unknown artist or an artist listed twice
      makes the nested create fail with a database error the service does not catch. */
  function ProductCreation(categories: map<string, Category>, existing: map<string, Variant>, artists: set<string>,
                           p: NewProduct, newId: string, defaults: ColumnDefaults): (r: Result<CreatedProduct>)
    ensures Truthy(p.categoryId) && p.categoryId.value !in categories ==>
      r == Err(NotFound("Category with ID " + p.categoryId.value + " not found"))
    ensures !(Truthy(p.categoryId) && p.categoryId.value !in categories) && (exists s :: SkuTaken(existing, Skus(p.variants), s)) ==>
      exists s :: SkuTaken(existing, Skus(p.variants), s) && r == Err(BadRequest("SKU '" + s + "' already exists"))
    ensures r.Ok? <==> && (Truthy(p.categoryId) ==> p.categoryId.value in categories)
                       && (forall s :: !SkuTaken(existing, Skus(p.variants), s))
                       && NoDuplicates(Skus(p.variants))
                       && NoDuplicates(ArtistLinks(p))
                       && (forall a :: a in ArtistLinks(p) ==> a in artists)
    ensures r.Ok? ==> && r.value.id == newId
                      && r.value.product.name == p.name
                      && r.value.product.description == p.description
                      && r.value.product.shortDescription == p.shortDescription
                      && r.value.product.productType == p.productType
                      && r.value.product.status == defaults.status
                      && r.value.product.minPrice == defaults.minPrice
                      && r.value.product.mediaGallery == (if p.mediaGallery.Some? then p.mediaGallery.value else [])
                      && r.value.product.categoryId == (if Truthy(p.categoryId) then p.categoryId else None)
                      && r.value.product.slug.None?
                      && r.value.product.deletedAt.None?
                      && |r.value.variants| == |p.variants|
                      && (forall i :: 0 <= i < |p.variants| ==> r.value.variants[i] == VariantRow(newId, p.variants[i]))
                      && r.value.artistIds == ArtistLinks(p)
  {
    if Truthy(p.categoryId) && !Categories.IsCategoryExists(categories, p.categoryId, None) then
      Err(NotFound("Category with ID " + p.categoryId.value + " not found"))
    else if FirstTakenSku(existing, Skus(p.variants)).Some? then
      Err(BadRequest("SKU '" + FirstTakenSku(existing, Skus(p.variants)).value + "' already exists"))
    else if !NoDuplicates(Skus(p.variants)) then
      Err(Internal("Unique constraint failed on the fields: (`sku`)"))
    else if !NoDuplicates(ArtistLinks(p)) then
      Err(Internal("Unique constraint failed on the fields: (`productId`,`artistId`)"))
    else if exists a :: a in ArtistLinks(p) && a !in artists then
      Err(Internal("No 'Artist' record was found for a nested connect on relation 'ProductToArtist'."))
    else
      var product := Product(p.name, None, p.description, p.shortDescription, p.productType, defaults.status,
                             defaults.minPrice, if Truthy(p.categoryId) then p.categoryId else None,
                             if p.mediaGallery.Some? then p.mediaGallery.value else [], None);
      Ok(CreatedProduct(newId, product,
                        seq(|p.variants|, i requires 0 <= i < |p.variants| => VariantRow(newId, p.variants[i])),
                        ArtistLinks(p)))
  }

  /** Variant SKUs are unique across the whole variant table. */
  predicate UniqueSkus(variants: map<string, Variant>) {
    forall a, b :: a in variants && b in variants && a != b ==> variants[a].sku != variants[b].sku
  }

  /** The variant table after inserting `rows` under the fresh ids `ids`. */
  function InsertVariants(table: map<string, Variant>, ids: seq<string>, rows: seq<Variant>): (r: map<string, Variant>)
    requires |ids| == |rows|
    ensures forall k :: k in r <==> k in table || k in ids
    ensures forall k :: k in table && k !in ids ==> r[k] == table[k]
    decreases |ids|
  {
    if |ids| == 0 then table
    else
      var n := |ids| - 1;
      assert ids == ids[..n] + [ids[n]];
      InsertVariants(table, ids[..n], rows[..n])[ids[n] := rows[n]]
  }

  /** With distinct ids, each new id holds its own row. */
  lemma {:induction false} InsertedRowsReadBack(table: map<string, Variant>, ids: seq<string>, rows: seq<Variant>)
    requires |ids| == |rows| && NoDuplicates(ids)
    ensures forall i :: 0 <= i < |ids| ==> InsertVariants(table, ids, rows)[ids[i]] == rows[i]
    decreases |ids|
  {
    if |ids| > 0 {
      var n := |ids| - 1;
      var front, frontRows := ids[..n], rows[..n];
      assert NoDuplicates(front);
      InsertedRowsReadBack(table, front, frontRows);
      var before := InsertVariants(table, front, frontRows);
      var after := InsertVariants(table, ids, rows);
      assert after == before[ids[n] := rows[n]];
      forall i | 0 <= i < |ids|
        ensures after[ids[i]] == rows[i]
      {
        if i < n {
          assert front[i] == ids[i] && frontRows[i] == rows[i];
          assert ids[i] != ids[n];
          assert before[front[i]] == frontRows[i];
        }
      }
    }
  }

  /** The created variants satisfy the catalogue's price and discount bounds whenever the form
      did. */
  lemma CreatedVariantsAreSane(categories: map<string, Category>, existing: map<string, Variant>, artists: set<string>,
                               p: NewProduct, newId: string, defaults: ColumnDefaults)
    requires forall v :: v in p.variants ==> ValidNewVariant(v)
    requires ProductCreation(categories, existing, artists, p, newId, defaults).Ok?
    ensures forall v :: v in ProductCreation(categories, existing, artists, p, newId, defaults).value.variants ==>
      SaneVariant(v) && StockOf(v) >= 0
  {
    var created := ProductCreation(categories, existing, artists, p, newId, defaults).value;
    forall v | v in created.variants
      ensures SaneVariant(v) && StockOf(v) >= 0
    {
      var i :| 0 <= i < |created.variants| && created.variants[i] == v;
      assert ValidNewVariant(p.variants[i]);
    }
  }

  /** Inserting rows whose SKUs are distinct and not yet taken keeps SKUs unique. */
  lemma InsertKeepsSkusUnique(existing: map<string, Variant>, ids: seq<string>, rows: seq<Variant>)
    requires UniqueSkus(existing)
    requires |ids| == |rows| && NoDuplicates(ids) && forall i :: 0 <= i < |ids| ==> ids[i] !in existing
    requires forall i, j :: 0 <= i < j < |rows| ==> rows[i].sku != rows[j].sku
    requires forall i, k :: 0 <= i < |rows| && k in existing ==> existing[k].sku != rows[i].sku
    ensures UniqueSkus(InsertVariants(existing, ids, rows))
  {
    var after := InsertVariants(existing, ids, rows);
    InsertedRowsReadBack(existing, ids, rows);
    forall a, b | a in after && b in after && a != b
      ensures after[a].sku != after[b].sku
    {
      if a in ids && b in ids {
        var i :| 0 <= i < |ids| && ids[i] == a;
        var j :| 0 <= j < |ids| && ids[j] == b;
        assert i != j;
        if i < j {
          assert rows[i].sku != rows[j].sku;
        } else {
          assert rows[j].sku != rows[i].sku;
        }
      } else if a in ids {
        var i :| 0 <= i < |ids| && ids[i] == a;
        assert after[b] == existing[b];
      } else if b in ids {
        var j :| 0 <= j < |ids| && ids[j] == b;
        assert after[a] == existing[a];
      }
    }
  }

  /** Creating a product keeps SKUs unique across the variant table. */
  lemma CreateKeepsSkusUnique(categories: map<string, Category>, existing: map<string, Variant>, artists: set<string>,
                              p: NewProduct, newId: string, defaults: ColumnDefaults, ids: seq<string>, created: CreatedProduct)
    requires UniqueSkus(existing)
    requires ProductCreation(categories, existing, artists, p, newId, defaults) == Ok(created)
    requires |ids| == |p.variants| && NoDuplicates(ids) && forall i :: 0 <= i < |ids| ==> ids[i] !in existing
    ensures UniqueSkus(InsertVariants(existing, ids, created.variants))
  {
    var skus := Skus(p.variants);
    forall i, j | 0 <= i < j < |created.variants|
      ensures created.variants[i].sku != created.variants[j].sku
    {
      assert skus[i] != skus[j];
    }
    forall i, k | 0 <= i < |created.variants| && k in existing
      ensures existing[k].sku != created.variants[i].sku
    {
      assert !SkuTaken(existing, skus, skus[i]);
    }
    InsertKeepsSkusUnique(existing, ids, created.variants);
  }

  /** `createNewProductForAdmin`: writes the product, its variants and its artist links in one
      transaction, or nothing. */
  method CreateNewProductForAdmin(db: Db, p: NewProduct, newId: string, variantIds: seq<string>, defaults: ColumnDefaults)
    returns (r: Result<CreatedProduct>)
    requires newId !in db.products
    requires |variantIds| == |p.variants| && NoDuplicates(variantIds)
    requires forall i :: 0 <= i < |variantIds| ==> variantIds[i] !in db.variants
    modifies db`products, db`variants, db`productArtists
    ensures r == ProductCreation(old(db.categories), old(db.variants), old(db.artists.Keys), p, newId, defaults)
    ensures r.Ok? ==> && db.products == old(db.products)[newId := r.value.product]
                      && db.variants == InsertVariants(old(db.variants), variantIds, r.value.variants)
                      && db.productArtists == old(db.productArtists) + set a | a in r.value.artistIds :: (newId, a)
    ensures r.Err? ==> db.products == old(db.products) && db.variants == old(db.variants)
                       && db.productArtists == old(db.productArtists)
  {
    r := ProductCreation(db.categories, db.variants, db.artists.Keys, p, newId, defaults);
    if r.Ok? {
      db.products := db.products[newId := r.value.product];
      db.variants := InsertVariants(db.variants, variantIds, r.value.variants);
      db.productArtists := db.productArtists + set a | a in r.value.artistIds :: (newId, a);
    }
  }
}
