/** The catalogue listing query (src/products/dto/get-products.dto.ts and the filter and sort
    construction of `getProducts` in src/products/products.service.ts).

    The query string arrives as text; the DTO normalises list parameters and the stock flag,
    and the service turns the normalised query into a Prisma `where` and `orderBy`. Both
    steps are modelled here as values; evaluating a `where` against the catalogue is done by
    the database. */
module ProductQuery {
  import opened Common
  import opened Pagination

  /** A query parameter that may be given once or repeated. */
  datatype RawList = One(value: string) | Many(values: seq<string>)

  /** The raw `stock_status`: query text, or a boolean in a JSON body. */
  datatype RawFlag = Text(text: string) | Flag(flag: bool)

  /** The query before the DTO transforms; absent parameters are `None`. */
  datatype RawQuery = RawQuery(
    artistId: Option<RawList>,
    keyword: Option<string>,
    limit: Option<int>,
    page: Option<int>,
    priceMin: Option<real>,
    priceMax: Option<real>,
    sort: Option<string>,
    stockStatus: Option<RawFlag>,
    productType: Option<RawList>)

  /** The query after the DTO transforms. */
  datatype ProductsQuery = ProductsQuery(
    artistId: Option<seq<string>>,
    keyword: Option<string>,
    limit: Option<int>,
    page: Option<int>,
    priceMin: Option<real>,
    priceMax: Option<real>,
    sort: Option<string>,
    stockStatus: Option<bool>,
    productType: Option<seq<string>>)

  /** `Array.isArray(value) ? value : [value]`. */
  function ToList(raw: RawList): (r: seq<string>)
    ensures raw.One? ==> r == [raw.value]
    ensures raw.Many? ==> r == raw.values
  {
    match raw
    case One(v) => [v]
    case Many(vs) => vs
  }

  /** `value === 'true' || value === true`: only the text "true" and the boolean true set the
      flag; any other text, "TRUE" and "1" included, clears it. */
  function StockFlag(raw: RawFlag): (r: bool)
    ensures r <==> raw == Text("true") || raw == Flag(true)
  {
    match raw
    case Text(t) => t == "true"
    case Flag(b) => b
  }

  function Normalise(raw: RawQuery): (q: ProductsQuery)
    ensures q.artistId.Some? <==> raw.artistId.Some?
    ensures raw.artistId.Some? ==> q.artistId.value == ToList(raw.artistId.value)
    ensures q.productType.Some? <==> raw.productType.Some?
    ensures raw.productType.Some? ==> q.productType.value == ToList(raw.productType.value)
    ensures q.stockStatus.Some? <==> raw.stockStatus.Some?
    ensures raw.stockStatus.Some? ==> q.stockStatus.value == StockFlag(raw.stockStatus.value)
    ensures q.limit == raw.limit && q.page == raw.page && q.priceMin == raw.priceMin && q.priceMax == raw.priceMax
    ensures q.keyword == raw.keyword && q.sort == raw.sort
  {
    ProductsQuery(
      if raw.artistId.Some? then Some(ToList(raw.artistId.value)) else None,
      raw.keyword, raw.limit, raw.page, raw.priceMin, raw.priceMax, raw.sort,
      if raw.stockStatus.Some? then Some(StockFlag(raw.stockStatus.value)) else None,
      if raw.productType.Some? then Some(ToList(raw.productType.value)) else None)
  }

  /** A number is truthy when it is not 0 (NaN does not arise from exact decimals). */
  predicate TruthyNumber(x: Option<real>) {
    x.Some? && x.value != 0.0
  }

  /** The `variants: { some: ... }` part of the filter. */
  datatype VariantFilter =
    | AnyVariants
    | PriceBetween(gte: Option<real>, lte: Option<real>)
    | InStock

  /** The Prisma `where` of the listing: each `None` is a key the spread leaves out. */
  datatype Where = Where(
    artistIn: Option<seq<string>>,
    typeIn: Option<seq<string>>,
    keyword: Option<string>,
    variants: VariantFilter,
    status: Option<string>)

  /** The filter `getProducts` builds. The stock condition is spread after the price range
      and under the same key, so it replaces it. */
  function BuildWhere(q: ProductsQuery, status: Option<string>): (w: Where)
    ensures w.artistIn.Some? <==> q.artistId.Some? && |q.artistId.value| > 0
    ensures w.artistIn.Some? ==> w.artistIn == q.artistId
    ensures w.typeIn.Some? <==> q.productType.Some? && |q.productType.value| > 0
    ensures w.typeIn.Some? ==> w.typeIn == q.productType
    ensures w.keyword.Some? <==> Truthy(q.keyword)
    ensures w.keyword.Some? ==> w.keyword == q.keyword
    ensures w.variants == InStock <==> q.stockStatus == Some(true)
    ensures w.variants.PriceBetween? <==> q.stockStatus != Some(true) && (TruthyNumber(q.priceMin) || TruthyNumber(q.priceMax))
    ensures w.variants.PriceBetween? ==> w.variants == PriceBetween(q.priceMin, q.priceMax)
    ensures w.status.Some? <==> Truthy(status)
    ensures w.status.Some? ==> w.status == status
  {
    var price := if TruthyNumber(q.priceMin) || TruthyNumber(q.priceMax) then PriceBetween(q.priceMin, q.priceMax) else AnyVariants;
    Where(
      if q.artistId.Some? && |q.artistId.value| > 0 then q.artistId else None,
      if q.productType.Some? && |q.productType.value| > 0 then q.productType else None,
      if Truthy(q.keyword) then q.keyword else None,
      if q.stockStatus == Some(true) then InStock else price,
      if Truthy(status) then status else None)
  }

  /** A zero bound is falsy: it is sent to the database only when the other bound is set. */
  lemma ZeroBoundNeedsTheOther(q: ProductsQuery, status: Option<string>)
    requires q.stockStatus != Some(true) && q.priceMin == Some(0.0)
    ensures BuildWhere(q, status).variants.PriceBetween? <==> TruthyNumber(q.priceMax)
    ensures BuildWhere(q, status).variants.PriceBetween? ==> BuildWhere(q, status).variants.gte == Some(0.0)
  {
  }

  /** Asking for products in stock discards any price range. */
  lemma StockFilterOverridesPrice(q: ProductsQuery, status: Option<string>, lo: real, hi: real)
    requires q.stockStatus == Some(true)
    ensures BuildWhere(q.(priceMin := Some(lo), priceMax := Some(hi)), status) == BuildWhere(q.(priceMin := None, priceMax := None), status)
  {
  }

  /** The column and direction of `orderBy`. */
  datatype SortOrder = MinPriceAsc | MinPriceDesc | CreatedAtAsc | CreatedAtDesc

  /** The `sort` switch: unknown values and an absent or empty sort give newest first. */
  function SortOf(sort: Option<string>): (r: SortOrder)
    ensures r == MinPriceAsc <==> sort == Some("price_asc")
    ensures r == MinPriceDesc <==> sort == Some("price_desc")
    ensures r == CreatedAtAsc <==> sort == Some("oldest")
    ensures r == CreatedAtDesc <==> sort !in {Some("price_asc"), Some("price_desc"), Some("oldest")}
  {
    if !Truthy(sort) then CreatedAtDesc
    else match sort.value
      case "price_asc" => MinPriceAsc
      case "price_desc" => MinPriceDesc
      case "newest" => CreatedAtDesc
      case "oldest" => CreatedAtAsc
      case _ => CreatedAtDesc
  }

  /** `limit = 20, page = 1` when absent; a valid query gives a positive page and limit. */
  function LimitOf(q: ProductsQuery): (r: int)
    requires ValidPaging(q.limit, q.page)
    ensures r >= 1
    ensures q.limit.None? ==> r == DefaultLimit
  {
    OrDefault(q.limit, DefaultLimit)
  }

  function PageOfQuery(q: ProductsQuery): (r: int)
    requires ValidPaging(q.limit, q.page)
    ensures r >= 1
    ensures q.page.None? ==> r == DefaultPage
  {
    OrDefault(q.page, DefaultPage)
  }
}
