/** The rows of the relational store the services read and write, and the store itself.
    Every table is a map from its primary key to the row; a row does not repeat its key.
    Money columns are exact decimals (`real`); dates are instants on an abstract clock (`int`);
    a nullable column is an `Option`. */
module Schema {
  import opened Common

  datatype OrderStatus = Pending | Processing | Shipped | Delivered | Cancelled

  datatype PaymentMethod = Cod | BankTransfer

  /** The `type` column of a discount code: 'fixed', 'percentage', or any other text. */
  datatype DiscountKind = Fixed | Percentage | OtherKind(name: string)

  datatype Product = Product(
    name: string,
    slug: Option<string>,
    description: Option<string>,
    shortDescription: Option<string>,
    productType: string,
    status: string,
    minPrice: real,
    categoryId: Option<string>,
    mediaGallery: seq<string>,
    deletedAt: Option<int>)

  datatype Variant = Variant(
    productId: string,
    sku: string,
    name: string,
    originalPrice: real,
    discountPercent: Option<real>,
    stockQuantity: Option<int>,
    isPreorder: bool,
    deletedAt: Option<int>)

  /** A discount code; the table is keyed by the (unique) code. */
  datatype Discount = Discount(
    id: string,
    kind: DiscountKind,
    value: real,
    description: Option<string>,
    startDate: Option<int>,
    endDate: Option<int>,
    usageLimit: Option<int>,
    usedCount: Option<int>,
    isActive: bool)

  /** A line of an order: a copy of the catalogue data at the time of purchase. */
  datatype OrderItem = OrderItem(
    productId: string,
    productVariantId: string,
    productName: string,
    variantName: string,
    quantity: int,
    price: real,
    originalPrice: real,
    discountPercentage: real,
    totalLinePrice: real)

  datatype Order = Order(
    userId: Option<string>,
    email: string,
    fullName: string,
    phone: string,
    subtotal: real,
    shippingFee: real,
    discountAmount: real,
    totalAmount: real,
    appliedVoucher: Option<string>,
    shippingAddress: string,
    paymentMethod: PaymentMethod,
    items: seq<OrderItem>,
    note: Option<string>,
    status: OrderStatus)

  datatype CartItem = CartItem(cartId: string, productId: string, productVariantId: string, quantity: int)

  datatype Category = Category(name: string, slug: string, parentId: Option<string>)

  datatype Artist = Artist(
    stageName: string,
    slug: string,
    bio: Option<string>,
    avatarUrl: Option<string>,
    status: Option<string>,
    deletedAt: Option<int>)

  datatype Role = Role(name: string, description: Option<string>, deletedAt: Option<int>)

  /** A permission; an empty `resource` or `action` stands for a null column. */
  datatype Permission = Permission(name: string, resource: string, action: string)

  datatype User = User(
    email: string,
    fullName: Option<string>,
    phone: Option<string>,
    avatarUrl: Option<string>,
    passwordHash: Option<string>,
    status: string,
    isVerified: bool,
    deletedAt: Option<int>)

  /** The column defaults the database fills in for a new user. */
  datatype UserDefaults = UserDefaults(status: string, isVerified: bool)

  /** The relational store. Join tables: `productArtists` holds (productId, artistId) pairs,
      `rolePermissions` and `userRoles` list the linked ids of a role and of a user in
      creation order. */
  class Db {
    var products: map<string, Product>
    var variants: map<string, Variant>
    var discounts: map<string, Discount>
    var orders: map<string, Order>
    var carts: map<string, string>
    var cartItems: map<string, CartItem>
    var categories: map<string, Category>
    var artists: map<string, Artist>
    var productArtists: set<(string, string)>
    var roles: map<string, Role>
    var permissions: map<string, Permission>
    var rolePermissions: map<string, seq<string>>
    var users: map<string, User>
    var userRoles: map<string, seq<string>>

    constructor ()
      ensures products == map[] && variants == map[] && discounts == map[] && orders == map[]
      ensures carts == map[] && cartItems == map[] && categories == map[] && artists == map[]
      ensures productArtists == {} && roles == map[] && permissions == map[]
      ensures rolePermissions == map[] && users == map[] && userRoles == map[]
    {
      products, variants, discounts, orders := map[], map[], map[], map[];
      carts, cartItems, categories, artists := map[], map[], map[], map[];
      productArtists, roles, permissions := {}, map[], map[];
      rolePermissions, users, userRoles := map[], map[], map[];
    }
  }
}
