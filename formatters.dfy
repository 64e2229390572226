/** Response shaping (src/shared/helper/): a role with the names of its permissions, a user
    with their roles and permission labels, and a cart line with a projection of its product
    and variant. Each is a total function of the rows it is given. */
module Formatters {
  import opened Common
  import opened Schema

  /** A role row with its permissions, in link order. */
  datatype RoleRow = RoleRow(id: string, role: Role, permissions: seq<Permission>)

  /** `formatRoleResponse`: the role's own fields and `permissions`. */
  datatype RoleResponse = RoleResponse(id: string, role: Role, permissions: seq<string>)

  /** The names of the permissions, one per link and in link order. */
  function PermissionNames(links: seq<Permission>): (r: seq<string>)
    ensures |r| == |links|
    ensures forall i :: 0 <= i < |links| ==> r[i] == links[i].name
  {
    seq(|links|, i requires 0 <= i < |links| => links[i].name)
  }

  function FormatRoleResponse(row: RoleRow): (r: RoleResponse)
    ensures r.id == row.id && r.role == row.role
    ensures r.permissions == PermissionNames(row.permissions)
  {
    RoleResponse(row.id, row.role, PermissionNames(row.permissions))
  }

  /** The names of two runs of links are the names of each run, one after the other: nothing is
      merged, dropped or reordered. */
  lemma PermissionNamesAppend(a: seq<Permission>, b: seq<Permission>)
    ensures PermissionNames(a + b) == PermissionNames(a) + PermissionNames(b)
  {
  }

  /** The label of a permission in a user's profile: "resource.action" when both columns are
      set, else the permission's name. */
  function PermissionLabel(p: Permission): string {
    if p.resource != "" && p.action != "" then p.resource + "." + p.action else p.name
  }

  /** The text before the first '.' of a label, and the text after it. */
  function SplitLabel(text: string): (r: (string, string))
    ensures '.' !in r.0
    ensures '.' in text ==> text == r.0 + "." + r.1
    ensures '.' !in text ==> r == (text, "")
    decreases |text|
  {
    if text == [] then ("", "")
    else if text[0] == '.' then ("", text[1..])
    else
      var rest := SplitLabel(text[1..]);
      assert text == [text[0]] + text[1..];
      assert '.' in text <==> '.' in text[1..];
      assert '.' in text[1..] ==> text == [text[0]] + (rest.0 + "." + rest.1);
      ([text[0]] + rest.0, rest.1)
  }

  /** A label built from a resource without a '.' splits back into the resource and action. */
  lemma {:induction false} LabelRoundTrip(p: Permission)
    requires p.resource != "" && p.action != "" && '.' !in p.resource
    ensures SplitLabel(PermissionLabel(p)) == (p.resource, p.action)
  {
    SplitAtFirstDot(p.resource, p.action);
  }

  lemma {:induction false} SplitAtFirstDot(a: string, b: string)
    requires '.' !in a
    ensures SplitLabel(a + "." + b) == (a, b)
    decreases |a|
  {
    if a == [] {
      assert a + "." + b == ['.'] + b;
      assert (['.'] + b)[1..] == b;
    } else {
      assert (a + "." + b)[0] == a[0];
      assert (a + "." + b)[1..] == a[1..] + "." + b;
      SplitAtFirstDot(a[1..], b);
      assert [a[0]] + a[1..] == a;
    }
  }

  /** A role of a user, with its permissions in link order. */
  datatype UserRoleRow = UserRoleRow(roleId: string, role: Role, permissions: seq<Permission>)

  /** A user row with its role links, in link order. */
  datatype UserRow = UserRow(id: string, user: User, userRoles: seq<UserRoleRow>)

  datatype RoleSummary = RoleSummary(id: string, name: string, permissions: seq<string>)

  /** `formatPermission`: every user column (the password hash included) and `roles`. */
  datatype UserResponse = UserResponse(id: string, user: User, roles: seq<RoleSummary>)

  function PermissionLabels(links: seq<Permission>): (r: seq<string>)
    ensures |r| == |links|
    ensures forall i :: 0 <= i < |links| ==> r[i] == PermissionLabel(links[i])
  {
    seq(|links|, i requires 0 <= i < |links| => PermissionLabel(links[i]))
  }

  function RoleSummaryOf(ur: UserRoleRow): RoleSummary {
    RoleSummary(ur.roleId, ur.role.name, PermissionLabels(ur.permissions))
  }

  function FormatPermission(row: UserRow): (r: UserResponse)
    ensures r.id == row.id && r.user == row.user
    ensures |r.roles| == |row.userRoles|
    ensures forall i :: 0 <= i < |row.userRoles| ==>
      && r.roles[i].id == row.userRoles[i].roleId
      && r.roles[i].name == row.userRoles[i].role.name
      && r.roles[i].permissions == PermissionLabels(row.userRoles[i].permissions)
  {
    UserResponse(row.id, row.user, seq(|row.userRoles|, i requires 0 <= i < |row.userRoles| => RoleSummaryOf(row.userRoles[i])))
  }

  /** A permission without a resource or an action is listed under its name, in a user's
      profile as in a role. */
  lemma LabelFallsBackToName(row: UserRow, i: nat, j: nat)
    requires i < |row.userRoles| && j < |row.userRoles[i].permissions|
    requires row.userRoles[i].permissions[j].resource == "" || row.userRoles[i].permissions[j].action == ""
    ensures FormatPermission(row).roles[i].permissions[j]
      == FormatRoleResponse(RoleRow(row.userRoles[i].roleId, row.userRoles[i].role, row.userRoles[i].permissions)).permissions[j]
  {
  }

  /** A cart line with its product and variant, either of which may be missing. */
  datatype CartLineRow = CartLineRow(id: string, item: CartItem, product: Option<Product>, variant: Option<Variant>)

  /** The variant projection; a missing variant leaves every field undefined (`None`). */
  datatype VariantSummary = VariantSummary(
    sku: Option<string>,
    name: Option<string>,
    originalPrice: Option<real>,
    discountPercent: Option<real>,
    stockQuantity: Option<int>,
    isPreorder: Option<bool>)

  /** `formatCartResponse`: the line's own columns, four product columns and the variant
      projection. A missing product leaves its fields undefined (`None`); a null slug, discount
      or stock is also `None`. */
  datatype CartLineResponse = CartLineResponse(
    id: string,
    item: CartItem,
    name: Option<string>,
    slug: Option<string>,
    productType: Option<string>,
    mediaGallery: Option<seq<string>>,
    productVariant: VariantSummary)

  function SummaryOf(v: Option<Variant>): (r: VariantSummary)
    ensures v.None? ==> r == VariantSummary(None, None, None, None, None, None)
    ensures v.Some? ==> && r.sku == Some(v.value.sku) && r.name == Some(v.value.name)
                        && r.originalPrice == Some(v.value.originalPrice)
                        && r.discountPercent == v.value.discountPercent
                        && r.stockQuantity == v.value.stockQuantity
                        && r.isPreorder == Some(v.value.isPreorder)
  {
    match v
    case None => VariantSummary(None, None, None, None, None, None)
    case Some(x) => VariantSummary(Some(x.sku), Some(x.name), Some(x.originalPrice), x.discountPercent, x.stockQuantity, Some(x.isPreorder))
  }

  function FormatCartResponse(row: CartLineRow): (r: CartLineResponse)
    ensures r.id == row.id && r.item == row.item
    ensures row.product.None? ==> r.name.None? && r.slug.None? && r.productType.None? && r.mediaGallery.None?
    ensures row.product.Some? ==> && r.name == Some(row.product.value.name) && r.slug == row.product.value.slug
                                  && r.productType == Some(row.product.value.productType)
                                  && r.mediaGallery == Some(row.product.value.mediaGallery)
    ensures r.productVariant == SummaryOf(row.variant)
  {
    match row.product
    case None => CartLineResponse(row.id, row.item, None, None, None, None, SummaryOf(row.variant))
    case Some(p) => CartLineResponse(row.id, row.item, Some(p.name), p.slug, Some(p.productType), Some(p.mediaGallery), SummaryOf(row.variant))
  }

  /** The projection reads nothing else of the product and the variant: rows that agree on the
      projected columns format alike. */
  lemma CartResponseIsAProjection(a: CartLineRow, b: CartLineRow)
    requires a.id == b.id && a.item == b.item
    requires a.product.Some? <==> b.product.Some?
    requires a.product.Some? ==> && a.product.value.name == b.product.value.name && a.product.value.slug == b.product.value.slug
                                 && a.product.value.productType == b.product.value.productType
                                 && a.product.value.mediaGallery == b.product.value.mediaGallery
    requires a.variant.Some? <==> b.variant.Some?
    requires a.variant.Some? ==> a.variant.value.(productId := "", deletedAt := None) == b.variant.value.(productId := "", deletedAt := None)
    ensures FormatCartResponse(a) == FormatCartResponse(b)
  {
  }
}
