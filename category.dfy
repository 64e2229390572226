/** Product categories (src/category/category.service.ts).

    Categories form a forest through their optional parent. Re-parenting walks the ancestor
    chain of the new parent and refuses when it meets the category being updated, so the
    hierarchy never gains a cycle. Slugs are derived from names by an opaque `slugify`. */
module Categories {
  import opened Common
  import opened Schema
  import opened Pagination

  /** `findFirst({ where: { OR: [{ id }, { slug }] } })`, with only the truthy keys; false
      when neither key is given. */
  function IsCategoryExists(categories: map<string, Category>, id: Option<string>, slug: Option<string>): (r: bool)
    ensures !Truthy(id) && !Truthy(slug) ==> !r
    ensures r <==> (Truthy(id) && id.value in categories) || (Truthy(slug) && exists c :: c in categories && categories[c].slug == slug.value)
  {
    if !Truthy(id) && !Truthy(slug) then false
    else (Truthy(id) && id.value in categories) || (Truthy(slug) && exists c :: c in categories && categories[c].slug == slug.value)
  }

  /** The next id up the chain: `parentCategory?.parentId || null`. */
  function ParentOf(categories: map<string, Category>, cur: Option<string>): Option<string> {
    if cur.Some? && cur.value in categories && Truthy(categories[cur.value].parentId) then categories[cur.value].parentId
    else None
  }

  /** The id reached after `k` steps up the chain from `cur`. */
  function Step(categories: map<string, Category>, cur: Option<string>, k: nat): Option<string>
    decreases k
  {
    if k == 0 then cur else Step(categories, ParentOf(categories, cur), k - 1)
  }

  /** `id` is `start` or one of its ancestors. */
  ghost predicate OnChain(categories: map<string, Category>, start: string, id: string) {
    exists k: nat :: Step(categories, Some(start), k) == Some(id)
  }

  /** Every category's chain of ancestors reaches the top. */
  ghost predicate Acyclic(categories: map<string, Category>) {
    forall c :: c in categories ==> exists n: nat :: Step(categories, Some(c), n) == None
  }

  /** Every set parent names an existing category (the foreign key on `parentId`). */
  predicate ParentsExist(categories: map<string, Category>) {
    forall c :: c in categories && Truthy(categories[c].parentId) ==> categories[c].parentId.value in categories
  }

  ghost predicate HierarchyValid(categories: map<string, Category>) {
    ParentsExist(categories) && Acyclic(categories)
  }

  /** Names and slugs are unique. */
  predicate UniqueNames(categories: map<string, Category>) {
    forall c, d :: c in categories && d in categories && c != d ==>
      categories[c].name != categories[d].name && categories[c].slug != categories[d].slug
  }

  lemma {:induction false} StepOfNone(categories: map<string, Category>, k: nat)
    ensures Step(categories, None, k) == None
    decreases k
  {
    if k > 0 {
      StepOfNone(categories, k - 1);
    }
  }

  /** Two tables that agree on every parent but that of `changed` agree on a chain that does
      not pass through `changed`. */
  lemma {:induction false} StepAgrees(a: map<string, Category>, b: map<string, Category>, changed: string, cur: Option<string>, k: nat)
    requires forall x :: x != changed ==> ParentOf(a, Some(x)) == ParentOf(b, Some(x))
    requires forall j: nat :: j < k ==> Step(a, cur, j) != Some(changed)
    ensures Step(b, cur, k) == Step(a, cur, k)
    decreases k
  {
    if k > 0 {
      if cur.None? {
        StepOfNone(a, k - 1);
        StepOfNone(b, k - 1);
      } else {
        assert Step(a, cur, 0) != Some(changed);
        assert ParentOf(a, cur) == ParentOf(b, cur);
        forall j: nat | j < k - 1
          ensures Step(a, ParentOf(a, cur), j) != Some(changed)
        {
          assert Step(a, cur, j + 1) == Step(a, ParentOf(a, cur), j);
        }
        StepAgrees(a, b, changed, ParentOf(a, cur), k - 1);
      }
    }
  }

  /** With every parent existing, every id on the chain of an existing category exists. */
  lemma {:induction false} ChainStaysInside(categories: map<string, Category>, cur: Option<string>, k: nat)
    requires ParentsExist(categories)
    requires cur.Some? ==> cur.value in categories
    ensures Step(categories, cur, k).Some? ==> Step(categories, cur, k).value in categories
    decreases k
  {
    if k > 0 {
      ChainStaysInside(categories, ParentOf(categories, cur), k - 1);
    }
  }

  /** The table with `id` moved under `p`. */
  function Reparented(categories: map<string, Category>, id: string, p: string): map<string, Category>
    requires id in categories
  {
    categories[id := categories[id].(parentId := Some(p))]
  }

  /** Re-parenting `id` under `p` keeps the hierarchy acyclic when `id` is not on `p`'s chain,
      which is what the ancestor walk checks. */
  lemma ReparentKeepsAcyclic(categories: map<string, Category>, id: string, p: string)
    requires HierarchyValid(categories) && id in categories && p in categories && p != ""
    requires !OnChain(categories, p, id)
    ensures HierarchyValid(Reparented(categories, id, p))
  {
    var after := Reparented(categories, id, p);
    forall c | c in after
      ensures exists n: nat :: Step(after, Some(c), n) == None
    {
      var n: nat :| Step(categories, Some(c), n) == None;
      ReparentedChainEnds(categories, id, p, Some(c), n);
    }
  }

  lemma {:induction false} ReparentedChainEnds(categories: map<string, Category>, id: string, p: string, cur: Option<string>, n: nat)
    requires HierarchyValid(categories) && id in categories && p in categories && p != ""
    requires !OnChain(categories, p, id)
    requires Step(categories, cur, n) == None
    ensures exists m: nat :: Step(Reparented(categories, id, p), cur, m) == None
    decreases n
  {
    var after := Reparented(categories, id, p);
    assert forall x :: x != id ==> ParentOf(categories, Some(x)) == ParentOf(after, Some(x));
    if cur.None? {
      assert Step(after, cur, 0) == None;
    } else if cur.value == id {
      var m: nat :| Step(categories, Some(p), m) == None;
      StepAgrees(categories, after, id, Some(p), m);
      assert ParentOf(after, cur) == Some(p);
      assert Step(after, cur, m + 1) == None;
    } else {
      assert n > 0;
      ReparentedChainEnds(categories, id, p, ParentOf(categories, cur), n - 1);
      var m: nat :| Step(after, ParentOf(categories, cur), m) == None;
      assert ParentOf(after, cur) == ParentOf(categories, cur);
      assert Step(after, cur, m + 1) == None;
    }
  }

  /** Adding a new category under an existing parent (or at the top) keeps the hierarchy
      valid. */
  lemma InsertKeepsHierarchyValid(categories: map<string, Category>, newId: string, row: Category)
    requires HierarchyValid(categories) && newId !in categories
    requires Truthy(row.parentId) ==> row.parentId.value in categories
    ensures HierarchyValid(categories[newId := row])
  {
    var after := categories[newId := row];
    assert forall x :: x != newId ==> ParentOf(categories, Some(x)) == ParentOf(after, Some(x));
    forall c | c in after
      ensures exists n: nat :: Step(after, Some(c), n) == None
    {
      var start := if c == newId then ParentOf(after, Some(c)) else Some(c);
      var n: nat;
      if start.Some? {
        n :| Step(categories, start, n) == None;
      } else {
        n := 0;
      }
      forall j: nat | j < n
        ensures Step(categories, start, j) != Some(newId)
      {
        ChainStaysInside(categories, start, j);
      }
      StepAgrees(categories, after, newId, start, n);
      if c == newId {
        assert Step(after, Some(c), n + 1) == Step(after, start, n);
      }
    }
  }

  /** `createCategory`: the new row, or why it is refused. The unique index on name and slug
      turns a clash into Conflict; a parent given as an empty string skips the parent check
      and then violates the foreign key, an error the service does not catch. */
  function CreateCategoryOutcome(categories: map<string, Category>, name: string, parentId: Option<string>,
                                 slugify: string -> string): (r: Result<Category>)
    ensures Truthy(parentId) && parentId.value !in categories ==> r == Err(NotFound("Parent category not found"))
    ensures r.Ok? <==> && (Truthy(parentId) ==> parentId.value in categories)
                       && parentId != Some("")
                       && forall c :: c in categories ==> categories[c].name != name && categories[c].slug != slugify(name)
    ensures r.Ok? ==> r.value == Category(name, slugify(name), parentId)
  {
    if Truthy(parentId) && parentId.value !in categories then
      Err(NotFound("Parent category not found"))
    else if exists c :: c in categories && (categories[c].name == name || categories[c].slug == slugify(name)) then
      Err(Conflict("Category with this name already exists"))
    else if parentId == Some("") then
      Err(Internal("Foreign key constraint failed on the field: `parentId`"))
    else
      Ok(Category(name, slugify(name), parentId))
  }

  /** Creating a category keeps names and slugs unique and the hierarchy valid. */
  lemma CreateKeepsInvariants(categories: map<string, Category>, name: string, parentId: Option<string>,
                              slugify: string -> string, newId: string)
    requires HierarchyValid(categories) && UniqueNames(categories) && newId !in categories
    requires CreateCategoryOutcome(categories, name, parentId, slugify).Ok?
    ensures var after := categories[newId := CreateCategoryOutcome(categories, name, parentId, slugify).value];
      HierarchyValid(after) && UniqueNames(after)
  {
    InsertKeepsHierarchyValid(categories, newId, CreateCategoryOutcome(categories, name, parentId, slugify).value);
  }

  method CreateCategory(db: Db, name: string, parentId: Option<string>, slugify: string -> string, newId: string)
    returns (r: Result<Category>)
    requires newId !in db.categories
    modifies db`categories
    ensures r == CreateCategoryOutcome(old(db.categories), name, parentId, slugify)
    ensures r.Ok? ==> db.categories == old(db.categories)[newId := r.value]
    ensures r.Err? ==> db.categories == old(db.categories)
  {
    if Truthy(parentId) && parentId.value !in db.categories {
      return Err(NotFound("Parent category not found"));
    }
    var slug := slugify(name);
    if exists c :: c in db.categories && (db.categories[c].name == name || db.categories[c].slug == slug) {
      return Err(Conflict("Category with this name already exists"));
    }
    if parentId == Some("") {
      return Err(Internal("Foreign key constraint failed on the field: `parentId`"));
    }
    var row := Category(name, slug, parentId);
    db.categories := db.categories[newId := row];
    r := Ok(row);
  }

  /** The row after an update: a supplied name replaces the stored one, the slug is recomputed
      only from a non-empty name (and kept when that slug comes out empty), and a supplied
      parent replaces the stored one. */
  function Renamed(c: Category, name: Option<string>, parentId: Option<string>, slugify: string -> string): (r: Category)
    ensures name.Some? ==> r.name == name.value
    ensures name.None? ==> r.name == c.name
    ensures Truthy(name) && slugify(name.value) != "" ==> r.slug == slugify(name.value)
    ensures !(Truthy(name) && slugify(name.value) != "") ==> r.slug == c.slug
    ensures parentId.Some? ==> r.parentId == parentId
    ensures parentId.None? ==> r.parentId == c.parentId
  {
    c.(name := if name.Some? then name.value else c.name,
       slug := if Truthy(name) && slugify(name.value) != "" then slugify(name.value) else c.slug,
       parentId := if parentId.Some? then parentId else c.parentId)
  }

  /** The parent checks of `updateCategory` pass: no parent is given, or an existing category
      other than the one updated whose chain does not reach it. */
  ghost predicate ParentAccepted(categories: map<string, Category>, id: string, parentId: Option<string>) {
    Truthy(parentId) ==> parentId.value != id && parentId.value in categories && !OnChain(categories, parentId.value, id)
  }

  /** Some other row already has the name or the slug of `row`. */
  predicate Clashes(categories: map<string, Category>, id: string, row: Category) {
    exists c :: c in categories && c != id && (categories[c].name == row.name || categories[c].slug == row.slug)
  }

  /** `updateCategory`: the updated row, or why it is refused. */
  ghost function UpdateCategoryOutcome(categories: map<string, Category>, id: string, name: Option<string>,
                                       parentId: Option<string>, slugify: string -> string): (r: Result<Category>)
    ensures Truthy(parentId) && parentId.value == id ==> r == Err(BadRequest("Category cannot be its own parent"))
    ensures Truthy(parentId) && parentId.value != id && parentId.value !in categories ==> r == Err(NotFound("Parent category not found"))
    ensures Truthy(parentId) && parentId.value != id && parentId.value in categories && OnChain(categories, parentId.value, id) ==>
      r == Err(BadRequest("Circular category hierarchy is not allowed"))
    ensures ParentAccepted(categories, id, parentId) && id !in categories ==> r == Err(NotFound("Category not found"))
    ensures ParentAccepted(categories, id, parentId) && id in categories && Clashes(categories, id, Renamed(categories[id], name, parentId, slugify)) ==>
      r == Err(Conflict("Category with this name/slug already exists"))
    ensures r.Ok? <==> (&& ParentAccepted(categories, id, parentId) && id in categories
                        && !Clashes(categories, id, Renamed(categories[id], name, parentId, slugify))
                        && parentId != Some(""))
    ensures r.Ok? ==> id in categories && r.value == Renamed(categories[id], name, parentId, slugify)
    ensures r.Ok? && Truthy(parentId) ==> parentId.value in categories && !OnChain(categories, parentId.value, id)
    ensures r.Ok? ==> forall c :: c in categories && c != id ==> categories[c].name != r.value.name && categories[c].slug != r.value.slug
    ensures r.Ok? ==> parentId != Some("")
  {
    if Truthy(parentId) && parentId.value == id then
      Err(BadRequest("Category cannot be its own parent"))
    else if Truthy(parentId) && parentId.value !in categories then
      Err(NotFound("Parent category not found"))
    else if Truthy(parentId) && OnChain(categories, parentId.value, id) then
      Err(BadRequest("Circular category hierarchy is not allowed"))
    else if id !in categories then
      Err(NotFound("Category not found"))
    else
      var row := Renamed(categories[id], name, parentId, slugify);
      if Clashes(categories, id, row) then
        Err(Conflict("Category with this name/slug already exists"))
      else if parentId == Some("") then
        Err(Internal("Foreign key constraint failed on the field: `parentId`"))
      else
        Ok(row)
  }

  /** A successful update keeps names and slugs unique and the hierarchy valid: in particular no
      category ever becomes its own ancestor. */
  lemma UpdateKeepsInvariants(categories: map<string, Category>, id: string, name: Option<string>,
                              parentId: Option<string>, slugify: string -> string, row: Category)
    requires HierarchyValid(categories) && UniqueNames(categories)
    requires UpdateCategoryOutcome(categories, id, name, parentId, slugify) == Ok(row)
    ensures HierarchyValid(categories[id := row]) && UniqueNames(categories[id := row])
  {
    ReplaceKeepsHierarchy(categories, id, row);
    ReplaceKeepsNamesUnique(categories, id, row);
  }

  /** Replacing a row keeps the hierarchy valid when its parent is either unchanged or an
      existing category whose chain does not reach it. */
  lemma ReplaceKeepsHierarchy(categories: map<string, Category>, id: string, row: Category)
    requires HierarchyValid(categories) && id in categories
    requires || row.parentId == categories[id].parentId
             || (Truthy(row.parentId) && row.parentId.value in categories && !OnChain(categories, row.parentId.value, id))
    ensures HierarchyValid(categories[id := row])
  {
    if row.parentId == categories[id].parentId {
      SameParentsAfterReplace(categories, categories, id, row);
      SameParentsKeepValid(categories, categories[id := row]);
    } else {
      var mid := Reparented(categories, id, row.parentId.value);
      ReparentKeepsAcyclic(categories, id, row.parentId.value);
      SameParentsAfterReplace(categories, mid, id, row);
      SameParentsKeepValid(mid, categories[id := row]);
    }
  }

  /** A table whose rows agree with `categories[id := row]` on every parent. */
  lemma SameParentsAfterReplace(categories: map<string, Category>, other: map<string, Category>, id: string, row: Category)
    requires id in other && other.Keys == categories.Keys && other[id].parentId == row.parentId
    requires forall c :: c in other && c != id ==> other[c] == categories[c]
    ensures forall x :: ParentOf(other, Some(x)) == ParentOf(categories[id := row], Some(x))
  {
  }

  /** Replacing a row by one whose name and slug no other row has keeps names unique. */
  lemma ReplaceKeepsNamesUnique(categories: map<string, Category>, id: string, row: Category)
    requires UniqueNames(categories)
    requires forall c :: c in categories && c != id ==> categories[c].name != row.name && categories[c].slug != row.slug
    ensures UniqueNames(categories[id := row])
  {
  }

  /** Validity of the hierarchy depends only on the parent links. */
  lemma SameParentsKeepValid(a: map<string, Category>, b: map<string, Category>)
    requires HierarchyValid(a) && a.Keys == b.Keys
    requires forall x :: ParentOf(a, Some(x)) == ParentOf(b, Some(x))
    ensures HierarchyValid(b)
  {
    forall c | c in b && Truthy(b[c].parentId)
      ensures b[c].parentId.value in b
    {
      assert ParentOf(a, Some(c)) == ParentOf(b, Some(c));
    }
    forall c | c in b
      ensures exists n: nat :: Step(b, Some(c), n) == None
    {
      var n: nat :| Step(a, Some(c), n) == None;
      SameParentsSameSteps(a, b, Some(c), n);
    }
  }

  lemma {:induction false} SameParentsSameSteps(a: map<string, Category>, b: map<string, Category>, cur: Option<string>, k: nat)
    requires forall x :: ParentOf(a, Some(x)) == ParentOf(b, Some(x))
    ensures Step(a, cur, k) == Step(b, cur, k)
    decreases k
  {
    if k > 0 {
      assert ParentOf(a, cur) == ParentOf(b, cur);
      SameParentsSameSteps(a, b, ParentOf(a, cur), k - 1);
    }
  }

  /** The ancestor walk of `updateCategory`: follows the parent links up from `start` and
      reports whether it meets `id`. It ends because the hierarchy is acyclic. */
  method ReachesCategory(categories: map<string, Category>, start: string, id: string) returns (found: bool)
    requires HierarchyValid(categories) && start in categories
    ensures found <==> OnChain(categories, start, id)
  {
    var current := Some(start);
    ghost var steps: nat := 0;
    ghost var fuel: nat :| Step(categories, Some(start), fuel) == None;
    while current.Some?
      invariant current == Step(categories, Some(start), steps)
      invariant forall j: nat :: j < steps ==> Step(categories, Some(start), j) != Some(id)
      invariant Step(categories, current, fuel) == None
      decreases fuel
    {
      if current.value == id {
        assert Step(categories, Some(start), steps) == Some(id);
        return true;
      }
      StepShift(categories, Some(start), steps);
      current := ParentOf(categories, current);
      steps := steps + 1;
      fuel := fuel - 1;
    }
    forall k: nat
      ensures Step(categories, Some(start), k) != Some(id)
    {
      if k >= steps {
        StepSplit(categories, Some(start), steps, k - steps);
        StepOfNone(categories, k - steps);
      }
    }
    return false;
  }

  /** `updateCategory`. */
  method UpdateCategory(db: Db, id: string, name: Option<string>, parentId: Option<string>, slugify: string -> string)
    returns (r: Result<Category>)
    requires HierarchyValid(db.categories)
    modifies db`categories
    ensures r == UpdateCategoryOutcome(old(db.categories), id, name, parentId, slugify)
    ensures r.Ok? ==> db.categories == old(db.categories)[id := r.value]
    ensures r.Err? ==> db.categories == old(db.categories)
  {
    if Truthy(parentId) && parentId.value == id {
      return Err(BadRequest("Category cannot be its own parent"));
    }
    if Truthy(parentId) {
      if parentId.value !in db.categories {
        return Err(NotFound("Parent category not found"));
      }
      var circular := ReachesCategory(db.categories, parentId.value, id);
      if circular {
        return Err(BadRequest("Circular category hierarchy is not allowed"));
      }
    }
    if id !in db.categories {
      return Err(NotFound("Category not found"));
    }
    var row := Renamed(db.categories[id], name, parentId, slugify);
    if exists c :: c in db.categories && c != id && (db.categories[c].name == row.name || db.categories[c].slug == row.slug) {
      return Err(Conflict("Category with this name/slug already exists"));
    }
    if parentId == Some("") {
      return Err(Internal("Foreign key constraint failed on the field: `parentId`"));
    }
    db.categories := db.categories[id := row];
    r := Ok(row);
  }

  lemma {:induction false} StepShift(categories: map<string, Category>, cur: Option<string>, k: nat)
    ensures Step(categories, cur, k + 1) == ParentOf(categories, Step(categories, cur, k))
    decreases k
  {
    if k > 0 {
      StepShift(categories, ParentOf(categories, cur), k - 1);
    }
  }

  lemma {:induction false} StepSplit(categories: map<string, Category>, cur: Option<string>, a: nat, b: nat)
    ensures Step(categories, cur, a + b) == Step(categories, Step(categories, cur, a), b)
    decreases a
  {
    if a > 0 {
      StepSplit(categories, ParentOf(categories, cur), a - 1, b);
    }
  }

  /** The rows `getProductsByCategory` pages through: published products whose category has the
      slug. Soft-deleted products are not excluded. */
  predicate InCategory(categories: map<string, Category>, slug: string, p: Product) {
    p.categoryId.Some? && p.categoryId.value in categories && categories[p.categoryId.value].slug == slug
    && p.status == "published"
  }

  /** The rows in the category, in listing order. */
  function CategoryRows(categories: map<string, Category>, rows: seq<(string, Product)>, slug: string): (r: seq<(string, Product)>)
    ensures forall x :: x in r <==> x in rows && InCategory(categories, slug, x.1)
  {
    Filter(rows, (row: (string, Product)) => InCategory(categories, slug, row.1))
  }

  /** `getProductsByCategory`: `rows` are the product rows in the order the listing sorts them
      (newest first). An empty result is NotFound rather than an empty page. */
  function ProductsByCategory(categories: map<string, Category>, rows: seq<(string, Product)>, slug: string,
                              limit: Option<int>, page: Option<int>): (r: Result<Page<(string, Product)>>)
    requires ValidPaging(limit, page)
    ensures var matched := CategoryRows(categories, rows, slug);
      && (r.Err? <==> |matched| == 0)
      && (r.Err? ==> r == Err(NotFound("Products not found for this category")))
      && (r.Ok? ==> && r.value.meta.totalItems == |matched|
                    && r.value.meta.limit == OrDefault(limit, DefaultLimit)
                    && r.value.meta.currentPage == OrDefault(page, DefaultPage)
                    && 1 <= r.value.meta.totalPages
                    && r.value.meta.totalPages == TotalPages(|matched|, OrDefault(limit, DefaultLimit))
                    && |r.value.data| <= r.value.meta.limit
                    && (forall k :: 0 <= k < |r.value.data| ==>
                          var skip := Skip(OrDefault(page, DefaultPage), OrDefault(limit, DefaultLimit));
                          skip + k < |matched| && r.value.data[k] == matched[skip + k])
                    && forall x :: x in r.value.data ==> x in rows && InCategory(categories, slug, x.1))
    ensures var matched := CategoryRows(categories, rows, slug);
      |matched| > 0 ==> r == Ok(PageOf(matched, |matched|, OrDefault(page, DefaultPage), OrDefault(limit, DefaultLimit)))
  {
    var l, p := OrDefault(limit, DefaultLimit), OrDefault(page, DefaultPage);
    var matched := CategoryRows(categories, rows, slug);
    if |matched| == 0 then Err(NotFound("Products not found for this category"))
    else
      var r := PageOf(matched, |matched|, p, l);
      assert forall x :: x in r.data ==> x in matched;
      Ok(r)
  }

  /** Every product in the category is listed on the page whose window covers its position,
      and that page is within the count the metadata reports. */
  lemma CategoryProductsAreListed(categories: map<string, Category>, rows: seq<(string, Product)>, slug: string,
                                  limit: Option<int>, page: int, k: nat)
    requires ValidPaging(limit, Some(page))
    requires k < |CategoryRows(categories, rows, slug)|
    requires Skip(page, OrDefault(limit, DefaultLimit)) <= k < Skip(page, OrDefault(limit, DefaultLimit)) + OrDefault(limit, DefaultLimit)
    ensures var r := ProductsByCategory(categories, rows, slug, limit, Some(page));
      && r.Ok? && page <= r.value.meta.totalPages
      && CategoryRows(categories, rows, slug)[k] in r.value.data
  {
    var matched := CategoryRows(categories, rows, slug);
    var l := OrDefault(limit, DefaultLimit);
    RowIsOnPageOf(matched, l, page, k);
    assert ProductsByCategory(categories, rows, slug, limit, Some(page)) == Ok(PageOf(matched, |matched|, page, l));
  }
}
