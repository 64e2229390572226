/** Artists (src/artists/artists.service.ts): the public listing and detail, and the
    administration of artist rows. An artist referenced by an order is soft-deleted (marked
    and kept); any other artist is removed. Slugs are derived from stage names by an opaque
    `slugify` and are unique. */
module Artists {
  import opened Common
  import opened Schema
  import opened Pagination

  predicate Live(a: Artist) {
    a.deletedAt.None?
  }

  function LiveRows(rows: seq<(string, Artist)>): (r: seq<(string, Artist)>)
    ensures forall x :: x in r <==> x in rows && Live(x.1)
  {
    Filter(rows, (x: (string, Artist)) => Live(x.1))
  }

  /** `getArtists`: `rows` is the artist table in the order the database returns it. The page
      holds live artists only, but the total is `count()` over every row. */
  function GetArtists(rows: seq<(string, Artist)>, limit: Option<int>, page: Option<int>): (r: Page<(string, Artist)>)
    requires ValidPaging(limit, page)
    ensures r.meta == PageMeta(|rows|, OrDefault(page, DefaultPage), OrDefault(limit, DefaultLimit))
    ensures r.data == Window(LiveRows(rows), Skip(OrDefault(page, DefaultPage), OrDefault(limit, DefaultLimit)), OrDefault(limit, DefaultLimit))
  {
    var l, p := OrDefault(limit, DefaultLimit), OrDefault(page, DefaultPage);
    Page(Window(LiveRows(rows), Skip(p, l), l), PageMeta(|rows|, p, l))
  }

  /** The listing as evidently intended: the total counts the rows the pages are cut from. */
  function GetLiveArtists(rows: seq<(string, Artist)>, limit: Option<int>, page: Option<int>): (r: Page<(string, Artist)>)
    requires ValidPaging(limit, page)
    ensures r.data == GetArtists(rows, limit, page).data
    ensures r.meta == PageMeta(|LiveRows(rows)|, OrDefault(page, DefaultPage), OrDefault(limit, DefaultLimit))
  {
    var l, p := OrDefault(limit, DefaultLimit), OrDefault(page, DefaultPage);
    PageOf(LiveRows(rows), |LiveRows(rows)|, p, l)
  }

  /** With the total counting soft-deleted artists, the last reported page can be empty:
      twenty live artists and one deleted one report two pages of twenty, and page 2 is empty. */
  lemma ListingReportsAnEmptyPage()
    ensures var live := Artist("A", "a", None, None, None, None);
      var gone := Artist("B", "b", None, None, Some("deleted"), Some(0));
      var rows := seq(20, i => ("artist", live)) + [("gone", gone)];
      && GetArtists(rows, None, Some(2)).meta.totalPages == 2
      && GetArtists(rows, None, Some(2)).data == []
  {
    var live := Artist("A", "a", None, None, None, None);
    var gone := Artist("B", "b", None, None, Some("deleted"), Some(0));
    var rows := seq(20, i => ("artist", live)) + [("gone", gone)];
    assert rows[..20] + [rows[20]] == rows;
    FilterDropsRejected(rows[..20], rows[20]);
    assert TotalPages(21, 20) == 2;
  }

  lemma FilterDropsRejected(prefix: seq<(string, Artist)>, last: (string, Artist))
    requires !Live(last.1)
    ensures |LiveRows(prefix + [last])| <= |prefix|
  {
    var xs := prefix + [last];
    assert xs[..|xs| - 1] == prefix;
  }

  /** With the corrected total, every page up to the reported count holds at least one artist. */
  lemma LiveListingHasNoEmptyPages(rows: seq<(string, Artist)>, limit: Option<int>, page: Option<int>)
    requires ValidPaging(limit, page)
    requires OrDefault(page, DefaultPage) <= GetLiveArtists(rows, limit, page).meta.totalPages
    ensures |GetLiveArtists(rows, limit, page).data| > 0
  {
    var l, p := OrDefault(limit, DefaultLimit), OrDefault(page, DefaultPage);
    PagesWithinCountAreNonEmpty(LiveRows(rows), l, p);
  }

  /** `getArtistDetail`: the live artist with that slug. */
  method GetArtistDetail(db: Db, slug: string) returns (r: Result<string>)
    ensures r.Err? <==> !exists id :: id in db.artists && db.artists[id].slug == slug && Live(db.artists[id])
    ensures r.Err? ==> r == Err(NotFound("Artist not found"))
    ensures r.Ok? ==> r.value in db.artists && db.artists[r.value].slug == slug && Live(db.artists[r.value])
  {
    if id :| id in db.artists && db.artists[id].slug == slug && Live(db.artists[id]) {
      return Ok(id);
    }
    return Err(NotFound("Artist not found"));
  }

  /** The slug column is unique. */
  predicate UniqueSlugs(artists: map<string, Artist>) {
    forall a, b :: a in artists && b in artists && a != b ==> artists[a].slug != artists[b].slug
  }

  predicate SlugTaken(artists: map<string, Artist>, slug: string, except: Option<string>) {
    exists a :: a in artists && Some(a) != except && artists[a].slug == slug
  }

  datatype NewArtist = NewArtist(stageName: string, bio: Option<string>, avatarUrl: Option<string>, status: Option<string>)

  /** `createArtistForAdmin`: the stored row, or Conflict when the slug is taken. */
  function ArtistCreation(artists: map<string, Artist>, payload: NewArtist, slugify: string -> string): (r: Result<Artist>)
    ensures r.Err? <==> SlugTaken(artists, slugify(payload.stageName), None)
    ensures r.Err? ==> r == Err(Conflict("Artist with this stage name already exists"))
    ensures r.Ok? ==> r.value.slug == slugify(payload.stageName) && r.value.stageName == payload.stageName && Live(r.value)
    ensures r.Ok? ==> r.value.bio == payload.bio && r.value.avatarUrl == payload.avatarUrl && r.value.status == payload.status
  {
    var slug := slugify(payload.stageName);
    if SlugTaken(artists, slug, None) then Err(Conflict("Artist with this stage name already exists"))
    else Ok(Artist(payload.stageName, slug, payload.bio, payload.avatarUrl, payload.status, None))
  }

  method CreateArtistForAdmin(db: Db, payload: NewArtist, slugify: string -> string, newId: string) returns (r: Result<Artist>)
    requires newId !in db.artists
    modifies db`artists
    ensures r == ArtistCreation(old(db.artists), payload, slugify)
    ensures r.Ok? ==> db.artists == old(db.artists)[newId := r.value]
    ensures r.Err? ==> db.artists == old(db.artists)
  {
    r := ArtistCreation(db.artists, payload, slugify);
    if r.Ok? {
      db.artists := db.artists[newId := r.value];
    }
  }

  /** The fields of an update; `None` is a field left out. */
  datatype ArtistPatch = ArtistPatch(stageName: Option<string>, bio: Option<string>, avatarUrl: Option<string>, status: Option<string>)

  /** `updateArtistForAdmin`: supplied fields replace stored ones; the slug is recomputed only
      from a truthy stage name whose slug is non-empty. An unknown id is a database error the
      service does not catch. The update applies to soft-deleted artists too. */
  function ArtistUpdate(artists: map<string, Artist>, id: string, patch: ArtistPatch, slugify: string -> string): (r: Result<Artist>)
    ensures id !in artists ==> r.Err? && r.error.Internal?
    ensures r.Ok? ==> id in artists
    ensures r.Ok? ==> r.value.slug == (if Truthy(patch.stageName) && slugify(patch.stageName.value) != "" then slugify(patch.stageName.value)
                                       else artists[id].slug)
    ensures r.Ok? ==> r.value.stageName == (if patch.stageName.Some? then patch.stageName.value else artists[id].stageName)
    ensures r.Ok? ==> r.value.deletedAt == artists[id].deletedAt
    ensures r.Ok? ==> && r.value.bio == (if patch.bio.Some? then patch.bio else artists[id].bio)
                      && r.value.avatarUrl == (if patch.avatarUrl.Some? then patch.avatarUrl else artists[id].avatarUrl)
                      && r.value.status == (if patch.status.Some? then patch.status else artists[id].status)
    ensures id in artists ==> (r.Err? <==> SlugTaken(artists, UpdatedSlug(artists[id], patch, slugify), Some(id)))
    ensures id in artists && SlugTaken(artists, UpdatedSlug(artists[id], patch, slugify), Some(id)) ==>
      r == Err(Conflict("Artist with this stage name already exists"))
  {
    if id !in artists then Err(Internal("Record to update not found."))
    else
      var a := artists[id];
      var slug := UpdatedSlug(a, patch, slugify);
      if SlugTaken(artists, slug, Some(id)) then Err(Conflict("Artist with this stage name already exists"))
      else Ok(a.(stageName := if patch.stageName.Some? then patch.stageName.value else a.stageName,
                 slug := slug,
                 bio := if patch.bio.Some? then patch.bio else a.bio,
                 avatarUrl := if patch.avatarUrl.Some? then patch.avatarUrl else a.avatarUrl,
                 status := if patch.status.Some? then patch.status else a.status))
  }

  /** The slug after an update: `...(slug ? { slug } : {})` writes a recomputed slug only when
      it is non-empty, so a stage name that slugifies to nothing keeps the stored slug. */
  function UpdatedSlug(a: Artist, patch: ArtistPatch, slugify: string -> string): string {
    if Truthy(patch.stageName) && slugify(patch.stageName.value) != "" then slugify(patch.stageName.value) else a.slug
  }

  /** A stage name that slugifies to nothing leaves the stored slug in place, so while slugs are
      unique the update cannot clash on the slug. */
  lemma EmptySlugKeepsStoredSlug(artists: map<string, Artist>, id: string, patch: ArtistPatch, slugify: string -> string)
    requires UniqueSlugs(artists) && id in artists
    requires Truthy(patch.stageName) && slugify(patch.stageName.value) == ""
    ensures ArtistUpdate(artists, id, patch, slugify).Ok?
    ensures ArtistUpdate(artists, id, patch, slugify).value.slug == artists[id].slug
  {
    assert UpdatedSlug(artists[id], patch, slugify) == artists[id].slug;
  }

  /** Creating and updating artists keep slugs unique. */
  lemma CreateKeepsSlugsUnique(artists: map<string, Artist>, payload: NewArtist, slugify: string -> string, newId: string)
    requires UniqueSlugs(artists) && newId !in artists
    requires ArtistCreation(artists, payload, slugify).Ok?
    ensures UniqueSlugs(artists[newId := ArtistCreation(artists, payload, slugify).value])
  {
  }

  lemma UpdateKeepsSlugsUnique(artists: map<string, Artist>, id: string, patch: ArtistPatch, slugify: string -> string)
    requires UniqueSlugs(artists)
    requires ArtistUpdate(artists, id, patch, slugify).Ok?
    ensures UniqueSlugs(artists[id := ArtistUpdate(artists, id, patch, slugify).value])
  {
  }

  method UpdateArtistForAdmin(db: Db, id: string, patch: ArtistPatch, slugify: string -> string) returns (r: Result<Artist>)
    modifies db`artists
    ensures r == ArtistUpdate(old(db.artists), id, patch, slugify)
    ensures r.Ok? ==> db.artists == old(db.artists)[id := r.value]
    ensures r.Err? ==> db.artists == old(db.artists)
  {
    r := ArtistUpdate(db.artists, id, patch, slugify);
    if r.Ok? {
      db.artists := db.artists[id := r.value];
    }
  }

  /** Some order line is for a product the artist is linked to. */
  predicate UsedInOrders(orders: map<string, Order>, productArtists: set<(string, string)>, id: string) {
    exists o, i :: o in orders && 0 <= i < |orders[o].items| && (orders[o].items[i].productId, id) in productArtists
  }

  const DeletedStatus: string := "deleted"

  /** The artist table after `deleteArtistForAdmin`, or why it refuses. */
  function ArtistDeletion(artists: map<string, Artist>, orders: map<string, Order>, productArtists: set<(string, string)>,
                          id: string, now: int): (r: Result<map<string, Artist>>)
    ensures r.Err? <==> id !in artists
    ensures r.Err? ==> r == Err(NotFound("Artist not found"))
    ensures r.Ok? && UsedInOrders(orders, productArtists, id) ==>
      r.value == artists[id := artists[id].(deletedAt := Some(now), status := Some(DeletedStatus))]
    ensures r.Ok? && !UsedInOrders(orders, productArtists, id) ==> r.value == artists - {id}
  {
    if id !in artists then Err(NotFound("Artist not found"))
    else if UsedInOrders(orders, productArtists, id) then
      Ok(artists[id := artists[id].(deletedAt := Some(now), status := Some(DeletedStatus))])
    else Ok(artists - {id})
  }

  /** After a delete the artist is no longer live, whichever way it was deleted; an artist
      referenced by an order keeps its row. */
  lemma DeletedArtistIsHidden(artists: map<string, Artist>, orders: map<string, Order>, productArtists: set<(string, string)>,
                              id: string, now: int)
    requires ArtistDeletion(artists, orders, productArtists, id, now).Ok?
    ensures var after := ArtistDeletion(artists, orders, productArtists, id, now).value;
      && (id in after ==> !Live(after[id]))
      && (UsedInOrders(orders, productArtists, id) <==> id in after)
      && forall other :: other != id ==> (other in after <==> other in artists) && (other in after ==> after[other] == artists[other])
  {
  }

  method DeleteArtistForAdmin(db: Db, id: string, now: int) returns (r: Result<Artist>)
    modifies db`artists
    ensures var d := ArtistDeletion(old(db.artists), db.orders, db.productArtists, id, now);
      && (d.Ok? ==> db.artists == d.value && r.Ok?)
      && (d.Err? ==> db.artists == old(db.artists) && r == Err(d.error))
  {
    if id !in db.artists {
      return Err(NotFound("Artist not found"));
    }
    if UsedInOrders(db.orders, db.productArtists, id) {
      var row := db.artists[id].(deletedAt := Some(now), status := Some(DeletedStatus));
      db.artists := db.artists[id := row];
      return Ok(row);
    }
    r := Ok(db.artists[id]);
    db.artists := db.artists - {id};
  }
}
