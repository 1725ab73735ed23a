// The merge rules of internal/api/sync.go, stated once on a value `Tables`
// that holds every table the sync engine touches. Each SQL upsert of the
// source is a function here; the class in store.dfy performs the same
// writes in place and is proved to agree with these functions.
module Merge {
  import opened Model

  /** history is keyed by (user_id, manga_id). */
  type HistoryKey = (Int64, Int64)
  /** categories are keyed by (id, user_id). */
  type CategoryKey = (Int64, Int64)
  /** favourites are keyed by (manga_id, category_id, user_id). */
  type FavouriteKey = (Int64, Int64, Int64)

  datatype Tables = Tables(
    manga: map<Int64, Manga>,
    tags: map<Int64, Tag>,
    mangaTags: set<(Int64, Int64)>,
    categories: map<CategoryKey, Category>,
    favourites: map<FavouriteKey, Favourite>,
    history: map<HistoryKey, History>,
    users: map<Int64, User>)

  /** Manga rows carry their id and hold no tags (those live in `tags` and
      `mangaTags`). */
  ghost predicate MangaRowsKeyed(t: Tables)
  {
    forall id :: id in t.manga ==> t.manga[id].id == id && t.manga[id].tags == []
  }

  ghost predicate TagRowsKeyed(t: Tables)
  {
    forall id :: id in t.tags ==> t.tags[id].id == id
  }

  /** Every tag link points at an existing manga and an existing tag. */
  ghost predicate LinksResolve(t: Tables)
  {
    forall p :: p in t.mangaTags ==> p.0 in t.manga && p.1 in t.tags
  }

  ghost predicate CategoryRowsKeyed(t: Tables)
  {
    forall k :: k in t.categories ==> t.categories[k].id == k.0 && t.categories[k].userId == k.1
  }

  /** Favourite rows carry their key and no manga object. */
  ghost predicate FavouriteRowsKeyed(t: Tables)
  {
    forall k :: k in t.favourites ==>
      && t.favourites[k].mangaId == k.0 && t.favourites[k].categoryId == k.1
      && t.favourites[k].userId == k.2 && t.favourites[k].manga.None?
  }

  /** Every favourite's category exists for its user. */
  ghost predicate FavouriteCategoriesExist(t: Tables)
  {
    forall k :: k in t.favourites ==> (k.1, k.2) in t.categories
  }

  /** History rows carry their key and no manga object. */
  ghost predicate HistoryRowsKeyed(t: Tables)
  {
    forall k :: k in t.history ==>
      t.history[k].userId == k.0 && t.history[k].mangaId == k.1 && t.history[k].manga.None?
  }

  ghost predicate UserRowsKeyed(t: Tables)
  {
    forall u :: u in t.users ==> t.users[u].id == u
  }

  /** The store's invariant: every row carries the key it is stored under,
      tag links point at existing rows, and every favourite's category
      exists for its user. */
  ghost predicate WellFormed(t: Tables)
  {
    && MangaRowsKeyed(t) && TagRowsKeyed(t) && LinksResolve(t)
    && CategoryRowsKeyed(t) && FavouriteRowsKeyed(t) && FavouriteCategoriesExist(t)
    && HistoryRowsKeyed(t) && UserRowsKeyed(t)
  }

  // ---------------------------------------------------------------------------
  // Win predicates: does the incoming row supersede the stored one?

  /** History: the newer or equally new `updated_at` wins, so a row sent
      again rewrites itself and an older row never overwrites a newer one. */
  predicate HistoryWins(incoming: History, stored: History): (r: bool)
    ensures incoming.updatedAt > stored.updatedAt ==> r
    ensures incoming.updatedAt == stored.updatedAt ==> r
    ensures incoming.updatedAt < stored.updatedAt ==> !r
  {
    incoming.updatedAt >= stored.updatedAt
  }

  /** SQL `COALESCE(deleted_at, 0)`. */
  function Coalesce(d: Option<Int64>): Int64
  {
    if d.Some? then d.value else 0
  }

  /** Category: a later `created_at` wins; on equal `created_at` the larger or
      equal (coalesced) `deleted_at` wins. */
  predicate CategoryWins(incoming: Category, stored: Category): (r: bool)
    ensures incoming.createdAt > stored.createdAt ==> r
    ensures incoming.createdAt < stored.createdAt ==> !r
    ensures incoming.createdAt == stored.createdAt ==> (r <==> Coalesce(incoming.deletedAt) >= Coalesce(stored.deletedAt))
  {
    || incoming.createdAt > stored.createdAt
    || (incoming.createdAt == stored.createdAt && Coalesce(incoming.deletedAt) >= Coalesce(stored.deletedAt))
  }

  /** Favourite: a later `created_at` wins; on equal `created_at` only a strictly
      larger `deleted_at` wins. */
  predicate FavouriteWins(incoming: Favourite, stored: Favourite): (r: bool)
    ensures incoming.createdAt > stored.createdAt ==> r
    ensures incoming.createdAt < stored.createdAt ==> !r
    ensures incoming.createdAt == stored.createdAt && incoming.deletedAt <= stored.deletedAt ==> !r
    ensures incoming.createdAt == stored.createdAt && incoming.deletedAt > stored.deletedAt ==> r
  {
    || incoming.createdAt > stored.createdAt
    || (incoming.createdAt == stored.createdAt && incoming.deletedAt > stored.deletedAt)
  }

  // ---------------------------------------------------------------------------
  // The row each upsert writes: the request's columns, the caller's user id.

  function HistoryRow(userId: Int64, h: History): History
  {
    h.(userId := userId, manga := None)
  }

  function CategoryRow(userId: Int64, c: Category): Category
  {
    c.(userId := userId)
  }

  function FavouriteRow(userId: Int64, f: Favourite): Favourite
  {
    f.(userId := userId, manga := None)
  }

  /** The manga table's columns: the manga without its tags. */
  function MangaRow(m: Manga): Manga
  {
    m.(tags := [])
  }

  /** The row `ensureMangaExists` inserts for a manga id nobody has sent yet. */
  function PlaceholderManga(id: Int64): (r: Manga)
    ensures r.id == id && MangaRow(r) == r
  {
    Manga(id, "", Some(""), "", "", -1.0, Some(""), "", Some(""), Some(""), Some(""), "", Some(false), [])
  }

  /** The row `ensureCategoryExists` inserts for a category nobody has sent yet. */
  function PlaceholderCategory(categoryId: Int64, userId: Int64): (r: Category)
    ensures r.id == categoryId && r.userId == userId
    ensures forall c: Category :: c.createdAt > 0 ==> CategoryWins(c, r)
    ensures forall c: Category :: c.createdAt < 0 ==> !CategoryWins(c, r)
  {
    Category(categoryId, userId, 0, 0, "Unknown", "NEWEST", true, true, Some(0))
  }

  // ---------------------------------------------------------------------------
  // Single-row upserts.

  /** upsertHistory on the history table: the row is written unless a stored
      row under the same key is strictly newer. */
  function UpsertHistoryRow(rows: map<HistoryKey, History>, userId: Int64, h: History): map<HistoryKey, History>
  {
    var key := (userId, h.mangaId);
    if key in rows && !HistoryWins(h, rows[key]) then rows
    else rows[key := HistoryRow(userId, h)]
  }

  function UpsertHistory(t: Tables, userId: Int64, h: History): (r: Tables)
    ensures r == t.(history := r.history)
    ensures r.history.Keys == t.history.Keys + {(userId, h.mangaId)}
    ensures r.history[(userId, h.mangaId)].updatedAt >= h.updatedAt
  {
    t.(history := UpsertHistoryRow(t.history, userId, h))
  }

  /** upsertCategory on the categories table. */
  function UpsertCategoryRow(rows: map<CategoryKey, Category>, userId: Int64, c: Category): map<CategoryKey, Category>
  {
    var key := (c.id, userId);
    if key in rows && !CategoryWins(c, rows[key]) then rows
    else rows[key := CategoryRow(userId, c)]
  }

  function UpsertCategory(t: Tables, userId: Int64, c: Category): (r: Tables)
    ensures r == t.(categories := r.categories)
    ensures r.categories.Keys == t.categories.Keys + {(c.id, userId)}
    ensures CategoryWins(r.categories[(c.id, userId)], c)
  {
    t.(categories := UpsertCategoryRow(t.categories, userId, c))
  }

  /** upsertFavourite on the favourites table. */
  function UpsertFavouriteRow(rows: map<FavouriteKey, Favourite>, userId: Int64, f: Favourite): map<FavouriteKey, Favourite>
  {
    var key := (f.mangaId, f.categoryId, userId);
    if key in rows && !FavouriteWins(f, rows[key]) then rows
    else rows[key := FavouriteRow(userId, f)]
  }

  function UpsertFavourite(t: Tables, userId: Int64, f: Favourite): (r: Tables)
    ensures r == t.(favourites := r.favourites)
    ensures r.favourites.Keys == t.favourites.Keys + {(f.mangaId, f.categoryId, userId)}
    ensures !FavouriteWins(f, r.favourites[(f.mangaId, f.categoryId, userId)])
  {
    t.(favourites := UpsertFavouriteRow(t.favourites, userId, f))
  }

  /** Tags are overwritten unconditionally. */
  function UpsertTag(t: Tables, tag: Tag): (r: Tables)
    ensures r == t.(tags := r.tags)
    ensures r.tags.Keys == t.tags.Keys + {tag.id} && r.tags[tag.id] == tag
  {
    t.(tags := t.tags[tag.id := tag])
  }

  /** One iteration of upsertManga's tag loop: upsert the tag, then link it
      (`INSERT OR IGNORE`, so an existing link is kept). */
  function LinkTag(t: Tables, mangaId: Int64, tag: Tag): Tables
  {
    var t1 := UpsertTag(t, tag);
    t1.(mangaTags := t1.mangaTags + {(mangaId, tag.id)})
  }

  /** The tag loop over a prefix of the manga's tags, in order. */
  function LinkTags(t: Tables, mangaId: Int64, tags: seq<Tag>): (r: Tables)
    ensures r == t.(tags := r.tags, mangaTags := r.mangaTags)
    ensures t.tags.Keys <= r.tags.Keys && t.mangaTags <= r.mangaTags
  {
    if tags == [] then t
    else LinkTag(LinkTags(t, mangaId, tags[..|tags| - 1]), mangaId, tags[|tags| - 1])
  }

  /** Manga metadata is overwritten unconditionally, then its tags are linked. */
  function UpsertManga(t: Tables, m: Manga): (r: Tables)
    ensures r.manga == t.manga[m.id := MangaRow(m)]
    ensures r == t.(manga := r.manga, tags := r.tags, mangaTags := r.mangaTags)
    ensures t.tags.Keys <= r.tags.Keys && t.mangaTags <= r.mangaTags
  {
    LinkTags(t.(manga := t.manga[m.id := MangaRow(m)]), m.id, m.tags)
  }

  /** ensureMangaExists on the manga table. */
  function EnsureMangaRow(rows: map<Int64, Manga>, mangaId: Int64): map<Int64, Manga>
  {
    if mangaId in rows then rows
    else rows[mangaId := PlaceholderManga(mangaId)]
  }

  function EnsureMangaExists(t: Tables, mangaId: Int64): (r: Tables)
    ensures mangaId in t.manga ==> r == t
    ensures r == t.(manga := r.manga) && r.manga.Keys == t.manga.Keys + {mangaId}
  {
    t.(manga := EnsureMangaRow(t.manga, mangaId))
  }

  /** ensureCategoryExists on the categories table. */
  function EnsureCategoryRow(rows: map<CategoryKey, Category>, categoryId: Int64, userId: Int64): map<CategoryKey, Category>
  {
    if (categoryId, userId) in rows then rows
    else rows[(categoryId, userId) := PlaceholderCategory(categoryId, userId)]
  }

  function EnsureCategoryExists(t: Tables, categoryId: Int64, userId: Int64): (r: Tables)
    ensures (categoryId, userId) in t.categories ==> r == t
    ensures r == t.(categories := r.categories) && r.categories.Keys == t.categories.Keys + {(categoryId, userId)}
  {
    t.(categories := EnsureCategoryRow(t.categories, categoryId, userId))
  }

  // ---------------------------------------------------------------------------
  // The loops of PostHistory and PostFavourites, item by item.

  /** One history item: its manga (when sent) and then its progress row. No
      placeholder manga is created on this path. */
  function HistoryItem(t: Tables, userId: Int64, h: History): (r: Tables)
    ensures r.history.Keys == t.history.Keys + {(userId, h.mangaId)}
    ensures r.categories == t.categories && r.favourites == t.favourites && r.users == t.users
    ensures h.manga.None? ==> r.manga == t.manga && r.tags == t.tags && r.mangaTags == t.mangaTags
  {
    var t1 := if h.manga.Some? then UpsertManga(t, h.manga.value) else t;
    UpsertHistory(t1, userId, h)
  }

  function MergeHistory(t: Tables, userId: Int64, items: seq<History>): (r: Tables)
    ensures t.history.Keys <= r.history.Keys
    ensures r.categories == t.categories && r.favourites == t.favourites && r.users == t.users
  {
    if items == [] then t
    else HistoryItem(MergeHistory(t, userId, items[..|items| - 1]), userId, items[|items| - 1])
  }

  function MergeCategories(t: Tables, userId: Int64, cats: seq<Category>): (r: Tables)
    ensures r == t.(categories := r.categories)
    ensures t.categories.Keys <= r.categories.Keys
  {
    if cats == [] then t
    else UpsertCategory(MergeCategories(t, userId, cats[..|cats| - 1]), userId, cats[|cats| - 1])
  }

  /** One favourite: its manga (sent, or a placeholder when only a non-zero id
      is sent), a placeholder category when missing, then the favourite row. */
  function FavouriteItem(t: Tables, userId: Int64, f: Favourite): (r: Tables)
    ensures r.favourites.Keys == t.favourites.Keys + {(f.mangaId, f.categoryId, userId)}
    ensures r.categories.Keys == t.categories.Keys + {(f.categoryId, userId)}
    ensures f.manga.None? && f.mangaId != 0 ==> f.mangaId in r.manga
    ensures r.history == t.history && r.users == t.users
  {
    var t1 :=
      if f.manga.Some? then UpsertManga(t, f.manga.value)
      else if f.mangaId != 0 then EnsureMangaExists(t, f.mangaId)
      else t;
    var t2 := EnsureCategoryExists(t1, f.categoryId, userId);
    UpsertFavourite(t2, userId, f)
  }

  function MergeFavourites(t: Tables, userId: Int64, favs: seq<Favourite>): (r: Tables)
    ensures t.favourites.Keys <= r.favourites.Keys && t.categories.Keys <= r.categories.Keys
    ensures r.history == t.history && r.users == t.users
  {
    if favs == [] then t
    else FavouriteItem(MergeFavourites(t, userId, favs[..|favs| - 1]), userId, favs[|favs| - 1])
  }

  /** `UPDATE users SET history_sync_timestamp = now WHERE id = userId`. */
  function SetHistorySyncTimestamp(t: Tables, userId: Int64, now: Int64): Tables
  {
    if userId in t.users
    then t.(users := t.users[userId := t.users[userId].(historySyncTimestamp := Some(now))])
    else t
  }

  /** `UPDATE users SET favourites_sync_timestamp = now WHERE id = userId`. */
  function SetFavouritesSyncTimestamp(t: Tables, userId: Int64, now: Int64): Tables
  {
    if userId in t.users
    then t.(users := t.users[userId := t.users[userId].(favouritesSyncTimestamp := Some(now))])
    else t
  }

  /** What one push writes inside its transaction. */
  datatype Push =
    | HistoryPush(userId: Int64, items: seq<History>, now: Int64)
    | FavouritesPush(userId: Int64, categories: seq<Category>, favourites: seq<Favourite>, now: Int64)

  /** The transaction body of PostHistory / PostFavourites: every category is
      written before any favourite, and the sync timestamp is set last. */
  function ApplyPush(t: Tables, push: Push): (r: Tables)
    ensures push.HistoryPush? ==> r.categories == t.categories && r.favourites == t.favourites
    ensures push.FavouritesPush? ==> r.history == t.history
    ensures r.users.Keys == t.users.Keys
  {
    match push
    case HistoryPush(u, items, now) =>
      SetHistorySyncTimestamp(MergeHistory(t, u, items), u, now)
    case FavouritesPush(u, cats, favs, now) =>
      SetFavouritesSyncTimestamp(MergeFavourites(MergeCategories(t, u, cats), u, favs), u, now)
  }

  // ---------------------------------------------------------------------------
  // The MySQL dialect: `ON DUPLICATE KEY UPDATE col = IF(pred, VALUES(col), col)`
  // assigns the columns left to right, and each IF reads the columns already
  // assigned. These functions spell that evaluation out.

  function MySQLHistoryUpdate(stored: History, h: History): (r: History)
    ensures r.mangaId == stored.mangaId && r.userId == stored.userId && r.manga == stored.manga
    ensures r == stored
         || r == stored.(createdAt := h.createdAt, chapterId := h.chapterId, page := h.page, scroll := h.scroll,
                         percent := h.percent, chapters := h.chapters, deletedAt := h.deletedAt, updatedAt := h.updatedAt)
  {
    var r1 := stored.(createdAt := if HistoryWins(h, stored) then h.createdAt else stored.createdAt);
    var r2 := r1.(chapterId := if HistoryWins(h, r1) then h.chapterId else r1.chapterId);
    var r3 := r2.(page := if HistoryWins(h, r2) then h.page else r2.page);
    var r4 := r3.(scroll := if HistoryWins(h, r3) then h.scroll else r3.scroll);
    var r5 := r4.(percent := if HistoryWins(h, r4) then h.percent else r4.percent);
    var r6 := r5.(chapters := if HistoryWins(h, r5) then h.chapters else r5.chapters);
    var r7 := r6.(deletedAt := if HistoryWins(h, r6) then h.deletedAt else r6.deletedAt);
    r7.(updatedAt := if HistoryWins(h, r7) then h.updatedAt else r7.updatedAt)
  }

  function MySQLCategoryUpdate(stored: Category, c: Category): (r: Category)
    ensures r.id == stored.id && r.userId == stored.userId
    ensures r == stored
         || r == stored.(sortKey := c.sortKey, title := c.title, order := c.order, track := c.track,
                         showInLib := c.showInLib, deletedAt := c.deletedAt, createdAt := c.createdAt)
  {
    var r1 := stored.(sortKey := if CategoryWins(c, stored) then c.sortKey else stored.sortKey);
    var r2 := r1.(title := if CategoryWins(c, r1) then c.title else r1.title);
    var r3 := r2.(order := if CategoryWins(c, r2) then c.order else r2.order);
    var r4 := r3.(track := if CategoryWins(c, r3) then c.track else r3.track);
    var r5 := r4.(showInLib := if CategoryWins(c, r4) then c.showInLib else r4.showInLib);
    var r6 := r5.(deletedAt := if CategoryWins(c, r5) then c.deletedAt else r5.deletedAt);
    r6.(createdAt := if CategoryWins(c, r6) then c.createdAt else r6.createdAt)
  }

  function MySQLFavouriteUpdate(stored: Favourite, f: Favourite): (r: Favourite)
    ensures r.mangaId == stored.mangaId && r.userId == stored.userId && r.manga == stored.manga
    ensures stored.categoryId == f.categoryId ==> r.categoryId == stored.categoryId
    ensures r == stored
         || r == stored.(categoryId := f.categoryId, sortKey := f.sortKey, pinned := f.pinned,
                         deletedAt := f.deletedAt, createdAt := f.createdAt)
  {
    var r1 := stored.(categoryId := if FavouriteWins(f, stored) then f.categoryId else stored.categoryId);
    var r2 := r1.(sortKey := if FavouriteWins(f, r1) then f.sortKey else r1.sortKey);
    var r3 := r2.(pinned := if FavouriteWins(f, r2) then f.pinned else r2.pinned);
    var r4 := r3.(deletedAt := if FavouriteWins(f, r3) then f.deletedAt else r3.deletedAt);
    r4.(createdAt := if FavouriteWins(f, r4) then f.createdAt else r4.createdAt)
  }

  // ---------------------------------------------------------------------------
  // Read views: what fetchManga / fetchHistory / fetchFavouritesAndCategories
  // may return for a given store.

  /** Tag ids linked to a manga whose tag row exists (the JOIN of fetchTags). */
  function LinkedTagIds(t: Tables, mangaId: Int64): set<Int64>
  {
    set p | p in t.mangaTags && p.0 == mangaId && p.1 in t.tags :: p.1
  }

  /** The ids carried by a list of tags. */
  ghost function TagIds(ts: seq<Tag>): set<Int64>
  {
    set i | 0 <= i < |ts| :: ts[i].id
  }

  /** The manga ids carried by a list of history entries. */
  ghost function HistoryMangaIds(hs: seq<History>): set<Int64>
  {
    set i | 0 <= i < |hs| :: hs[i].mangaId
  }

  /** The ids carried by a list of categories. */
  ghost function CategoryIds(cs: seq<Category>): set<Int64>
  {
    set i | 0 <= i < |cs| :: cs[i].id
  }

  /** The (manga id, category id) pairs carried by a list of favourites. */
  ghost function FavouriteKeys(fs: seq<Favourite>): set<(Int64, Int64)>
  {
    set i | 0 <= i < |fs| :: (fs[i].mangaId, fs[i].categoryId)
  }

  /** `tags` lists each linked tag row once, in some order. */
  ghost predicate TagsView(t: Tables, mangaId: Int64, tags: seq<Tag>)
  {
    && |tags| == |LinkedTagIds(t, mangaId)|
    && TagIds(tags) == LinkedTagIds(t, mangaId)
    && (forall tag :: tag in tags ==> tag.id in t.tags && tag == t.tags[tag.id])
  }

  /** `m` is what fetchManga returns: nothing for an unknown id, otherwise the
      stored columns with the linked tags. */
  ghost predicate MangaView(t: Tables, mangaId: Int64, m: Option<Manga>)
  {
    if mangaId in t.manga
    then m.Some? && MangaRow(m.value) == t.manga[mangaId] && TagsView(t, mangaId, m.value.tags)
    else m == None
  }

  function HistoryIdsOf(t: Tables, userId: Int64): set<Int64>
  {
    set k | k in t.history && k.0 == userId :: k.1
  }

  function CategoryIdsOf(t: Tables, userId: Int64): set<Int64>
  {
    set k | k in t.categories && k.1 == userId :: k.0
  }

  function FavouriteKeysOf(t: Tables, userId: Int64): set<(Int64, Int64)>
  {
    set k | k in t.favourites && k.2 == userId :: (k.0, k.1)
  }

  /** One entry of fetchHistory: a stored row of this user with its manga. */
  ghost predicate HistoryView(t: Tables, userId: Int64, h: History)
  {
    && (userId, h.mangaId) in t.history
    && h.userId == userId
    && h.(manga := None) == t.history[(userId, h.mangaId)]
    && MangaView(t, h.mangaId, h.manga)
  }

  ghost predicate FavouriteView(t: Tables, userId: Int64, f: Favourite)
  {
    && (f.mangaId, f.categoryId, userId) in t.favourites
    && f.userId == userId
    && f.(manga := None) == t.favourites[(f.mangaId, f.categoryId, userId)]
    && MangaView(t, f.mangaId, f.manga)
  }

  /** One entry of the category list of fetchFavouritesAndCategories. */
  ghost predicate CategoryView(t: Tables, userId: Int64, c: Category)
  {
    && (c.id, userId) in t.categories
    && c == t.categories[(c.id, userId)].(userId := userId)
  }

  /** `hs` is what fetchHistory returns: each history row of the user once,
      in some order, each with its manga. */
  ghost predicate HistoryListView(t: Tables, userId: Int64, hs: seq<History>)
  {
    && |hs| == |HistoryIdsOf(t, userId)|
    && HistoryMangaIds(hs) == HistoryIdsOf(t, userId)
    && forall h :: h in hs ==> HistoryView(t, userId, h)
  }

  /** `cats` is the category list of fetchFavouritesAndCategories. */
  ghost predicate CategoryListView(t: Tables, userId: Int64, cats: seq<Category>)
  {
    && |cats| == |CategoryIdsOf(t, userId)|
    && CategoryIds(cats) == CategoryIdsOf(t, userId)
    && forall c :: c in cats ==> CategoryView(t, userId, c)
  }

  /** `favs` is the favourite list of fetchFavouritesAndCategories. */
  ghost predicate FavouriteListView(t: Tables, userId: Int64, favs: seq<Favourite>)
  {
    && |favs| == |FavouriteKeysOf(t, userId)|
    && FavouriteKeys(favs) == FavouriteKeysOf(t, userId)
    && forall f :: f in favs ==> FavouriteView(t, userId, f)
  }

  /** What getTimestamp reads for history: the user's column, or nothing when
      the user row is missing. */
  function HistorySyncTimestampOf(t: Tables, userId: Int64): Option<Int64>
  {
    if userId in t.users then t.users[userId].historySyncTimestamp else None
  }

  function FavouritesSyncTimestampOf(t: Tables, userId: Int64): Option<Int64>
  {
    if userId in t.users then t.users[userId].favouritesSyncTimestamp else None
  }
}
