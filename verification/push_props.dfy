// What a whole push (the transaction body of PostHistory or PostFavourites)
// does to the store: rows are only added or replaced by rows that are not
// older, other users' rows and timestamps are untouched, every pushed item
// ends up stored (or beaten by a newer row), placeholders are in place, and
// the store stays well formed.
module PushProps {
  import opened Model
  import opened Merge
  import opened MergeProps

  /** The stored favourite is at least as new as `b`: the reverse of
      FavouriteWins(b, a) being false. */
  predicate FavouriteNotOlder(a: Favourite, b: Favourite)
  {
    a.createdAt > b.createdAt || (a.createdAt == b.createdAt && a.deletedAt >= b.deletedAt)
  }

  /** Rows of users other than `u`, and their user rows, are exactly as before. */
  ghost predicate OtherUsersUnchanged(t: Tables, r: Tables, u: Int64)
  {
    && (forall k: HistoryKey :: k.0 != u ==> (k in r.history <==> k in t.history))
    && (forall k: HistoryKey :: k.0 != u && k in t.history ==> r.history[k] == t.history[k])
    && (forall k: CategoryKey :: k.1 != u ==> (k in r.categories <==> k in t.categories))
    && (forall k: CategoryKey :: k.1 != u && k in t.categories ==> r.categories[k] == t.categories[k])
    && (forall k: FavouriteKey :: k.2 != u ==> (k in r.favourites <==> k in t.favourites))
    && (forall k: FavouriteKey :: k.2 != u && k in t.favourites ==> r.favourites[k] == t.favourites[k])
    && r.users.Keys == t.users.Keys
    && (forall v :: v != u && v in t.users ==> r.users[v] == t.users[v])
  }

  /** No stored row was replaced by an older one, and no row was deleted. */
  ghost predicate NothingOlder(t: Tables, r: Tables)
  {
    && t.manga.Keys <= r.manga.Keys
    && t.tags.Keys <= r.tags.Keys
    && t.mangaTags <= r.mangaTags
    && (forall k :: k in t.history ==> k in r.history && HistoryWins(r.history[k], t.history[k]))
    && (forall k :: k in t.categories ==> k in r.categories && CategoryWins(r.categories[k], t.categories[k]))
    && (forall k :: k in t.favourites ==> k in r.favourites && FavouriteNotOlder(r.favourites[k], t.favourites[k]))
  }

  /** `r` is `t` after writes on behalf of user `u`: nothing was deleted, no
      stored row was replaced by an older one, and nobody else's rows changed. */
  ghost predicate Extends(t: Tables, r: Tables, u: Int64)
  {
    NothingOlder(t, r) && OtherUsersUnchanged(t, r, u)
  }

  lemma NothingOlderTransitive(a: Tables, b: Tables, c: Tables)
    requires NothingOlder(a, b) && NothingOlder(b, c)
    ensures NothingOlder(a, c)
  {
  }

  lemma OtherUsersUnchangedTransitive(a: Tables, b: Tables, c: Tables, u: Int64)
    requires OtherUsersUnchanged(a, b, u) && OtherUsersUnchanged(b, c, u)
    ensures OtherUsersUnchanged(a, c, u)
  {
  }

  lemma ExtendsTransitive(a: Tables, b: Tables, c: Tables, u: Int64)
    requires Extends(a, b, u) && Extends(b, c, u)
    ensures Extends(a, c, u)
  {
    NothingOlderTransitive(a, b, c);
    OtherUsersUnchangedTransitive(a, b, c, u);
  }

  // ---------------------------------------------------------------------------
  // Each write extends the store.

  lemma UpsertMangaExtends(t: Tables, m: Manga, u: Int64)
    ensures Extends(t, UpsertManga(t, m), u)
  {
    UpsertMangaSpec(t, m);
  }

  lemma UpsertHistoryExtends(t: Tables, u: Int64, h: History)
    ensures Extends(t, UpsertHistory(t, u, h), u)
  {
  }

  lemma UpsertCategoryExtends(t: Tables, u: Int64, c: Category)
    ensures Extends(t, UpsertCategory(t, u, c), u)
  {
  }

  lemma UpsertFavouriteExtends(t: Tables, u: Int64, f: Favourite)
    ensures Extends(t, UpsertFavourite(t, u, f), u)
  {
  }

  lemma EnsureMangaExistsExtends(t: Tables, id: Int64, u: Int64)
    ensures Extends(t, EnsureMangaExists(t, id), u)
  {
  }

  lemma EnsureCategoryExistsExtends(t: Tables, cid: Int64, u: Int64)
    ensures Extends(t, EnsureCategoryExists(t, cid, u), u)
  {
    if (cid, u) !in t.categories {
      var r := EnsureCategoryExists(t, cid, u);
      assert r.categories == t.categories[(cid, u) := PlaceholderCategory(cid, u)];
      forall k: CategoryKey | k.1 != u
        ensures (k in r.categories <==> k in t.categories)
        ensures k in t.categories ==> r.categories[k] == t.categories[k]
      {
        assert k != (cid, u);
      }
    }
  }

  /** A write that touches only the users map extends the store. */
  lemma UsersOnlyExtends(t: Tables, r: Tables, u: Int64)
    requires r == t.(users := r.users)
    requires r.users.Keys == t.users.Keys
    requires forall v :: v != u && v in t.users ==> r.users[v] == t.users[v]
    ensures Extends(t, r, u)
  {
    assert NothingOlder(t, r);
  }

  lemma SetHistorySyncTimestampExtends(t: Tables, u: Int64, now: Int64)
    ensures Extends(t, SetHistorySyncTimestamp(t, u, now), u)
  {
    UsersOnlyExtends(t, SetHistorySyncTimestamp(t, u, now), u);
  }

  lemma SetFavouritesSyncTimestampExtends(t: Tables, u: Int64, now: Int64)
    ensures Extends(t, SetFavouritesSyncTimestamp(t, u, now), u)
  {
    UsersOnlyExtends(t, SetFavouritesSyncTimestamp(t, u, now), u);
  }

  lemma HistoryItemExtends(t: Tables, u: Int64, h: History)
    ensures Extends(t, HistoryItem(t, u, h), u)
  {
    var t1 := if h.manga.Some? then UpsertManga(t, h.manga.value) else t;
    if h.manga.Some? {
      UpsertMangaExtends(t, h.manga.value, u);
    }
    UpsertHistoryExtends(t1, u, h);
    ExtendsTransitive(t, t1, HistoryItem(t, u, h), u);
  }

  /** The last two writes of one favourite: its category, then its row. */
  lemma CategoryThenFavouriteExtends(t: Tables, u: Int64, f: Favourite)
    ensures Extends(t, UpsertFavourite(EnsureCategoryExists(t, f.categoryId, u), u, f), u)
  {
    var t2 := EnsureCategoryExists(t, f.categoryId, u);
    EnsureCategoryExistsExtends(t, f.categoryId, u);
    UpsertFavouriteExtends(t2, u, f);
    ExtendsTransitive(t, t2, UpsertFavourite(t2, u, f), u);
  }

  lemma FavouriteItemExtends(t: Tables, u: Int64, f: Favourite)
    ensures Extends(t, FavouriteItem(t, u, f), u)
  {
    if f.manga.Some? {
      var t1 := UpsertManga(t, f.manga.value);
      UpsertMangaExtends(t, f.manga.value, u);
      CategoryThenFavouriteExtends(t1, u, f);
      ExtendsTransitive(t, t1, FavouriteItem(t, u, f), u);
    } else if f.mangaId != 0 {
      var t1 := EnsureMangaExists(t, f.mangaId);
      EnsureMangaExistsExtends(t, f.mangaId, u);
      CategoryThenFavouriteExtends(t1, u, f);
      ExtendsTransitive(t, t1, FavouriteItem(t, u, f), u);
    } else {
      CategoryThenFavouriteExtends(t, u, f);
    }
  }

  lemma {:induction false} MergeHistoryExtends(t: Tables, u: Int64, items: seq<History>)
    ensures Extends(t, MergeHistory(t, u, items), u)
  {
    if items != [] {
      var n := |items| - 1;
      MergeHistoryExtends(t, u, items[..n]);
      HistoryItemExtends(MergeHistory(t, u, items[..n]), u, items[n]);
      ExtendsTransitive(t, MergeHistory(t, u, items[..n]), MergeHistory(t, u, items), u);
    }
  }

  lemma {:induction false} MergeCategoriesExtends(t: Tables, u: Int64, cats: seq<Category>)
    ensures Extends(t, MergeCategories(t, u, cats), u)
  {
    if cats != [] {
      var n := |cats| - 1;
      MergeCategoriesExtends(t, u, cats[..n]);
      UpsertCategoryExtends(MergeCategories(t, u, cats[..n]), u, cats[n]);
      ExtendsTransitive(t, MergeCategories(t, u, cats[..n]), MergeCategories(t, u, cats), u);
    }
  }

  lemma {:induction false} MergeFavouritesExtends(t: Tables, u: Int64, favs: seq<Favourite>)
    ensures Extends(t, MergeFavourites(t, u, favs), u)
  {
    if favs != [] {
      var n := |favs| - 1;
      MergeFavouritesExtends(t, u, favs[..n]);
      FavouriteItemExtends(MergeFavourites(t, u, favs[..n]), u, favs[n]);
      ExtendsTransitive(t, MergeFavourites(t, u, favs[..n]), MergeFavourites(t, u, favs), u);
    }
  }

  /** A push only adds rows, never replaces a row by an older one, and leaves
      every other user's rows and user record as they were. */
  lemma PushExtends(t: Tables, push: Push)
    ensures Extends(t, ApplyPush(t, push), push.userId)
  {
    match push
    case HistoryPush(u, items, now) =>
      MergeHistoryExtends(t, u, items);
      SetHistorySyncTimestampExtends(MergeHistory(t, u, items), u, now);
      ExtendsTransitive(t, MergeHistory(t, u, items), ApplyPush(t, push), u);
    case FavouritesPush(u, cats, favs, now) =>
      var t1 := MergeCategories(t, u, cats);
      MergeCategoriesExtends(t, u, cats);
      MergeFavouritesExtends(t1, u, favs);
      ExtendsTransitive(t, t1, MergeFavourites(t1, u, favs), u);
      SetFavouritesSyncTimestampExtends(MergeFavourites(t1, u, favs), u, now);
      ExtendsTransitive(t, MergeFavourites(t1, u, favs), ApplyPush(t, push), u);
  }

  /** A successful push sets the pushing user's timestamp for its resource to
      `now` (when that user row exists) and changes no other user field. */
  lemma PushSetsOwnSyncTimestamp(t: Tables, push: Push)
    ensures var r := ApplyPush(t, push);
      && r.users.Keys == t.users.Keys
      && (forall v :: v != push.userId && v in t.users ==> r.users[v] == t.users[v])
      && (push.userId in t.users ==>
            r.users[push.userId] ==
              if push.HistoryPush?
              then t.users[push.userId].(historySyncTimestamp := Some(push.now))
              else t.users[push.userId].(favouritesSyncTimestamp := Some(push.now)))
  {
  }

  /** After a push, getTimestamp for the pushed resource returns `now` when
      the pushing user's row exists; the other resource's timestamp is as
      before. */
  lemma PushTimestampRead(t: Tables, push: Push)
    requires push.userId in t.users
    ensures var r := ApplyPush(t, push);
      && (push.HistoryPush? ==>
            && HistorySyncTimestampOf(r, push.userId) == Some(push.now)
            && FavouritesSyncTimestampOf(r, push.userId) == FavouritesSyncTimestampOf(t, push.userId))
      && (push.FavouritesPush? ==>
            && FavouritesSyncTimestampOf(r, push.userId) == Some(push.now)
            && HistorySyncTimestampOf(r, push.userId) == HistorySyncTimestampOf(t, push.userId))
  {
    PushSetsOwnSyncTimestamp(t, push);
  }

  /** When nobody but `u` had rows changed, user `v`'s history, categories
      and favourites read the same. */
  lemma OtherUsersUnchangedReads(t: Tables, r: Tables, u: Int64, v: Int64)
    requires v != u && OtherUsersUnchanged(t, r, u)
    ensures HistoryIdsOf(r, v) == HistoryIdsOf(t, v)
    ensures forall id :: id in HistoryIdsOf(t, v) ==> r.history[(v, id)] == t.history[(v, id)]
    ensures CategoryIdsOf(r, v) == CategoryIdsOf(t, v)
    ensures forall id :: id in CategoryIdsOf(t, v) ==> r.categories[(id, v)] == t.categories[(id, v)]
    ensures FavouriteKeysOf(r, v) == FavouriteKeysOf(t, v)
    ensures forall k :: k in FavouriteKeysOf(t, v) ==> r.favourites[(k.0, k.1, v)] == t.favourites[(k.0, k.1, v)]
  {
    forall id | id in HistoryIdsOf(r, v) ensures id in HistoryIdsOf(t, v) {
      assert (v, id) in r.history;
    }
    forall id | id in HistoryIdsOf(t, v) ensures id in HistoryIdsOf(r, v) {
      assert (v, id) in t.history;
    }
    forall id | id in CategoryIdsOf(r, v) ensures id in CategoryIdsOf(t, v) {
      assert (id, v) in r.categories;
    }
    forall id | id in CategoryIdsOf(t, v) ensures id in CategoryIdsOf(r, v) {
      assert (id, v) in t.categories;
    }
    forall k | k in FavouriteKeysOf(r, v) ensures k in FavouriteKeysOf(t, v) {
      assert (k.0, k.1, v) in r.favourites;
    }
    forall k | k in FavouriteKeysOf(t, v) ensures k in FavouriteKeysOf(r, v) {
      assert (k.0, k.1, v) in t.favourites;
    }
  }

  /** Reads are scoped by user: the per-user rows another user `v` reads (the
      keys and rows of their history, categories and favourites) and both of
      their timestamps are unchanged by a push of `push.userId`. The shared
      manga and tag rows are not covered: the push may change them. */
  lemma PushLeavesOtherUsersReads(t: Tables, push: Push, v: Int64)
    requires v != push.userId
    ensures var r := ApplyPush(t, push);
      && HistoryIdsOf(r, v) == HistoryIdsOf(t, v)
      && (forall id :: id in HistoryIdsOf(t, v) ==> r.history[(v, id)] == t.history[(v, id)])
      && CategoryIdsOf(r, v) == CategoryIdsOf(t, v)
      && (forall id :: id in CategoryIdsOf(t, v) ==> r.categories[(id, v)] == t.categories[(id, v)])
      && FavouriteKeysOf(r, v) == FavouriteKeysOf(t, v)
      && (forall k :: k in FavouriteKeysOf(t, v) ==> r.favourites[(k.0, k.1, v)] == t.favourites[(k.0, k.1, v)])
      && HistorySyncTimestampOf(r, v) == HistorySyncTimestampOf(t, v)
      && FavouritesSyncTimestampOf(r, v) == FavouritesSyncTimestampOf(t, v)
  {
    var r := ApplyPush(t, push);
    PushExtends(t, push);
    PushSetsOwnSyncTimestamp(t, push);
    OtherUsersUnchangedReads(t, r, push.userId, v);
  }

  // ---------------------------------------------------------------------------
  // Every pushed item is stored, or beaten by a row that is not older.

  ghost predicate HistoryCovered(r: Tables, u: Int64, h: History)
  {
    (u, h.mangaId) in r.history && HistoryWins(r.history[(u, h.mangaId)], h)
  }

  ghost predicate CategoryCovered(r: Tables, u: Int64, c: Category)
  {
    (c.id, u) in r.categories && CategoryWins(r.categories[(c.id, u)], c)
  }

  /** The favourite row is there and not older, its category exists for the
      user, and so does its manga when only a non-zero id was sent. */
  ghost predicate FavouriteCovered(r: Tables, u: Int64, f: Favourite)
  {
    && (f.mangaId, f.categoryId, u) in r.favourites
    && FavouriteNotOlder(r.favourites[(f.mangaId, f.categoryId, u)], f)
    && (f.categoryId, u) in r.categories
    && (f.manga.None? && f.mangaId != 0 ==> f.mangaId in r.manga)
  }

  /** Coverage survives later writes that make nothing older. */
  lemma HistoryCoveredKept(a: Tables, b: Tables, u: Int64, h: History)
    requires NothingOlder(a, b) && HistoryCovered(a, u, h)
    ensures HistoryCovered(b, u, h)
  {
    var k := (u, h.mangaId);
    assert HistoryWins(b.history[k], a.history[k]);
  }

  lemma CategoryCoveredKept(a: Tables, b: Tables, u: Int64, c: Category)
    requires NothingOlder(a, b) && CategoryCovered(a, u, c)
    ensures CategoryCovered(b, u, c)
  {
    var k := (c.id, u);
    assert CategoryWins(b.categories[k], a.categories[k]);
  }

  lemma FavouriteCoveredKept(a: Tables, b: Tables, u: Int64, f: Favourite)
    requires NothingOlder(a, b) && FavouriteCovered(a, u, f)
    ensures FavouriteCovered(b, u, f)
  {
    var k := (f.mangaId, f.categoryId, u);
    assert FavouriteNotOlder(b.favourites[k], a.favourites[k]);
  }

  /** The item just written is covered. */
  lemma HistoryItemCovers(t: Tables, u: Int64, h: History)
    ensures HistoryCovered(HistoryItem(t, u, h), u, h)
  {
  }

  lemma UpsertFavouriteCovers(t: Tables, u: Int64, f: Favourite)
    ensures var r := UpsertFavourite(t, u, f);
      && (f.mangaId, f.categoryId, u) in r.favourites
      && FavouriteNotOlder(r.favourites[(f.mangaId, f.categoryId, u)], f)
      && r.categories == t.categories && r.manga == t.manga
  {
  }

  lemma FavouriteItemCovers(t: Tables, u: Int64, f: Favourite)
    ensures FavouriteCovered(FavouriteItem(t, u, f), u, f)
  {
    var t1 :=
      if f.manga.Some? then UpsertManga(t, f.manga.value)
      else if f.mangaId != 0 then EnsureMangaExists(t, f.mangaId)
      else t;
    if f.manga.None? && f.mangaId != 0 {
      EnsureMangaExistsSpec(t, f.mangaId);
    }
    var t2 := EnsureCategoryExists(t1, f.categoryId, u);
    EnsureCategoryExistsSpec(t1, f.categoryId, u);
    assert t2.manga == t1.manga;
    UpsertFavouriteCovers(t2, u, f);
  }

  lemma HistoryItemNothingOlder(t: Tables, u: Int64, h: History)
    ensures NothingOlder(t, HistoryItem(t, u, h))
  {
    HistoryItemExtends(t, u, h);
  }

  lemma FavouriteItemNothingOlder(t: Tables, u: Int64, f: Favourite)
    ensures NothingOlder(t, FavouriteItem(t, u, f))
  {
    FavouriteItemExtends(t, u, f);
  }

  lemma {:induction false} MergeHistoryCovers(t: Tables, u: Int64, items: seq<History>)
    ensures forall i :: 0 <= i < |items| ==> HistoryCovered(MergeHistory(t, u, items), u, items[i])
  {
    if items != [] {
      var n := |items| - 1;
      var t0 := MergeHistory(t, u, items[..n]);
      var r := MergeHistory(t, u, items);
      MergeHistoryCovers(t, u, items[..n]);
      HistoryItemNothingOlder(t0, u, items[n]);
      HistoryItemCovers(t0, u, items[n]);
      forall i | 0 <= i < n ensures HistoryCovered(r, u, items[i]) {
        assert items[..n][i] == items[i];
        HistoryCoveredKept(t0, r, u, items[i]);
      }
    }
  }

  lemma {:induction false} MergeCategoriesCovers(t: Tables, u: Int64, cats: seq<Category>)
    ensures forall i :: 0 <= i < |cats| ==> CategoryCovered(MergeCategories(t, u, cats), u, cats[i])
  {
    if cats != [] {
      var n := |cats| - 1;
      var t0 := MergeCategories(t, u, cats[..n]);
      var r := MergeCategories(t, u, cats);
      MergeCategoriesCovers(t, u, cats[..n]);
      UpsertCategoryExtends(t0, u, cats[n]);
      forall i | 0 <= i < n ensures CategoryCovered(r, u, cats[i]) {
        assert cats[..n][i] == cats[i];
        CategoryCoveredKept(t0, r, u, cats[i]);
      }
    }
  }

  lemma {:induction false} MergeFavouritesCovers(t: Tables, u: Int64, favs: seq<Favourite>)
    ensures forall i :: 0 <= i < |favs| ==> FavouriteCovered(MergeFavourites(t, u, favs), u, favs[i])
  {
    if favs != [] {
      var n := |favs| - 1;
      var t0 := MergeFavourites(t, u, favs[..n]);
      var r := MergeFavourites(t, u, favs);
      MergeFavouritesCovers(t, u, favs[..n]);
      FavouriteItemNothingOlder(t0, u, favs[n]);
      FavouriteItemCovers(t0, u, favs[n]);
      forall i | 0 <= i < n ensures FavouriteCovered(r, u, favs[i]) {
        assert favs[..n][i] == favs[i];
        FavouriteCoveredKept(t0, r, u, favs[i]);
      }
    }
  }

  /** After a history push every pushed row is stored or beaten by a stored
      row that is not older. */
  lemma HistoryPushCoversEveryItem(t: Tables, u: Int64, items: seq<History>, now: Int64)
    ensures forall i :: 0 <= i < |items| ==> HistoryCovered(ApplyPush(t, HistoryPush(u, items, now)), u, items[i])
  {
    var t1 := MergeHistory(t, u, items);
    var r := ApplyPush(t, HistoryPush(u, items, now));
    MergeHistoryCovers(t, u, items);
    SetHistorySyncTimestampExtends(t1, u, now);
    forall i | 0 <= i < |items| ensures HistoryCovered(r, u, items[i]) {
      HistoryCoveredKept(t1, r, u, items[i]);
    }
  }

  /** After a favourites push every pushed category and favourite is stored
      or beaten by a stored row that is not older; every pushed favourite has
      its category, and its manga when only a non-zero manga id was sent. */
  lemma FavouritesPushCoversEveryItem(t: Tables, u: Int64, cats: seq<Category>, favs: seq<Favourite>, now: Int64)
    ensures var r := ApplyPush(t, FavouritesPush(u, cats, favs, now));
      && (forall i :: 0 <= i < |cats| ==> CategoryCovered(r, u, cats[i]))
      && (forall i :: 0 <= i < |favs| ==> FavouriteCovered(r, u, favs[i]))
  {
    var t1 := MergeCategories(t, u, cats);
    var t2 := MergeFavourites(t1, u, favs);
    var r := ApplyPush(t, FavouritesPush(u, cats, favs, now));
    MergeCategoriesCovers(t, u, cats);
    MergeFavouritesExtends(t1, u, favs);
    MergeFavouritesCovers(t1, u, favs);
    SetFavouritesSyncTimestampExtends(t2, u, now);
    NothingOlderTransitive(t1, t2, r);
    forall i | 0 <= i < |cats| ensures CategoryCovered(r, u, cats[i]) {
      CategoryCoveredKept(t1, r, u, cats[i]);
    }
    forall i | 0 <= i < |favs| ensures FavouriteCovered(r, u, favs[i]) {
      FavouriteCoveredKept(t2, r, u, favs[i]);
    }
  }

  /** The history path never creates a placeholder manga: a push whose items
      carry no manga object leaves the manga table as it was. */
  lemma {:induction false} HistoryPushCreatesNoManga(t: Tables, u: Int64, items: seq<History>, now: Int64)
    requires forall i :: 0 <= i < |items| ==> items[i].manga.None?
    ensures ApplyPush(t, HistoryPush(u, items, now)).manga == t.manga
  {
    MergeHistoryKeepsManga(t, u, items);
  }

  lemma {:induction false} MergeHistoryKeepsManga(t: Tables, u: Int64, items: seq<History>)
    requires forall i :: 0 <= i < |items| ==> items[i].manga.None?
    ensures MergeHistory(t, u, items).manga == t.manga
  {
    if items != [] {
      var n := |items| - 1;
      assert forall i :: 0 <= i < n ==> items[..n][i] == items[i];
      MergeHistoryKeepsManga(t, u, items[..n]);
    }
  }

  // ---------------------------------------------------------------------------
  // Well-formedness is preserved.

  lemma {:induction false} LinkTagsWellFormed(t: Tables, mangaId: Int64, tags: seq<Tag>)
    requires WellFormed(t) && mangaId in t.manga
    ensures WellFormed(LinkTags(t, mangaId, tags))
  {
    if tags != [] {
      var n := |tags| - 1;
      LinkTagsWellFormed(t, mangaId, tags[..n]);
      LinkTagsLinks(t, mangaId, tags[..n]);
    }
  }

  lemma UpsertMangaWellFormed(t: Tables, m: Manga)
    requires WellFormed(t)
    ensures WellFormed(UpsertManga(t, m))
  {
    LinkTagsWellFormed(t.(manga := t.manga[m.id := MangaRow(m)]), m.id, m.tags);
  }

  lemma HistoryItemWellFormed(t: Tables, u: Int64, h: History)
    requires WellFormed(t)
    ensures WellFormed(HistoryItem(t, u, h))
  {
    if h.manga.Some? {
      var t1 := UpsertManga(t, h.manga.value);
      UpsertMangaWellFormed(t, h.manga.value);
      assert HistoryItem(t, u, h) == UpsertHistory(t1, u, h);
    }
  }

  lemma {:induction false} MergeHistoryWellFormed(t: Tables, u: Int64, items: seq<History>)
    requires WellFormed(t)
    ensures WellFormed(MergeHistory(t, u, items))
  {
    if items != [] {
      var n := |items| - 1;
      MergeHistoryWellFormed(t, u, items[..n]);
      HistoryItemWellFormed(MergeHistory(t, u, items[..n]), u, items[n]);
    }
  }

  lemma {:induction false} MergeCategoriesWellFormed(t: Tables, u: Int64, cats: seq<Category>)
    requires WellFormed(t)
    ensures WellFormed(MergeCategories(t, u, cats))
  {
    if cats != [] {
      var n := |cats| - 1;
      MergeCategoriesWellFormed(t, u, cats[..n]);
      MergeCategoriesExtends(t, u, cats[..n]);
    }
  }

  lemma EnsureMangaExistsWellFormed(t: Tables, id: Int64)
    requires WellFormed(t)
    ensures WellFormed(EnsureMangaExists(t, id))
  {
  }

  lemma EnsureCategoryExistsWellFormed(t: Tables, cid: Int64, u: Int64)
    requires WellFormed(t)
    ensures WellFormed(EnsureCategoryExists(t, cid, u))
  {
  }

  lemma UpsertFavouriteWellFormed(t: Tables, u: Int64, f: Favourite)
    requires WellFormed(t) && (f.categoryId, u) in t.categories
    ensures WellFormed(UpsertFavourite(t, u, f))
  {
    var key := (f.mangaId, f.categoryId, u);
    if key !in t.favourites || FavouriteWins(f, t.favourites[key]) {
      var favs := t.favourites[key := FavouriteRow(u, f)];
      var r := t.(favourites := favs);
      assert UpsertFavourite(t, u, f) == r;
      assert FavouriteRowsKeyed(r) by {
        forall k | k in favs
          ensures favs[k].mangaId == k.0 && favs[k].categoryId == k.1 && favs[k].userId == k.2 && favs[k].manga.None?
        {
          if k != key {
            assert favs[k] == t.favourites[k];
          }
        }
      }
      assert FavouriteCategoriesExist(r) by {
        forall k | k in favs ensures (k.1, k.2) in r.categories {
          if k != key {
            assert k in t.favourites;
          }
        }
      }
    }
  }

  lemma FavouriteItemWellFormed(t: Tables, u: Int64, f: Favourite)
    requires WellFormed(t)
    ensures WellFormed(FavouriteItem(t, u, f))
  {
    var t1 :=
      if f.manga.Some? then UpsertManga(t, f.manga.value)
      else if f.mangaId != 0 then EnsureMangaExists(t, f.mangaId)
      else t;
    if f.manga.Some? {
      UpsertMangaWellFormed(t, f.manga.value);
    } else if f.mangaId != 0 {
      EnsureMangaExistsWellFormed(t, f.mangaId);
    }
    var t2 := EnsureCategoryExists(t1, f.categoryId, u);
    EnsureCategoryExistsWellFormed(t1, f.categoryId, u);
    UpsertFavouriteWellFormed(t2, u, f);
  }

  lemma {:induction false} MergeFavouritesWellFormed(t: Tables, u: Int64, favs: seq<Favourite>)
    requires WellFormed(t)
    ensures WellFormed(MergeFavourites(t, u, favs))
  {
    if favs != [] {
      var n := |favs| - 1;
      MergeFavouritesWellFormed(t, u, favs[..n]);
      FavouriteItemWellFormed(MergeFavourites(t, u, favs[..n]), u, favs[n]);
    }
  }

  /** A push keeps the store well formed: one row per key carrying its key,
      tag links to existing rows, and every favourite's category present. */
  lemma PushWellFormed(t: Tables, push: Push)
    requires WellFormed(t)
    ensures WellFormed(ApplyPush(t, push))
  {
    match push
    case HistoryPush(u, items, now) =>
      MergeHistoryWellFormed(t, u, items);
    case FavouritesPush(u, cats, favs, now) =>
      MergeCategoriesWellFormed(t, u, cats);
      MergeFavouritesWellFormed(MergeCategories(t, u, cats), u, favs);
  }
}
