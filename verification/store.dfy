// The database as the handlers of internal/api/sync.go change it: one object
// whose fields are the tables, with the upsert helpers, the transaction
// bodies of PostHistory and PostFavourites, withTxRetry and the fetch helpers
// as methods. Every write is proved to perform exactly the function of the
// same name in module Merge, so the properties proved there hold of it.
module Sync {
  import opened Model
  import opened Merge
  import opened Retry
  import opened Sorting
  import PushProps

  // ---------------------------------------------------------------------------
  // Reads. A query sees the tables as one value; its rows come back in no
  // particular order, so each loop takes the keys of the user's rows one at a
  // time.

  // Appending a row to a result list adds its key and nothing else.

  lemma TagIdsAppend(ts: seq<Tag>, x: Tag)
    ensures TagIds(ts + [x]) == TagIds(ts) + {x.id}
  {
    var r := ts + [x];
    assert r[|ts|] == x;
    forall k | k in TagIds(ts) ensures k in TagIds(r) {
      var i :| 0 <= i < |ts| && ts[i].id == k;
      assert r[i] == ts[i];
    }
  }

  lemma HistoryMangaIdsAppend(hs: seq<History>, x: History)
    ensures HistoryMangaIds(hs + [x]) == HistoryMangaIds(hs) + {x.mangaId}
  {
    var r := hs + [x];
    assert r[|hs|] == x;
    forall k | k in HistoryMangaIds(hs) ensures k in HistoryMangaIds(r) {
      var i :| 0 <= i < |hs| && hs[i].mangaId == k;
      assert r[i] == hs[i];
    }
  }

  lemma CategoryIdsAppend(cs: seq<Category>, x: Category)
    ensures CategoryIds(cs + [x]) == CategoryIds(cs) + {x.id}
  {
    var r := cs + [x];
    assert r[|cs|] == x;
    forall k | k in CategoryIds(cs) ensures k in CategoryIds(r) {
      var i :| 0 <= i < |cs| && cs[i].id == k;
      assert r[i] == cs[i];
    }
  }

  lemma FavouriteKeysAppend(fs: seq<Favourite>, x: Favourite)
    ensures FavouriteKeys(fs + [x]) == FavouriteKeys(fs) + {(x.mangaId, x.categoryId)}
  {
    var r := fs + [x];
    assert r[|fs|] == x;
    forall k | k in FavouriteKeys(fs) ensures k in FavouriteKeys(r) {
      var i :| 0 <= i < |fs| && (fs[i].mangaId, fs[i].categoryId) == k;
      assert r[i] == fs[i];
    }
  }

  /** fetchTags: the tag rows linked to the manga. */
  method FetchTags(t: Tables, mangaId: Int64) returns (ts: seq<Tag>)
    requires TagRowsKeyed(t)
    ensures TagsView(t, mangaId, ts)
  {
    ghost var linked := LinkedTagIds(t, mangaId);
    var remaining := LinkedTagIds(t, mangaId);
    ts := [];
    while remaining != {}
      invariant remaining <= linked
      invariant |ts| + |remaining| == |linked| && TagIds(ts) == linked - remaining
      invariant forall tag :: tag in ts ==> tag.id in t.tags && tag == t.tags[tag.id]
      decreases |remaining|
    {
      var id :| id in remaining;
      TagIdsAppend(ts, t.tags[id]);
      ts := ts + [t.tags[id]];
      remaining := remaining - {id};
    }
  }

  /** fetchManga: nothing for an unknown id, else the row with its tags. */
  method FetchManga(t: Tables, mangaId: Int64) returns (m: Option<Manga>)
    requires MangaRowsKeyed(t)
    requires TagRowsKeyed(t)
    ensures MangaView(t, mangaId, m)
  {
    if mangaId !in t.manga {
      return None;
    }
    var ts := FetchTags(t, mangaId);
    m := Some(t.manga[mangaId].(tags := ts));
  }

  /** fetchHistory: every history row of the user, each with its manga. */
  method FetchHistory(t: Tables, userId: Int64) returns (hs: seq<History>)
    requires HistoryRowsKeyed(t)
    requires MangaRowsKeyed(t)
    requires TagRowsKeyed(t)
    ensures HistoryListView(t, userId, hs)
  {
    ghost var stored := HistoryIdsOf(t, userId);
    var remaining := HistoryIdsOf(t, userId);
    hs := [];
    while remaining != {}
      invariant remaining <= stored
      invariant |hs| + |remaining| == |stored| && HistoryMangaIds(hs) == stored - remaining
      invariant forall h :: h in hs ==> HistoryView(t, userId, h)
      decreases |remaining|
    {
      var mangaId :| mangaId in remaining;
      assert (userId, mangaId) in t.history;
      var row := t.history[(userId, mangaId)];
      var m := FetchManga(t, row.mangaId);
      var item := row.(userId := userId, manga := m);
      HistoryMangaIdsAppend(hs, item);
      hs := hs + [item];
      remaining := remaining - {mangaId};
    }
  }

  /** fetchFavouritesAndCategories: every category and every favourite of
      the user, each favourite with its manga. */
  method FetchFavouritesAndCategories(t: Tables, userId: Int64) returns (favs: seq<Favourite>, cats: seq<Category>)
    requires WellFormed(t)
    ensures CategoryListView(t, userId, cats)
    ensures FavouriteListView(t, userId, favs)
  {
    cats := FetchCategories(t, userId);
    favs := FetchFavourites(t, userId);
  }

  /** The category half of fetchFavouritesAndCategories. */
  method FetchCategories(t: Tables, userId: Int64) returns (cats: seq<Category>)
    requires CategoryRowsKeyed(t)
    ensures CategoryListView(t, userId, cats)
  {
    ghost var stored := CategoryIdsOf(t, userId);
    var remaining := CategoryIdsOf(t, userId);
    cats := [];
    while remaining != {}
      invariant remaining <= stored
      invariant |cats| + |remaining| == |stored| && CategoryIds(cats) == stored - remaining
      invariant forall c :: c in cats ==> CategoryView(t, userId, c)
      decreases |remaining|
    {
      var id :| id in remaining;
      assert (id, userId) in t.categories;
      var c := t.categories[(id, userId)].(userId := userId);
      CategoryIdsAppend(cats, c);
      cats := cats + [c];
      remaining := remaining - {id};
    }
  }

  /** The favourite half of fetchFavouritesAndCategories. */
  method FetchFavourites(t: Tables, userId: Int64) returns (favs: seq<Favourite>)
    requires FavouriteRowsKeyed(t)
    requires MangaRowsKeyed(t)
    requires TagRowsKeyed(t)
    ensures FavouriteListView(t, userId, favs)
  {
    ghost var stored := FavouriteKeysOf(t, userId);
    var remaining := FavouriteKeysOf(t, userId);
    favs := [];
    while remaining != {}
      invariant remaining <= stored
      invariant |favs| + |remaining| == |stored| && FavouriteKeys(favs) == stored - remaining
      invariant forall f :: f in favs ==> FavouriteView(t, userId, f)
      decreases |remaining|
    {
      var key :| key in remaining;
      assert (key.0, key.1, userId) in t.favourites;
      var row := t.favourites[(key.0, key.1, userId)];
      var m := FetchManga(t, row.mangaId);
      var item := row.(userId := userId, manga := m);
      FavouriteKeysAppend(favs, item);
      favs := favs + [item];
      remaining := remaining - {key};
    }
  }

  class Store {
    var manga: map<Int64, Manga>
    var tags: map<Int64, Tag>
    var mangaTags: set<(Int64, Int64)>
    var categories: map<CategoryKey, Category>
    var favourites: map<FavouriteKey, Favourite>
    var history: map<HistoryKey, History>
    var users: map<Int64, User>

    /** The tables as one value. */
    function State(): Tables
      reads this
    {
      Tables(manga, tags, mangaTags, categories, favourites, history, users)
    }

    ghost predicate Valid()
      reads this
    {
      WellFormed(State())
    }

    constructor (t: Tables)
      requires WellFormed(t)
      ensures Valid() && State() == t
    {
      manga, tags, mangaTags := t.manga, t.tags, t.mangaTags;
      categories, favourites, history, users := t.categories, t.favourites, t.history, t.users;
    }

    /** Puts every table back as it was in `t`: the effect of a rollback. */
    method Restore(t: Tables)
      modifies this
      ensures State() == t
    {
      manga, tags, mangaTags := t.manga, t.tags, t.mangaTags;
      categories, favourites, history, users := t.categories, t.favourites, t.history, t.users;
    }

    // -------------------------------------------------------------------------
    // Single-row writes.

    method UpsertTag(tag: Tag)
      modifies this
      ensures State() == Merge.UpsertTag(old(State()), tag)
    {
      tags := tags[tag.id := tag];
    }

    /** Writes the manga's columns, then upserts and links its tags in order. */
    method UpsertManga(m: Manga)
      modifies this
      ensures State() == Merge.UpsertManga(old(State()), m)
    {
      manga := manga[m.id := MangaRow(m)];
      ghost var t1 := State();
      for i := 0 to |m.tags|
        invariant State() == LinkTags(t1, m.id, m.tags[..i])
      {
        UpsertTag(m.tags[i]);
        mangaTags := mangaTags + {(m.id, m.tags[i].id)};
        assert m.tags[..i + 1][..i] == m.tags[..i];
      }
      assert m.tags[..|m.tags|] == m.tags;
    }

    method EnsureMangaExists(mangaId: Int64)
      modifies this
      ensures State() == Merge.EnsureMangaExists(old(State()), mangaId)
    {
      if mangaId !in manga {
        manga := manga[mangaId := PlaceholderManga(mangaId)];
      }
    }

    method EnsureCategoryExists(categoryId: Int64, userId: Int64)
      modifies this
      ensures State() == Merge.EnsureCategoryExists(old(State()), categoryId, userId)
    {
      if (categoryId, userId) !in categories {
        categories := categories[(categoryId, userId) := PlaceholderCategory(categoryId, userId)];
      }
    }

    method UpsertHistory(userId: Int64, h: History)
      modifies this
      ensures State() == Merge.UpsertHistory(old(State()), userId, h)
    {
      var key := (userId, h.mangaId);
      if key !in history || HistoryWins(h, history[key]) {
        history := history[key := HistoryRow(userId, h)];
      }
    }

    method UpsertCategory(userId: Int64, c: Category)
      modifies this
      ensures State() == Merge.UpsertCategory(old(State()), userId, c)
    {
      var key := (c.id, userId);
      if key !in categories || CategoryWins(c, categories[key]) {
        categories := categories[key := CategoryRow(userId, c)];
      }
    }

    method UpsertFavourite(userId: Int64, f: Favourite)
      modifies this
      ensures State() == Merge.UpsertFavourite(old(State()), userId, f)
    {
      var key := (f.mangaId, f.categoryId, userId);
      if key !in favourites || FavouriteWins(f, favourites[key]) {
        favourites := favourites[key := FavouriteRow(userId, f)];
      }
    }

    // -------------------------------------------------------------------------
    // The transaction bodies.

    /** The body PostHistory hands to withTxRetry. */
    method HistoryTxBody(userId: Int64, items: seq<History>, now: Int64)
      modifies this
      ensures State() == ApplyPush(old(State()), HistoryPush(userId, items, now))
    {
      for i := 0 to |items|
        invariant State() == MergeHistory(old(State()), userId, items[..i])
      {
        if items[i].manga.Some? {
          UpsertManga(items[i].manga.value);
        }
        UpsertHistory(userId, items[i]);
        assert items[..i + 1][..i] == items[..i];
      }
      assert items[..|items|] == items;
      if userId in users {
        users := users[userId := users[userId].(historySyncTimestamp := Some(now))];
      }
    }

    /** One iteration of the favourite loop: the manga (sent, or a
        placeholder for a bare non-zero id), a placeholder category when
        missing, then the favourite row. */
    method FavouriteTxItem(userId: Int64, fav: Favourite)
      modifies this
      ensures State() == FavouriteItem(old(State()), userId, fav)
    {
      if fav.manga.Some? {
        UpsertManga(fav.manga.value);
      } else if fav.mangaId != 0 {
        EnsureMangaExists(fav.mangaId);
      }
      ghost var placed := State();
      EnsureCategoryExists(fav.categoryId, userId);
      UpsertFavourite(userId, fav);
      assert State() == Merge.UpsertFavourite(Merge.EnsureCategoryExists(placed, fav.categoryId, userId), userId, fav);
    }

    /** The category loop of the favourites transaction. */
    method CategoriesTx(userId: Int64, cats: seq<Category>)
      modifies this
      ensures State() == MergeCategories(old(State()), userId, cats)
    {
      for i := 0 to |cats|
        invariant State() == MergeCategories(old(State()), userId, cats[..i])
      {
        UpsertCategory(userId, cats[i]);
        assert cats[..i + 1][..i] == cats[..i];
      }
      assert cats[..|cats|] == cats;
    }

    /** The favourite loop of the favourites transaction. */
    method FavouritesTx(userId: Int64, favs: seq<Favourite>)
      modifies this
      ensures State() == MergeFavourites(old(State()), userId, favs)
    {
      for i := 0 to |favs|
        invariant State() == MergeFavourites(old(State()), userId, favs[..i])
      {
        FavouriteTxItem(userId, favs[i]);
        assert favs[..i + 1][..i] == favs[..i];
      }
      assert favs[..|favs|] == favs;
    }

    /** The body PostFavourites hands to withTxRetry: every category, then
        every favourite with its manga and category made to exist first. */
    method FavouritesTxBody(userId: Int64, cats: seq<Category>, favs: seq<Favourite>, now: Int64)
      modifies this
      ensures State() == ApplyPush(old(State()), FavouritesPush(userId, cats, favs, now))
    {
      CategoriesTx(userId, cats);
      FavouritesTx(userId, favs);
      if userId in users {
        users := users[userId := users[userId].(favouritesSyncTimestamp := Some(now))];
      }
    }

    method RunPush(push: Push)
      modifies this
      ensures State() == ApplyPush(old(State()), push)
    {
      match push
      case HistoryPush(u, items, now) =>
        HistoryTxBody(u, items, now);
      case FavouritesPush(u, cats, favs, now) =>
        FavouritesTxBody(u, cats, favs, now);
    }

    /** withTxRetry: each attempt begins a transaction, runs the body and
        commits; a failed body or commit is rolled back, and retried only on
        MySQL and only for a deadlock or lock wait timeout, at most three
        attempts in all. `script` says how each attempt fares. */
    method WithTxRetry(isMySQL: bool, script: seq<AttemptOutcome>, push: Push) returns (run: TxRun)
      requires Valid()
      modifies this
      ensures Valid()
      ensures run == TxRetry(isMySQL, script)
      ensures State() == if run.result.None? then ApplyPush(old(State()), push) else old(State())
    {
      var maxAttempts := 1;
      if isMySQL {
        maxAttempts := 3;
      }
      var attempt := 1;
      while attempt <= maxAttempts
        invariant 1 <= attempt <= maxAttempts == MaxAttempts(isMySQL)
        invariant RetryFrom(isMySQL, script, attempt) == TxRetry(isMySQL, script)
        invariant State() == old(State())
        decreases maxAttempts - attempt
      {
        var outcome := OutcomeAt(script, attempt - 1);
        if outcome.BeginFails? {
          return TxRun(attempt, Some(outcome.err));
        }
        var snapshot := State();
        RunPush(push);
        if outcome.Commits? {
          PushProps.PushWellFormed(snapshot, push);
          return TxRun(attempt, None);
        }
        Restore(snapshot);
        if !isMySQL || !IsMySQLRetryableTxError(outcome.err) || attempt == maxAttempts {
          return TxRun(attempt, Some(outcome.err));
        }
        attempt := attempt + 1;
      }
      assert false;
    }

    /** getTimestamp on the history column. */
    method GetHistoryTimestamp(userId: Int64) returns (ts: Option<Int64>)
      ensures ts == HistorySyncTimestampOf(State(), userId)
      ensures ts.Some? ==> userId in users
    {
      ts := None;
      if userId in users {
        ts := users[userId].historySyncTimestamp;
      }
    }

    /** getTimestamp on the favourites column. */
    method GetFavouritesTimestamp(userId: Int64) returns (ts: Option<Int64>)
      ensures ts == FavouritesSyncTimestampOf(State(), userId)
      ensures ts.Some? ==> userId in users
    {
      ts := None;
      if userId in users {
        ts := users[userId].favouritesSyncTimestamp;
      }
    }

    // -------------------------------------------------------------------------
    // The handlers, without HTTP: what each reads or writes and returns.

    /** GetHistory: the user's history with the stored history timestamp. */
    method GetHistory(userId: Int64) returns (pkg: HistoryPackage)
      requires Valid()
      ensures pkg.timestamp == HistorySyncTimestampOf(State(), userId)
      ensures HistoryListView(State(), userId, pkg.history)
    {
      var hs := FetchHistory(State(), userId);
      var ts := GetHistoryTimestamp(userId);
      pkg := HistoryPackage(hs, ts);
    }

    /** GetFavourites: the user's categories and favourites with the stored
        favourites timestamp. */
    method GetFavourites(userId: Int64) returns (pkg: FavouritesPackage)
      requires Valid()
      ensures pkg.timestamp == FavouritesSyncTimestampOf(State(), userId)
      ensures CategoryListView(State(), userId, pkg.categories)
      ensures FavouriteListView(State(), userId, pkg.favourites)
    {
      var favs, cats := FetchFavouritesAndCategories(State(), userId);
      var ts := GetFavouritesTimestamp(userId);
      pkg := FavouritesPackage(cats, favs, ts);
    }

    /** PostHistory: merge the pushed history in one transaction; on success
        answer with the user's history and `now`, on failure with nothing
        (the handler's 500) and the store as it was. */
    method PostHistory(isMySQL: bool, userId: Int64, items: seq<History>, now: Int64, script: seq<AttemptOutcome>)
      returns (run: TxRun, pkg: Option<HistoryPackage>)
      requires Valid()
      modifies this
      ensures Valid()
      ensures run == TxRetry(isMySQL, script)
      ensures pkg.Some? <==> run.result.None?
      ensures State() == if run.result.None? then ApplyPush(old(State()), HistoryPush(userId, items, now)) else old(State())
      ensures pkg.Some? ==>
        && pkg.value.timestamp == Some(now)
        && HistoryListView(State(), userId, pkg.value.history)
    {
      run := WithTxRetry(isMySQL, script, HistoryPush(userId, items, now));
      if run.result.Some? {
        return run, None;
      }
      var hs := FetchHistory(State(), userId);
      pkg := Some(HistoryPackage(hs, Some(now)));
    }

    /** PostFavourites: sort the request (categories by id, favourites by
        manga id then category id), merge it in one transaction and, on
        success, answer with the user's categories and favourites and `now`. */
    method PostFavourites(isMySQL: bool, userId: Int64, cats: array<Category>, favs: array<Favourite>,
                          now: Int64, script: seq<AttemptOutcome>)
      returns (run: TxRun, pkg: Option<FavouritesPackage>)
      requires Valid()
      modifies this, cats, favs
      ensures Valid()
      ensures SortedBy(cats[..], CategorySortKey) && multiset(cats[..]) == multiset(old(cats[..]))
      ensures SortedBy(favs[..], FavouriteSortKey) && multiset(favs[..]) == multiset(old(favs[..]))
      ensures run == TxRetry(isMySQL, script)
      ensures pkg.Some? <==> run.result.None?
      ensures State() ==
        if run.result.None? then ApplyPush(old(State()), FavouritesPush(userId, cats[..], favs[..], now))
        else old(State())
      ensures pkg.Some? ==>
        && pkg.value.timestamp == Some(now)
        && CategoryListView(State(), userId, pkg.value.categories)
        && FavouriteListView(State(), userId, pkg.value.favourites)
    {
      SortByKey(cats, CategorySortKey);
      SortByKey(favs, FavouriteSortKey);
      run := WithTxRetry(isMySQL, script, FavouritesPush(userId, cats[..], favs[..], now));
      if run.result.Some? {
        return run, None;
      }
      var f, c := FetchFavouritesAndCategories(State(), userId);
      pkg := Some(FavouritesPackage(c, f, Some(now)));
    }
  }
}
