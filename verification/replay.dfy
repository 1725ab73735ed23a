// Replaying a push. A client that lost the response to PostHistory or
// PostFavourites sends the same payload again; the second transaction must
// leave the store exactly as the first one left it. A single upsert absorbs a
// repeat of itself (MergeProps), but a push is a sequence of upserts in which
// equal keys may repeat, so the whole loop is taken apart here: each table a
// push writes becomes a fold of its own, every fold is shown to absorb a second
// run, and the folds are put back together into the push.
module Replay {
  import opened Model
  import opened Merge
  import opened MergeProps

  /** A map lookup that says when the key is missing. */
  function Get<K, V>(m: map<K, V>, k: K): Option<V>
  {
    if k in m then Some(m[k]) else None
  }

  lemma MapsEqualByGet<K, V>(a: map<K, V>, b: map<K, V>)
    requires forall k :: Get(a, k) == Get(b, k)
    ensures a == b
  {
    forall k | k in a
      ensures k in b && a[k] == b[k]
    {
      assert Get(a, k) == Get(b, k);
    }
    forall k | k in b
      ensures k in a
    {
      assert Get(a, k) == Get(b, k);
    }
  }

  /** Of a stored value and one that comes later, the later one stands unless
      the stored one is there already: how INSERT OR IGNORE combines. */
  function Present<V>(stored: Option<V>, later: Option<V>): (r: Option<V>)
    ensures stored.Some? ==> r == stored
    ensures stored.None? ==> r == later
  {
    if stored.Some? then stored else later
  }

  // ---------------------------------------------------------------------------
  // History rows. Each key ends up holding, of its stored row and of what the
  // same items leave in an empty table, the one HistoryWins picks.

  /** The history table after upserting `items` in order. */
  function HistoryFold(rows: map<HistoryKey, History>, u: Int64, items: seq<History>): map<HistoryKey, History>
  {
    if items == [] then rows
    else UpsertHistoryRow(HistoryFold(rows, u, items[..|items| - 1]), u, items[|items| - 1])
  }

  /** Of a stored row and an incoming one, the row the history upsert keeps. */
  function HistoryPick(stored: Option<History>, incoming: Option<History>): Option<History>
  {
    if incoming.Some? && (stored.None? || HistoryWins(incoming.value, stored.value)) then incoming else stored
  }

  lemma UpsertHistoryRowAt(rows: map<HistoryKey, History>, u: Int64, h: History, k: HistoryKey)
    ensures Get(UpsertHistoryRow(rows, u, h), k)
         == if k == (u, h.mangaId) then HistoryPick(Get(rows, k), Some(HistoryRow(u, h))) else Get(rows, k)
  {
  }

  /** A run of history upserts acts on each key as one pick between the stored
      row and the row the same run leaves in an empty table. */
  lemma {:induction false} HistoryFoldAt(rows: map<HistoryKey, History>, u: Int64, items: seq<History>, k: HistoryKey)
    ensures Get(HistoryFold(rows, u, items), k) == HistoryPick(Get(rows, k), Get(HistoryFold(map[], u, items), k))
  {
    if items != [] {
      var n := |items| - 1;
      HistoryFoldAt(rows, u, items[..n], k);
      UpsertHistoryRowAt(HistoryFold(rows, u, items[..n]), u, items[n], k);
      UpsertHistoryRowAt(HistoryFold(map[], u, items[..n]), u, items[n], k);
    }
  }

  /** Upserting the same history items a second time changes nothing, even
      when they repeat a key with equal timestamps. */
  lemma HistoryFoldIdempotent(rows: map<HistoryKey, History>, u: Int64, items: seq<History>)
    ensures HistoryFold(HistoryFold(rows, u, items), u, items) == HistoryFold(rows, u, items)
  {
    var r := HistoryFold(rows, u, items);
    forall k
      ensures Get(HistoryFold(r, u, items), k) == Get(r, k)
    {
      HistoryFoldAt(r, u, items, k);
      HistoryFoldAt(rows, u, items, k);
    }
    MapsEqualByGet(HistoryFold(r, u, items), r);
  }

  // ---------------------------------------------------------------------------
  // Category rows.

  /** The categories table after upserting `cats` in order. */
  function CategoryFold(rows: map<CategoryKey, Category>, u: Int64, cats: seq<Category>): map<CategoryKey, Category>
  {
    if cats == [] then rows
    else UpsertCategoryRow(CategoryFold(rows, u, cats[..|cats| - 1]), u, cats[|cats| - 1])
  }

  /** Of a stored category and an incoming one, the row the upsert keeps. */
  function CategoryPick(stored: Option<Category>, incoming: Option<Category>): Option<Category>
  {
    if incoming.Some? && (stored.None? || CategoryWins(incoming.value, stored.value)) then incoming else stored
  }

  lemma UpsertCategoryRowAt(rows: map<CategoryKey, Category>, u: Int64, c: Category, k: CategoryKey)
    ensures Get(UpsertCategoryRow(rows, u, c), k)
         == if k == (c.id, u) then CategoryPick(Get(rows, k), Some(CategoryRow(u, c))) else Get(rows, k)
  {
  }

  lemma {:induction false} CategoryFoldAt(rows: map<CategoryKey, Category>, u: Int64, cats: seq<Category>, k: CategoryKey)
    ensures Get(CategoryFold(rows, u, cats), k) == CategoryPick(Get(rows, k), Get(CategoryFold(map[], u, cats), k))
  {
    if cats != [] {
      var n := |cats| - 1;
      CategoryFoldAt(rows, u, cats[..n], k);
      UpsertCategoryRowAt(CategoryFold(rows, u, cats[..n]), u, cats[n], k);
      UpsertCategoryRowAt(CategoryFold(map[], u, cats[..n]), u, cats[n], k);
    }
  }

  lemma CategoryFoldIdempotent(rows: map<CategoryKey, Category>, u: Int64, cats: seq<Category>)
    ensures CategoryFold(CategoryFold(rows, u, cats), u, cats) == CategoryFold(rows, u, cats)
  {
    var r := CategoryFold(rows, u, cats);
    forall k
      ensures Get(CategoryFold(r, u, cats), k) == Get(r, k)
    {
      CategoryFoldAt(r, u, cats, k);
      CategoryFoldAt(rows, u, cats, k);
    }
    MapsEqualByGet(CategoryFold(r, u, cats), r);
  }

  /** The placeholder categories of the favourites loop after `favs`. */
  function EnsureCategoryFold(rows: map<CategoryKey, Category>, u: Int64, favs: seq<Favourite>): map<CategoryKey, Category>
  {
    if favs == [] then rows
    else EnsureCategoryRow(EnsureCategoryFold(rows, u, favs[..|favs| - 1]), favs[|favs| - 1].categoryId, u)
  }

  /** A stored category is never touched by the placeholders; a missing one
      gets what the same favourites leave in an empty table. */
  lemma {:induction false} EnsureCategoryFoldAt(rows: map<CategoryKey, Category>, u: Int64, favs: seq<Favourite>, k: CategoryKey)
    ensures Get(EnsureCategoryFold(rows, u, favs), k) == Present(Get(rows, k), Get(EnsureCategoryFold(map[], u, favs), k))
  {
    if favs != [] {
      var n := |favs| - 1;
      EnsureCategoryFoldAt(rows, u, favs[..n], k);
    }
  }

  lemma EnsureCategoryFoldIdempotent(rows: map<CategoryKey, Category>, u: Int64, favs: seq<Favourite>)
    ensures EnsureCategoryFold(EnsureCategoryFold(rows, u, favs), u, favs) == EnsureCategoryFold(rows, u, favs)
  {
    var r := EnsureCategoryFold(rows, u, favs);
    forall k
      ensures Get(EnsureCategoryFold(r, u, favs), k) == Get(r, k)
    {
      EnsureCategoryFoldAt(r, u, favs, k);
      EnsureCategoryFoldAt(rows, u, favs, k);
    }
    MapsEqualByGet(EnsureCategoryFold(r, u, favs), r);
  }

  /** On a replay the categories are upserted again on top of the placeholders
      the first run created; none of them changes anything, because every
      category the upserts touch existed before the placeholders were added. */
  lemma CategoriesAbsorbPlaceholders(rows: map<CategoryKey, Category>, u: Int64, cats: seq<Category>, favs: seq<Favourite>)
    ensures var c1 := CategoryFold(rows, u, cats);
      CategoryFold(EnsureCategoryFold(c1, u, favs), u, cats) == EnsureCategoryFold(c1, u, favs)
  {
    var c1 := CategoryFold(rows, u, cats);
    var x := EnsureCategoryFold(c1, u, favs);
    forall k
      ensures Get(CategoryFold(x, u, cats), k) == Get(x, k)
    {
      CategoryFoldAt(x, u, cats, k);
      CategoryFoldAt(rows, u, cats, k);
      EnsureCategoryFoldAt(c1, u, favs, k);
    }
    MapsEqualByGet(CategoryFold(x, u, cats), x);
  }

  // ---------------------------------------------------------------------------
  // Favourite rows: the same shape, with the favourite's strict rule.

  /** The favourites table after upserting `favs` in order. */
  function FavouriteFold(rows: map<FavouriteKey, Favourite>, u: Int64, favs: seq<Favourite>): map<FavouriteKey, Favourite>
  {
    if favs == [] then rows
    else UpsertFavouriteRow(FavouriteFold(rows, u, favs[..|favs| - 1]), u, favs[|favs| - 1])
  }

  /** Of a stored favourite and an incoming one, the row the upsert keeps. */
  function FavouritePick(stored: Option<Favourite>, incoming: Option<Favourite>): Option<Favourite>
  {
    if incoming.Some? && (stored.None? || FavouriteWins(incoming.value, stored.value)) then incoming else stored
  }

  lemma UpsertFavouriteRowAt(rows: map<FavouriteKey, Favourite>, u: Int64, f: Favourite, k: FavouriteKey)
    ensures Get(UpsertFavouriteRow(rows, u, f), k)
         == if k == (f.mangaId, f.categoryId, u) then FavouritePick(Get(rows, k), Some(FavouriteRow(u, f))) else Get(rows, k)
  {
  }

  lemma {:induction false} FavouriteFoldAt(rows: map<FavouriteKey, Favourite>, u: Int64, favs: seq<Favourite>, k: FavouriteKey)
    ensures Get(FavouriteFold(rows, u, favs), k) == FavouritePick(Get(rows, k), Get(FavouriteFold(map[], u, favs), k))
  {
    if favs != [] {
      var n := |favs| - 1;
      FavouriteFoldAt(rows, u, favs[..n], k);
      UpsertFavouriteRowAt(FavouriteFold(rows, u, favs[..n]), u, favs[n], k);
      UpsertFavouriteRowAt(FavouriteFold(map[], u, favs[..n]), u, favs[n], k);
    }
  }

  lemma FavouriteFoldIdempotent(rows: map<FavouriteKey, Favourite>, u: Int64, favs: seq<Favourite>)
    ensures FavouriteFold(FavouriteFold(rows, u, favs), u, favs) == FavouriteFold(rows, u, favs)
  {
    var r := FavouriteFold(rows, u, favs);
    forall k
      ensures Get(FavouriteFold(r, u, favs), k) == Get(r, k)
    {
      FavouriteFoldAt(r, u, favs, k);
      FavouriteFoldAt(rows, u, favs, k);
    }
    MapsEqualByGet(FavouriteFold(r, u, favs), r);
  }

  // ---------------------------------------------------------------------------
  // Manga rows, tags and tag links, which both loops write.

  /** What one item does to the manga catalogue: upsert a sent manga, insert a
      placeholder for a bare id, or nothing. */
  datatype MangaWrite = Full(m: Manga) | Ensure(id: Int64) | Untouched

  function HistoryWrite(h: History): MangaWrite
  {
    if h.manga.Some? then Full(h.manga.value) else Untouched
  }

  function FavouriteWrite(f: Favourite): MangaWrite
  {
    if f.manga.Some? then Full(f.manga.value)
    else if f.mangaId != 0 then Ensure(f.mangaId)
    else Untouched
  }

  function HistoryWrites(items: seq<History>): seq<MangaWrite>
  {
    seq(|items|, i requires 0 <= i < |items| => HistoryWrite(items[i]))
  }

  function FavouriteWrites(favs: seq<Favourite>): seq<MangaWrite>
  {
    seq(|favs|, i requires 0 <= i < |favs| => FavouriteWrite(favs[i]))
  }

  function MangaStep(rows: map<Int64, Manga>, w: MangaWrite): map<Int64, Manga>
  {
    match w
    case Full(m) => rows[m.id := MangaRow(m)]
    case Ensure(id) => EnsureMangaRow(rows, id)
    case Untouched => rows
  }

  /** The manga table after `ws`, in order. */
  function MangaFold(rows: map<Int64, Manga>, ws: seq<MangaWrite>): map<Int64, Manga>
  {
    if ws == [] then rows else MangaStep(MangaFold(rows, ws[..|ws| - 1]), ws[|ws| - 1])
  }

  /** The last manga with this id that `ws` sends in full. */
  function LastFull(ws: seq<MangaWrite>, id: Int64): (r: Option<Manga>)
    ensures r.Some? ==> Full(r.value) in ws && r.value.id == id
    ensures r.None? ==> forall w :: w in ws && w.Full? ==> w.m.id != id
  {
    if ws == [] then None
    else if ws[|ws| - 1].Full? && ws[|ws| - 1].m.id == id then Some(ws[|ws| - 1].m)
    else LastFull(ws[..|ws| - 1], id)
  }

  /** Some item of `ws` asks for a placeholder under this id. */
  predicate Ensured(ws: seq<MangaWrite>, id: Int64)
  {
    ws != [] && (ws[|ws| - 1] == Ensure(id) || Ensured(ws[..|ws| - 1], id))
  }

  /** A manga row ends up as the last one sent in full; failing that, the
      stored row; failing that, a placeholder when one was asked for. */
  lemma {:induction false} MangaFoldAt(rows: map<Int64, Manga>, ws: seq<MangaWrite>, id: Int64)
    ensures Get(MangaFold(rows, ws), id)
         == if LastFull(ws, id).Some? then Some(MangaRow(LastFull(ws, id).value))
            else if id in rows then Some(rows[id])
            else if Ensured(ws, id) then Some(PlaceholderManga(id))
            else None
  {
    if ws != [] {
      MangaFoldAt(rows, ws[..|ws| - 1], id);
    }
  }

  lemma MangaFoldIdempotent(rows: map<Int64, Manga>, ws: seq<MangaWrite>)
    ensures MangaFold(MangaFold(rows, ws), ws) == MangaFold(rows, ws)
  {
    var r := MangaFold(rows, ws);
    forall id
      ensures Get(MangaFold(r, ws), id) == Get(r, id)
    {
      MangaFoldAt(r, ws, id);
      MangaFoldAt(rows, ws, id);
    }
    MapsEqualByGet(MangaFold(r, ws), r);
  }

  /** The tag rows the tag loop writes for one manga: the last sent tag under
      each id. */
  function TagsOf(tags: seq<Tag>): map<Int64, Tag>
  {
    if tags == [] then map[] else TagsOf(tags[..|tags| - 1])[tags[|tags| - 1].id := tags[|tags| - 1]]
  }

  function LinksOf(mangaId: Int64, tags: seq<Tag>): set<(Int64, Int64)>
  {
    set tag | tag in tags :: (mangaId, tag.id)
  }

  function WriteTags(w: MangaWrite): map<Int64, Tag>
  {
    if w.Full? then TagsOf(w.m.tags) else map[]
  }

  function WriteLinks(w: MangaWrite): set<(Int64, Int64)>
  {
    if w.Full? then LinksOf(w.m.id, w.m.tags) else {}
  }

  /** Every tag row `ws` writes, later writes overriding earlier ones. */
  function TagWrites(ws: seq<MangaWrite>): map<Int64, Tag>
  {
    if ws == [] then map[] else TagWrites(ws[..|ws| - 1]) + WriteTags(ws[|ws| - 1])
  }

  function LinkWrites(ws: seq<MangaWrite>): set<(Int64, Int64)>
  {
    if ws == [] then {} else LinkWrites(ws[..|ws| - 1]) + WriteLinks(ws[|ws| - 1])
  }

  lemma MapUnionAssociative<K, V>(a: map<K, V>, b: map<K, V>, c: map<K, V>)
    ensures (a + b) + c == a + (b + c)
  {
  }

  /** Writing the same tag rows twice is writing them once. */
  lemma MapUnionAbsorbs<K, V>(a: map<K, V>, b: map<K, V>)
    ensures (a + b) + b == a + b
  {
  }

  /** The tag loop overwrites the tag table with the rows it sends, the last
      one per id standing. */
  lemma {:induction false} LinkTagsTagTable(t: Tables, mangaId: Int64, tags: seq<Tag>)
    ensures LinkTags(t, mangaId, tags).tags == t.tags + TagsOf(tags)
  {
    if tags != [] {
      var n := |tags| - 1;
      LinkTagsTagTable(t, mangaId, tags[..n]);
      var a, b := t.tags, TagsOf(tags[..n]);
      assert (a + b)[tags[n].id := tags[n]] == a + b[tags[n].id := tags[n]];
    }
  }

  lemma UpsertMangaParts(t: Tables, m: Manga)
    ensures UpsertManga(t, m)
         == t.(manga := MangaStep(t.manga, Full(m)),
               tags := t.tags + WriteTags(Full(m)),
               mangaTags := t.mangaTags + WriteLinks(Full(m)))
  {
    var t0 := t.(manga := t.manga[m.id := MangaRow(m)]);
    LinkTagsLinks(t0, m.id, m.tags);
    LinkTagsTagTable(t0, m.id, m.tags);
  }

  // ---------------------------------------------------------------------------
  // The loops taken apart into the folds above.

  lemma HistoryItemParts(t: Tables, u: Int64, h: History)
    ensures HistoryItem(t, u, h)
         == t.(history := UpsertHistoryRow(t.history, u, h),
               manga := MangaStep(t.manga, HistoryWrite(h)),
               tags := t.tags + WriteTags(HistoryWrite(h)),
               mangaTags := t.mangaTags + WriteLinks(HistoryWrite(h)))
  {
    if h.manga.Some? {
      UpsertMangaParts(t, h.manga.value);
    } else {
      assert t.tags + map[] == t.tags;
    }
  }

  /** PostHistory's loop writes the history fold, the manga fold, and the tag
      rows and links of the manga it was sent, and nothing else. */
  lemma {:induction false} MergeHistoryParts(t: Tables, u: Int64, items: seq<History>)
    ensures var ws := HistoryWrites(items);
      MergeHistory(t, u, items)
      == t.(history := HistoryFold(t.history, u, items),
            manga := MangaFold(t.manga, ws),
            tags := t.tags + TagWrites(ws),
            mangaTags := t.mangaTags + LinkWrites(ws))
  {
    if items != [] {
      var n := |items| - 1;
      var ws, wp := HistoryWrites(items), HistoryWrites(items[..n]);
      assert ws[..n] == wp;
      assert MangaFold(t.manga, ws) == MangaStep(MangaFold(t.manga, wp), ws[n]);
      assert TagWrites(ws) == TagWrites(wp) + WriteTags(ws[n]);
      assert LinkWrites(ws) == LinkWrites(wp) + WriteLinks(ws[n]);
      MergeHistoryParts(t, u, items[..n]);
      HistoryItemParts(MergeHistory(t, u, items[..n]), u, items[n]);
      MapUnionAssociative(t.tags, TagWrites(wp), WriteTags(ws[n]));
    }
  }

  lemma {:induction false} MergeCategoriesParts(t: Tables, u: Int64, cats: seq<Category>)
    ensures MergeCategories(t, u, cats) == t.(categories := CategoryFold(t.categories, u, cats))
  {
    if cats != [] {
      MergeCategoriesParts(t, u, cats[..|cats| - 1]);
    }
  }

  lemma CategoryThenFavouriteParts(t: Tables, u: Int64, f: Favourite)
    ensures UpsertFavourite(EnsureCategoryExists(t, f.categoryId, u), u, f)
         == t.(favourites := UpsertFavouriteRow(t.favourites, u, f),
               categories := EnsureCategoryRow(t.categories, f.categoryId, u))
  {
  }

  /** The manga write of one favourite, on its own. */
  lemma FavouriteMangaParts(t: Tables, f: Favourite)
    ensures var t1 :=
        if f.manga.Some? then UpsertManga(t, f.manga.value)
        else if f.mangaId != 0 then EnsureMangaExists(t, f.mangaId)
        else t;
      t1 == t.(manga := MangaStep(t.manga, FavouriteWrite(f)),
               tags := t.tags + WriteTags(FavouriteWrite(f)),
               mangaTags := t.mangaTags + WriteLinks(FavouriteWrite(f)))
  {
    if f.manga.Some? {
      UpsertMangaParts(t, f.manga.value);
    } else {
      assert t.tags + map[] == t.tags;
    }
  }

  lemma FavouriteItemParts(t: Tables, u: Int64, f: Favourite)
    ensures FavouriteItem(t, u, f)
         == t.(favourites := UpsertFavouriteRow(t.favourites, u, f),
               categories := EnsureCategoryRow(t.categories, f.categoryId, u),
               manga := MangaStep(t.manga, FavouriteWrite(f)),
               tags := t.tags + WriteTags(FavouriteWrite(f)),
               mangaTags := t.mangaTags + WriteLinks(FavouriteWrite(f)))
  {
    var t1 :=
      if f.manga.Some? then UpsertManga(t, f.manga.value)
      else if f.mangaId != 0 then EnsureMangaExists(t, f.mangaId)
      else t;
    FavouriteMangaParts(t, f);
    CategoryThenFavouriteParts(t1, u, f);
  }

  /** PostFavourites' favourite loop writes the favourite fold, the placeholder
      categories, the manga fold, and the tag rows and links of the manga it
      was sent, and nothing else. */
  lemma {:induction false} MergeFavouritesParts(t: Tables, u: Int64, favs: seq<Favourite>)
    ensures var ws := FavouriteWrites(favs);
      MergeFavourites(t, u, favs)
      == t.(favourites := FavouriteFold(t.favourites, u, favs),
            categories := EnsureCategoryFold(t.categories, u, favs),
            manga := MangaFold(t.manga, ws),
            tags := t.tags + TagWrites(ws),
            mangaTags := t.mangaTags + LinkWrites(ws))
  {
    if favs != [] {
      var n := |favs| - 1;
      var ws, wp := FavouriteWrites(favs), FavouriteWrites(favs[..n]);
      assert ws[..n] == wp;
      assert MangaFold(t.manga, ws) == MangaStep(MangaFold(t.manga, wp), ws[n]);
      assert TagWrites(ws) == TagWrites(wp) + WriteTags(ws[n]);
      assert LinkWrites(ws) == LinkWrites(wp) + WriteLinks(ws[n]);
      MergeFavouritesParts(t, u, favs[..n]);
      FavouriteItemParts(MergeFavourites(t, u, favs[..n]), u, favs[n]);
      MapUnionAssociative(t.tags, TagWrites(wp), WriteTags(ws[n]));
    }
  }

  // ---------------------------------------------------------------------------
  // Replaying a whole push.

  /** A history push replayed at a later clock reading `now2` leaves the store
      as a single push at `now2` would: only the sync timestamp moves. */
  lemma HistoryPushIdempotent(t: Tables, u: Int64, items: seq<History>, now: Int64, now2: Int64)
    ensures ApplyPush(ApplyPush(t, HistoryPush(u, items, now)), HistoryPush(u, items, now2))
         == ApplyPush(t, HistoryPush(u, items, now2))
  {
    var ws := HistoryWrites(items);
    var r1 := ApplyPush(t, HistoryPush(u, items, now));
    MergeHistoryParts(t, u, items);
    MergeHistoryParts(r1, u, items);
    HistoryFoldIdempotent(t.history, u, items);
    MangaFoldIdempotent(t.manga, ws);
    MapUnionAbsorbs(t.tags, TagWrites(ws));
    assert MergeHistory(r1, u, items) == r1;
  }

  /** A replayed favourite loop leaves its own result alone, whatever the
      users table holds by then. */
  lemma MergeFavouritesAbsorbs(t: Tables, u: Int64, favs: seq<Favourite>, users: map<Int64, User>)
    ensures var r := MergeFavourites(t, u, favs).(users := users);
      MergeFavourites(r, u, favs) == r
  {
    var ws := FavouriteWrites(favs);
    var r := MergeFavourites(t, u, favs).(users := users);
    MergeFavouritesParts(t, u, favs);
    MergeFavouritesParts(r, u, favs);
    FavouriteFoldIdempotent(t.favourites, u, favs);
    EnsureCategoryFoldIdempotent(t.categories, u, favs);
    MangaFoldIdempotent(t.manga, ws);
    MapUnionAbsorbs(t.tags, TagWrites(ws));
  }

  /** A replayed category loop leaves the result of the first run's category
      and favourite loops alone. */
  lemma MergeCategoriesAbsorbs(t: Tables, u: Int64, cats: seq<Category>, favs: seq<Favourite>, users: map<Int64, User>)
    ensures var r := MergeFavourites(MergeCategories(t, u, cats), u, favs).(users := users);
      MergeCategories(r, u, cats) == r
  {
    var t1 := MergeCategories(t, u, cats);
    var r := MergeFavourites(t1, u, favs).(users := users);
    MergeCategoriesParts(t, u, cats);
    MergeFavouritesParts(t1, u, favs);
    MergeCategoriesParts(r, u, cats);
    CategoriesAbsorbPlaceholders(t.categories, u, cats, favs);
  }

  /** A favourites push replayed at a later clock reading `now2` leaves the
      store as a single push at `now2` would. */
  lemma FavouritesPushIdempotent(t: Tables, u: Int64, cats: seq<Category>, favs: seq<Favourite>, now: Int64, now2: Int64)
    ensures ApplyPush(ApplyPush(t, FavouritesPush(u, cats, favs, now)), FavouritesPush(u, cats, favs, now2))
         == ApplyPush(t, FavouritesPush(u, cats, favs, now2))
  {
    var t1 := MergeCategories(t, u, cats);
    var m1 := MergeFavourites(t1, u, favs);
    var r1 := SetFavouritesSyncTimestamp(m1, u, now);
    assert r1 == m1.(users := r1.users);
    MergeCategoriesAbsorbs(t, u, cats, favs, r1.users);
    MergeFavouritesAbsorbs(t1, u, favs, r1.users);
  }

  /** A client that sends the same payload again, for instance after losing
      the response, reads the clock again (`now2`). The replay leaves the store
      exactly as one push at `now2` would have left it: the rows are those of
      the first run, and only the pushing user's sync timestamp moves. With
      `now2 == push.now` the replay changes nothing at all. */
  lemma PushIdempotent(t: Tables, push: Push, now2: Int64)
    ensures ApplyPush(ApplyPush(t, push), push.(now := now2)) == ApplyPush(t, push.(now := now2))
  {
    match push
    case HistoryPush(u, items, now) => HistoryPushIdempotent(t, u, items, now, now2);
    case FavouritesPush(u, cats, favs, now) => FavouritesPushIdempotent(t, u, cats, favs, now, now2);
  }
}
