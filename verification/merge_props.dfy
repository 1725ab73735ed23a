// Properties of the merge rules in merge.dfy: last-write-wins per entity,
// sticky tombstones, idempotence, placeholders, additive tag links, agreement
// of the two SQL dialects, and what a whole push does to the store.
module MergeProps {
  import opened Model
  import opened Merge

  // ---------------------------------------------------------------------------
  // History

  /** An incoming row at least as new as the stored one replaces it, with all
      progress columns at once; an older one leaves the whole store as it was. */
  lemma HistoryLastWriteWins(t: Tables, u: Int64, h: History)
    requires (u, h.mangaId) in t.history
    ensures var stored := t.history[(u, h.mangaId)];
      var r := UpsertHistory(t, u, h);
      && (h.updatedAt >= stored.updatedAt ==>
            var n := r.history[(u, h.mangaId)];
            && n.createdAt == h.createdAt && n.updatedAt == h.updatedAt
            && n.chapterId == h.chapterId && n.page == h.page
            && n.scroll == h.scroll && n.percent == h.percent
            && n.chapters == h.chapters && n.deletedAt == h.deletedAt)
      && (h.updatedAt < stored.updatedAt ==> r == t)
  {
  }

  /** With no row under the key, the incoming row is inserted as sent. */
  lemma HistoryInsert(t: Tables, u: Int64, h: History)
    requires (u, h.mangaId) !in t.history
    ensures UpsertHistory(t, u, h).history == t.history[(u, h.mangaId) := HistoryRow(u, h)]
  {
  }

  lemma HistoryUpsertIdempotent(t: Tables, u: Int64, h: History)
    ensures UpsertHistory(UpsertHistory(t, u, h), u, h) == UpsertHistory(t, u, h)
  {
  }

  /** Device A pushes progress, then device B pushes an older state of the same
      manga: the store ends as A left it. */
  lemma OlderDeviceDoesNotRewindHistory(t: Tables, u: Int64, a: History, b: History)
    requires a.mangaId == b.mangaId && b.updatedAt < a.updatedAt
    ensures UpsertHistory(UpsertHistory(t, u, a), u, b) == UpsertHistory(t, u, a)
  {
    var key := (u, a.mangaId);
    assert UpsertHistory(t, u, a).history[key].updatedAt >= a.updatedAt;
  }

  // ---------------------------------------------------------------------------
  // Categories

  /** A winning category replaces every column of the stored one; a losing one
      (in particular one with an older `created_at`) leaves the store as it was. */
  lemma CategoryLastWriteWins(t: Tables, u: Int64, c: Category)
    requires (c.id, u) in t.categories
    ensures var stored := t.categories[(c.id, u)];
      var r := UpsertCategory(t, u, c);
      && (c.createdAt > stored.createdAt
          || (c.createdAt == stored.createdAt && Coalesce(c.deletedAt) >= Coalesce(stored.deletedAt))
          ==> var n := r.categories[(c.id, u)];
              && n.createdAt == c.createdAt && n.sortKey == c.sortKey && n.title == c.title
              && n.order == c.order && n.track == c.track && n.showInLib == c.showInLib
              && n.deletedAt == c.deletedAt)
      && (c.createdAt < stored.createdAt ==> r == t)
      && (c.createdAt == stored.createdAt && Coalesce(c.deletedAt) < Coalesce(stored.deletedAt) ==> r == t)
  {
  }

  lemma CategoryInsert(t: Tables, u: Int64, c: Category)
    requires (c.id, u) !in t.categories
    ensures UpsertCategory(t, u, c).categories == t.categories[(c.id, u) := CategoryRow(u, c)]
  {
  }

  lemma CategoryUpsertIdempotent(t: Tables, u: Int64, c: Category)
    ensures UpsertCategory(UpsertCategory(t, u, c), u, c) == UpsertCategory(t, u, c)
  {
  }

  /** A NULL `deleted_at` compares exactly like 0, on either side. */
  lemma CategoryNullDeletedIsZero(incoming: Category, stored: Category)
    ensures CategoryWins(incoming.(deletedAt := None), stored) == CategoryWins(incoming.(deletedAt := Some(0)), stored)
    ensures CategoryWins(incoming, stored.(deletedAt := None)) == CategoryWins(incoming, stored.(deletedAt := Some(0)))
  {
  }

  /** Two versions of a category with the same `created_at`, one deleted later
      than the other: the more deleted one ends up stored in either order. */
  lemma {:induction false} CategoryTombstoneWinsEitherOrder(t: Tables, u: Int64, live: Category, dead: Category)
    requires live.id == dead.id && live.createdAt == dead.createdAt
    requires Coalesce(live.deletedAt) < Coalesce(dead.deletedAt)
    requires (dead.id, u) !in t.categories || CategoryWins(dead, t.categories[(dead.id, u)])
    ensures UpsertCategory(UpsertCategory(t, u, live), u, dead).categories[(dead.id, u)] == CategoryRow(u, dead)
    ensures UpsertCategory(UpsertCategory(t, u, dead), u, live).categories[(dead.id, u)] == CategoryRow(u, dead)
  {
    var key := (dead.id, u);
    var t1 := UpsertCategory(t, u, live);
    assert CategoryWins(dead, t1.categories[key]) by {
      if key in t.categories && !CategoryWins(live, t.categories[key]) {
        assert t1.categories[key] == t.categories[key];
      } else {
        assert t1.categories[key] == CategoryRow(u, live);
      }
    }
    var t2 := UpsertCategory(t, u, dead);
    assert t2.categories[key] == CategoryRow(u, dead);
    assert !CategoryWins(live, t2.categories[key]);
  }

  // ---------------------------------------------------------------------------
  // Favourites

  /** A winning favourite replaces every column of the stored one; a losing
      one leaves the store as it was. */
  lemma FavouriteLastWriteWins(t: Tables, u: Int64, f: Favourite)
    requires (f.mangaId, f.categoryId, u) in t.favourites
    ensures var stored := t.favourites[(f.mangaId, f.categoryId, u)];
      var r := UpsertFavourite(t, u, f);
      && (f.createdAt > stored.createdAt
          || (f.createdAt == stored.createdAt && f.deletedAt > stored.deletedAt)
          ==> var n := r.favourites[(f.mangaId, f.categoryId, u)];
              && n.categoryId == f.categoryId && n.sortKey == f.sortKey && n.pinned == f.pinned
              && n.createdAt == f.createdAt && n.deletedAt == f.deletedAt)
      && (f.createdAt < stored.createdAt ==> r == t)
      && (f.createdAt == stored.createdAt && f.deletedAt <= stored.deletedAt ==> r == t)
  {
  }

  /** A stored tombstone is not revived by a row with the same `created_at` that
      is not deleted. */
  lemma FavouriteTombstoneSticky(t: Tables, u: Int64, f: Favourite)
    requires (f.mangaId, f.categoryId, u) in t.favourites
    requires t.favourites[(f.mangaId, f.categoryId, u)].createdAt == f.createdAt
    requires t.favourites[(f.mangaId, f.categoryId, u)].deletedAt > 0 && f.deletedAt == 0
    ensures UpsertFavourite(t, u, f) == t
  {
  }

  lemma FavouriteInsert(t: Tables, u: Int64, f: Favourite)
    requires (f.mangaId, f.categoryId, u) !in t.favourites
    ensures UpsertFavourite(t, u, f).favourites == t.favourites[(f.mangaId, f.categoryId, u) := FavouriteRow(u, f)]
  {
  }

  lemma FavouriteUpsertIdempotent(t: Tables, u: Int64, f: Favourite)
    ensures UpsertFavourite(UpsertFavourite(t, u, f), u, f) == UpsertFavourite(t, u, f)
  {
  }

  /** Unlike a category, a favourite equal to the stored one in both
      timestamps does not overwrite it (the `>` on `deleted_at` is strict). */
  lemma EqualTimestampsTieBreak(t: Tables, u: Int64, c: Category, f: Favourite)
    requires (c.id, u) in t.categories
    requires t.categories[(c.id, u)].createdAt == c.createdAt
    requires Coalesce(t.categories[(c.id, u)].deletedAt) == Coalesce(c.deletedAt)
    requires (f.mangaId, f.categoryId, u) in t.favourites
    requires t.favourites[(f.mangaId, f.categoryId, u)].createdAt == f.createdAt
    requires t.favourites[(f.mangaId, f.categoryId, u)].deletedAt == f.deletedAt
    ensures UpsertCategory(t, u, c).categories[(c.id, u)] == CategoryRow(u, c)
    ensures UpsertFavourite(t, u, f) == t
  {
  }

  /** A row sent again as it is stored rewrites itself for history and
      categories (`>=`), but not for favourites (strict `>`). */
  lemma WinRulesOnRepeat(h: History, c: Category, f: Favourite)
    ensures HistoryWins(h, h) && CategoryWins(c, c) && !FavouriteWins(f, f)
  {
  }

  /** Of two history rows or two categories, one always wins over the other;
      two favourites equal in both timestamps beat neither way. */
  lemma WinRulesTotal(h1: History, h2: History, c1: Category, c2: Category, f1: Favourite, f2: Favourite)
    ensures HistoryWins(h1, h2) || HistoryWins(h2, h1)
    ensures CategoryWins(c1, c2) || CategoryWins(c2, c1)
    ensures f1.createdAt == f2.createdAt && f1.deletedAt == f2.deletedAt ==> !FavouriteWins(f1, f2) && !FavouriteWins(f2, f1)
  {
  }

  /** Two versions of a favourite with the same `created_at`, one deleted later
      than the other: the more deleted one ends up stored in either order. */
  lemma {:induction false} FavouriteTombstoneWinsEitherOrder(t: Tables, u: Int64, live: Favourite, dead: Favourite)
    requires live.mangaId == dead.mangaId && live.categoryId == dead.categoryId
    requires live.createdAt == dead.createdAt && live.deletedAt < dead.deletedAt
    requires var key := (dead.mangaId, dead.categoryId, u);
      key !in t.favourites || FavouriteWins(dead, t.favourites[key])
    ensures var key := (dead.mangaId, dead.categoryId, u);
      UpsertFavourite(UpsertFavourite(t, u, live), u, dead).favourites[key] == FavouriteRow(u, dead)
    ensures var key := (dead.mangaId, dead.categoryId, u);
      UpsertFavourite(UpsertFavourite(t, u, dead), u, live).favourites[key] == FavouriteRow(u, dead)
  {
    var key := (dead.mangaId, dead.categoryId, u);
    var t1 := UpsertFavourite(t, u, live);
    assert FavouriteWins(dead, t1.favourites[key]) by {
      if key in t.favourites && !FavouriteWins(live, t.favourites[key]) {
        assert t1.favourites[key] == t.favourites[key];
      } else {
        assert t1.favourites[key] == FavouriteRow(u, live);
      }
    }
    var t2 := UpsertFavourite(t, u, dead);
    assert t2.favourites[key] == FavouriteRow(u, dead);
  }

  // ---------------------------------------------------------------------------
  // The two SQL dialects write the same row.

  /** MySQL's column-by-column IFs give the row SQLite's single WHERE gives. */
  lemma HistoryDialectsAgree(stored: History, h: History)
    requires stored.manga.None? && stored.mangaId == h.mangaId
    ensures MySQLHistoryUpdate(stored, h) == if HistoryWins(h, stored) then HistoryRow(stored.userId, h) else stored
  {
  }

  lemma CategoryDialectsAgree(stored: Category, c: Category)
    requires stored.id == c.id
    ensures MySQLCategoryUpdate(stored, c) == if CategoryWins(c, stored) then CategoryRow(stored.userId, c) else stored
  {
  }

  lemma FavouriteDialectsAgree(stored: Favourite, f: Favourite)
    requires stored.manga.None? && stored.mangaId == f.mangaId && stored.categoryId == f.categoryId
    ensures MySQLFavouriteUpdate(stored, f) == if FavouriteWins(f, stored) then FavouriteRow(stored.userId, f) else stored
  {
  }

  // ---------------------------------------------------------------------------
  // Manga, tags and placeholders

  /** The tag loop changes only the tag table and the link set, and only adds
      links: those of this manga to each sent tag. */
  lemma {:induction false} LinkTagsLinks(t: Tables, mangaId: Int64, tags: seq<Tag>)
    ensures var r := LinkTags(t, mangaId, tags);
      && r == t.(tags := r.tags, mangaTags := r.mangaTags)
      && r.mangaTags == t.mangaTags + (set tag | tag in tags :: (mangaId, tag.id))
  {
    if tags != [] {
      var n := |tags| - 1;
      LinkTagsLinks(t, mangaId, tags[..n]);
      assert tags == tags[..n] + [tags[n]];
      assert (set tag | tag in tags :: (mangaId, tag.id))
          == (set tag | tag in tags[..n] :: (mangaId, tag.id)) + {(mangaId, tags[n].id)};
    }
  }

  /** upsertManga writes only the manga table, the tag table and the link
      set; every per-user table is left alone. */
  lemma UpsertMangaTouchesOnlyCatalogue(t: Tables, m: Manga)
    ensures var r := UpsertManga(t, m);
      r == t.(manga := r.manga, tags := r.tags, mangaTags := r.mangaTags)
  {
    LinkTagsLinks(t.(manga := t.manga[m.id := MangaRow(m)]), m.id, m.tags);
  }

  /** The last tag in `tags` with the given id, if any. */
  function LastSentTag(tags: seq<Tag>, id: Int64): (r: Option<Tag>)
    ensures r.Some? ==> r.value in tags && r.value.id == id
    ensures r.None? ==> forall tag :: tag in tags ==> tag.id != id
  {
    if tags == [] then None
    else if tags[|tags| - 1].id == id then Some(tags[|tags| - 1])
    else LastSentTag(tags[..|tags| - 1], id)
  }

  /** The tag loop stores, under every id it was sent, the last tag sent with
      that id, and leaves the tags it was not sent alone. */
  lemma {:induction false} LinkTagsStoresTags(t: Tables, mangaId: Int64, tags: seq<Tag>)
    ensures var r := LinkTags(t, mangaId, tags);
      forall id ::
        && (LastSentTag(tags, id).Some? ==> id in r.tags && r.tags[id] == LastSentTag(tags, id).value)
        && (LastSentTag(tags, id).None? ==>
              (id in r.tags <==> id in t.tags) && (id in t.tags ==> r.tags[id] == t.tags[id]))
  {
    if tags != [] {
      var n := |tags| - 1;
      LinkTagsStoresTags(t, mangaId, tags[..n]);
      var r0 := LinkTags(t, mangaId, tags[..n]);
      assert LinkTags(t, mangaId, tags).tags == r0.tags[tags[n].id := tags[n]];
    }
  }

  /** upsertManga overwrites every column of the manga row, keeps existing tag
      links and adds one per sent tag, stores the last sent tag under each
      sent id while every other tag id keeps its row or its absence, and
      touches no per-user table. */
  lemma UpsertMangaSpec(t: Tables, m: Manga)
    ensures var r := UpsertManga(t, m);
      && r.manga == t.manga[m.id := MangaRow(m)]
      && r.mangaTags == t.mangaTags + (set tag | tag in m.tags :: (m.id, tag.id))
      && (forall id :: LastSentTag(m.tags, id).Some? ==> id in r.tags && r.tags[id] == LastSentTag(m.tags, id).value)
      && (forall id :: LastSentTag(m.tags, id).None? ==>
            (id in r.tags <==> id in t.tags) && (id in t.tags ==> r.tags[id] == t.tags[id]))
      && r.categories == t.categories && r.favourites == t.favourites
      && r.history == t.history && r.users == t.users
  {
    LinkTagsLinks(t.(manga := t.manga[m.id := MangaRow(m)]), m.id, m.tags);
    LinkTagsStoresTags(t.(manga := t.manga[m.id := MangaRow(m)]), m.id, m.tags);
  }

  /** After ensureMangaExists the manga exists; an existing row is untouched,
      a new one is the placeholder. */
  lemma EnsureMangaExistsSpec(t: Tables, id: Int64)
    ensures var r := EnsureMangaExists(t, id);
      && id in r.manga
      && (id in t.manga ==> r == t)
      && (id !in t.manga ==>
            && r == t.(manga := r.manga) && r.manga.Keys == t.manga.Keys + {id}
            && var p := r.manga[id];
            && p.id == id && p.title == "" && p.altTitle == Some("") && p.url == ""
            && p.publicUrl == "" && p.rating == -1.0 && p.contentRating == Some("")
            && p.coverUrl == "" && p.largeCoverUrl == Some("") && p.state == Some("")
            && p.author == Some("") && p.source == "" && p.nsfw == Some(false) && p.tags == [])
  {
  }

  /** After ensureCategoryExists the category exists for that user; an
      existing row is untouched, a new one is the "Unknown" placeholder. */
  lemma EnsureCategoryExistsSpec(t: Tables, cid: Int64, u: Int64)
    ensures var r := EnsureCategoryExists(t, cid, u);
      && (cid, u) in r.categories
      && ((cid, u) in t.categories ==> r == t)
      && ((cid, u) !in t.categories ==>
            && r == t.(categories := r.categories)
            && r.categories.Keys == t.categories.Keys + {(cid, u)}
            && var c := r.categories[(cid, u)];
            && c.id == cid && c.userId == u && c.title == "Unknown" && c.order == "NEWEST"
            && c.createdAt == 0 && c.sortKey == 0 && c.deletedAt == Some(0)
            && c.track && c.showInLib)
  {
  }

  /** A placeholder category never blocks the real category: any category
      with a positive `created_at` overwrites it. */
  lemma PlaceholderCategoryIsSuperseded(t: Tables, u: Int64, c: Category)
    requires (c.id, u) !in t.categories && c.createdAt > 0
    ensures UpsertCategory(EnsureCategoryExists(t, c.id, u), u, c).categories[(c.id, u)] == CategoryRow(u, c)
  {
  }
}
