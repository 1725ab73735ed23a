// The records exchanged by the sync endpoints and stored in the per-user tables
// (internal/model/models.go). Nullable Go pointers become `Option`; Go's
// float64 columns are carried as `real` and never computed on.
module Model {

  /** Go's `int64` (and `int`, which is 64 bits wide on the server's platforms). */
  newtype Int64 = x: int | -0x8000_0000_0000_0000 <= x < 0x8000_0000_0000_0000

  datatype Option<T> = None | Some(value: T)

  datatype Tag = Tag(
    id: Int64,
    title: string,
    key: string,
    source: string,
    pinned: Option<bool>)

  /** A manga as sent by a client; `tags` is not a column of the manga table. */
  datatype Manga = Manga(
    id: Int64,
    title: string,
    altTitle: Option<string>,
    url: string,
    publicUrl: string,
    rating: real,
    contentRating: Option<string>,
    coverUrl: string,
    largeCoverUrl: Option<string>,
    state: Option<string>,
    author: Option<string>,
    source: string,
    nsfw: Option<bool>,
    tags: seq<Tag>)

  /** A category; `deletedAt` is nullable, unlike a favourite's. */
  datatype Category = Category(
    id: Int64,
    userId: Int64,
    createdAt: Int64,
    sortKey: Int64,
    title: string,
    order: string,
    track: bool,
    showInLib: bool,
    deletedAt: Option<Int64>)

  datatype Favourite = Favourite(
    mangaId: Int64,
    manga: Option<Manga>,
    categoryId: Int64,
    userId: Int64,
    sortKey: Int64,
    pinned: bool,
    createdAt: Int64,
    deletedAt: Int64)

  datatype History = History(
    mangaId: Int64,
    manga: Option<Manga>,
    userId: Int64,
    createdAt: Int64,
    updatedAt: Int64,
    chapterId: Int64,
    page: Int64,
    scroll: real,
    percent: real,
    chapters: Int64,
    deletedAt: Int64)

  /** The part of a user row the sync engine reads and writes. */
  datatype User = User(
    id: Int64,
    email: string,
    favouritesSyncTimestamp: Option<Int64>,
    historySyncTimestamp: Option<Int64>)

  datatype FavouritesPackage = FavouritesPackage(
    categories: seq<Category>,
    favourites: seq<Favourite>,
    timestamp: Option<Int64>)

  datatype HistoryPackage = HistoryPackage(
    history: seq<History>,
    timestamp: Option<Int64>)
}
