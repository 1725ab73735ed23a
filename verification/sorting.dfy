// The two `sort.Slice` calls of PostFavourites (internal/api/sync.go:190-199):
// categories by id, favourites by (manga id, category id), both ascending, so
// that concurrent pushes take row locks in the same order. Both sorts are one
// in-place sort of an array by a key of two integers compared
// lexicographically; a category's key is its id with 0 in second place.
module Sorting {
  import opened Model

  type SortKey = (int, int)

  /** Lexicographic `<=` on keys. */
  predicate KeyLe(x: SortKey, y: SortKey)
  {
    x.0 < y.0 || (x.0 == y.0 && x.1 <= y.1)
  }

  /** Lexicographic `<`: the `less` function handed to sort.Slice. */
  predicate KeyLess(x: SortKey, y: SortKey)
  {
    x.0 < y.0 || (x.0 == y.0 && x.1 < y.1)
  }

  ghost predicate SortedBy<T>(s: seq<T>, key: T -> SortKey)
  {
    forall p, q :: 0 <= p < q < |s| ==> KeyLe(key(s[p]), key(s[q]))
  }

  function CategorySortKey(c: Category): SortKey
  {
    (c.id as int, 0)
  }

  function FavouriteSortKey(f: Favourite): SortKey
  {
    (f.mangaId as int, f.categoryId as int)
  }

  /** Sorting by CategorySortKey orders categories by id alone. */
  lemma CategoryKeyOrdersById(s: seq<Category>)
    ensures SortedBy(s, CategorySortKey) <==> forall p, q :: 0 <= p < q < |s| ==> s[p].id <= s[q].id
  {
  }

  /** Sorting by FavouriteSortKey orders favourites by manga id, then category id. */
  lemma FavouriteKeyOrdersByMangaThenCategory(s: seq<Favourite>)
    ensures SortedBy(s, FavouriteSortKey) <==>
      forall p, q :: 0 <= p < q < |s| ==>
        s[p].mangaId < s[q].mangaId || (s[p].mangaId == s[q].mangaId && s[p].categoryId <= s[q].categoryId)
  {
  }

  /** Sorts `a` in place by `key`; the result is ordered and holds exactly the
      elements it held before. */
  method SortByKey<T>(a: array<T>, key: T -> SortKey)
    modifies a
    ensures SortedBy(a[..], key)
    ensures multiset(a[..]) == multiset(old(a[..]))
  {
    var i := 0;
    while i < a.Length
      invariant 0 <= i <= a.Length
      invariant SortedBy(a[..i], key)
      invariant multiset(a[..]) == multiset(old(a[..]))
    {
      var j := i;
      while 0 < j && KeyLess(key(a[j]), key(a[j - 1]))
        invariant 0 <= j <= i
        invariant forall p, q :: 0 <= p < q <= i && p != j && q != j ==> KeyLe(key(a[p]), key(a[q]))
        invariant forall q :: j < q <= i ==> KeyLe(key(a[j]), key(a[q]))
        invariant multiset(a[..]) == multiset(old(a[..]))
      {
        a[j], a[j - 1] := a[j - 1], a[j];
        j := j - 1;
      }
      i := i + 1;
    }
  }
}
