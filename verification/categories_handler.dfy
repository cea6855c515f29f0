/**
 api/categories.py: the sorted list of category tags, and one category's records,
 sorted and paginated.
 */
module CategoriesHandler {
  import opened Wrappers
  import opened Text
  import opened Seqs
  import opened Sorting
  import opened Catalogue
  import opened Paging
  import opened Requests
  import DataStore

  /** A category tag as a sort key: `sorted` on strings compares them as text. */
  function TextRank(s: string): Key {
    Str(s)
  }

  /** The tags of a set whose elements were added in walk order. Sorting the set's
      elements does not depend on the set's iteration order (`SortedUnionAnyOrder`), so any
      duplicate-free listing may stand for it. */
  function TagSet(apps: seq<App>): seq<string> {
    FirstSeen(AllCategories(apps))
  }

  /** The sorted list of the collected tag set: every tag carried by some record (the empty tag
      included), once each, in strictly ascending code-point order. */
  function SortedUnion(apps: seq<App>): (r: seq<string>)
    ensures forall c :: c in r <==> exists a :: a in apps && c in a.categories
    ensures forall i, j :: 0 <= i < j < |r| ==> Less(r[i], r[j])
    ensures |r| == |Elements(AllCategories(apps))|
  {
    var tags := TagSet(apps);
    var r := SortBy(tags, TextRank, false);
    forall c
      ensures c in r <==> exists a :: a in apps && c in a.categories
    {
      AllCategoriesMembership(apps, c);
      assert c in r <==> c in multiset(tags);
    }
    DistinctPermutation(tags, r);
    forall i, j | 0 <= i < j < |r|
      ensures Less(r[i], r[j])
    {
      assert !Precedes(TextRank, false, r[j], r[i]);
      LessTotal(r[i], r[j]);
    }
    FirstSeenCardinality(AllCategories(apps));
    r
  }

  /** In a duplicate-free list of tags, each tag key selects that tag alone. */
  lemma {:induction false} TiedDistinctText(l: seq<string>, k: Key)
    requires Distinct(l)
    ensures Tied(l, TextRank, k) == if k.Str? && k.s in l then [k.s] else []
    decreases |l|
  {
    if |l| > 0 {
      TiedDistinctText(l[1..], k);
      assert l == [l[0]] + l[1..];
      assert l[0] !in l[1..];
    }
  }

  /** Sorting any duplicate-free listing of the tag set gives the same list: the order
      in which a Python set happens to yield its elements cannot show in the reply. */
  lemma SortedUnionAnyOrder(apps: seq<App>, listing: seq<string>)
    requires Distinct(listing)
    requires forall c :: c in listing <==> c in AllCategories(apps)
    ensures SortBy(listing, TextRank, false) == SortedUnion(apps)
  {
    var tags := TagSet(apps);
    var r := SortBy(listing, TextRank, false);
    forall k
      ensures Tied(r, TextRank, k) == Tied(tags, TextRank, k)
    {
      TiedDistinctText(listing, k);
      TiedDistinctText(tags, k);
    }
    SortCharacterised(tags, r, TextRank, false);
  }

  /** The body of `/api/categories`. */
  datatype TagList = TagList(count: nat, categories: seq<string>)

  /** `GET /api/categories`. */
  function GetCategories(apps: seq<App>): (r: TagList)
    ensures r.count == |r.categories| == |Elements(AllCategories(apps))|
    ensures r.categories == SortedUnion(apps)
  {
    var tags := SortedUnion(apps);
    TagList(|tags|, tags)
  }

  /** The body of `/api/categories/<name>`: the page and the name asked for. */
  datatype CategoryPage = CategoryPage(page: Page<App>, category: string)

  /** `GET /api/categories/<name>?limit&offset&sort&order`: parameters first, then the
      existence check against the union of all tags, then filter, sort and paginate. */
  function GetAppsByCategory(apps: seq<App>, name: string, limit: Arg, offset: Arg, sort: Arg, order: Arg)
    : (r: Result<CategoryPage, Fault>)
    ensures ReadParams(limit, offset, sort, order).Err? ==> r == Err(ReadParams(limit, offset, sort, order).error)
    ensures ReadParams(limit, offset, sort, order).Ok? ==>
      (r == Err(NotFound) <==> forall a :: a in apps ==> name !in a.categories)
    ensures r.Ok? <==> ReadParams(limit, offset, sort, order).Ok? && exists a :: a in apps && name in a.categories
    ensures r.Ok? ==> r.value.category == name && r.value.page.total > 0
    ensures r.Ok? ==>
      r.value.page == Window(DataStore.AppsByCategory(apps, name), ReadParams(limit, offset, sort, order).value)
  {
    match ReadParams(limit, offset, sort, order)
    case Err(f) => Err(f)
    case Ok(p) =>
      AllCategoriesMembership(apps, name);
      if name !in Elements(AllCategories(apps)) then Err(NotFound)
      else
        var found := DataStore.AppsByCategory(apps, name);
        DataStore.AppsByCategoryEmpty(apps, name);
        Ok(CategoryPage(Window(found, p), name))
  }
}
