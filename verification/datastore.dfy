/**
 The `DataStore` queries of api/index.py: exact-id lookup, the four-field text
 search, the category filter and the per-category counts. Each works on the loaded
 snapshot, a sequence of records, and never changes it.
 */
module DataStore {
  import opened Wrappers
  import opened Text
  import opened Seqs
  import opened Catalogue
  import opened Tallies

  /** `find_app_by_id`: the first record whose `id` equals `id` exactly, or `None`. */
  function FindById(apps: seq<App>, id: string): (r: Option<App>)
    ensures r.None? <==> forall i :: 0 <= i < |apps| ==> apps[i].id != id
    ensures r.Some? ==> exists i :: 0 <= i < |apps| && apps[i] == r.value && r.value.id == id
                                    && forall j :: 0 <= j < i ==> apps[j].id != id
    decreases |apps|
  {
    if |apps| == 0 then None
    else if apps[0].id == id then Some(apps[0])
    else
      var r := FindById(apps[1..], id);
      assert r.Some? ==> exists i :: 0 < i < |apps| && apps[i] == r.value && r.value.id == id
                                     && forall j :: 0 <= j < i ==> apps[j].id != id by {
        if r.Some? {
          var k :| 0 <= k < |apps[1..]| && apps[1..][k] == r.value && r.value.id == id
                   && forall j :: 0 <= j < k ==> apps[1..][j].id != id;
          assert apps[k + 1] == r.value;
          assert forall j :: 0 < j < k + 1 ==> apps[j].id == apps[1..][j - 1].id;
        }
      }
      r
  }

  /** The lookup is a function of the id: any record it returns is the unique first
      one, so two records with the same id can never both be answers. */
  lemma FindByIdIsFirst(apps: seq<App>, id: string, i: nat)
    requires i < |apps| && apps[i].id == id
    requires forall j :: 0 <= j < i ==> apps[j].id != id
    ensures FindById(apps, id) == Some(apps[i])
  {
    var r := FindById(apps, id);
    var k :| 0 <= k < |apps| && apps[k] == r.value && r.value.id == id
             && forall j :: 0 <= j < k ==> apps[j].id != id;
    assert !(k < i) && !(i < k);
  }

  /** The search test of `search_apps`, with `q` already lower-cased: a substring of the
      lower-cased name, summary, description or id. */
  predicate FieldsMatch(q: string, a: App) {
    Contains(q, Lower(a.name)) || Contains(q, Lower(a.summary))
    || Contains(q, Lower(a.description)) || Contains(q, Lower(a.id))
  }

  function MatchesQuery(q: string): App -> bool {
    (a: App) => FieldsMatch(q, a)
  }

  /** `search_apps`: the records matching the lower-cased query, in snapshot order. */
  function SearchApps(apps: seq<App>, query: string): (r: seq<App>)
    ensures IsSubsequence(r, apps)
    ensures forall a :: a in r <==> a in apps && FieldsMatch(Lower(query), a)
    ensures forall a: App :: FieldsMatch(Lower(query), a) ==> multiset(r)[a] == multiset(apps)[a]
  {
    var r := Filter(apps, MatchesQuery(Lower(query)));
    assert forall a :: a in r <==> multiset(r)[a] > 0;
    r
  }

  /** The match is case-insensitive: queries equal up to ASCII case find the same records. */
  lemma SearchIgnoresCase(apps: seq<App>, q1: string, q2: string)
    requires Lower(q1) == Lower(q2)
    ensures SearchApps(apps, q1) == SearchApps(apps, q2)
  {
  }

  /** `get_apps_by_category`: the records whose category list holds `category` exactly
      (case-sensitive), in snapshot order. */
  function AppsByCategory(apps: seq<App>, category: string): (r: seq<App>)
    ensures IsSubsequence(r, apps)
    ensures forall a :: a in r <==> a in apps && category in a.categories
    ensures forall a: App :: category in a.categories ==> multiset(r)[a] == multiset(apps)[a]
  {
    var r := Filter(apps, InCategory(category));
    assert forall a :: a in r <==> multiset(r)[a] > 0;
    r
  }

  /** No record carries the category exactly when the filter comes back empty. */
  lemma AppsByCategoryEmpty(apps: seq<App>, category: string)
    ensures AppsByCategory(apps, category) == [] <==> category !in AllCategories(apps)
  {
    AllCategoriesMembership(apps, category);
    var r := AppsByCategory(apps, category);
    if r != [] {
      assert r[0] in r;
    }
  }

  /** The category tags `get_all_categories` counts: the truthy ones, in walk order. */
  function CountedCategories(apps: seq<App>): seq<string> {
    Filter(AllCategories(apps), Truthy)
  }

  /** `get_all_categories`: one `(name, count)` pair per non-empty category tag, the
      count being the number of times the tag occurs over all records, ordered by count
      from high to low and, for equal counts, by first appearance in the snapshot. */
  function CategoryCounts(apps: seq<App>): (r: seq<Bucket<string>>)
    ensures forall i :: 0 <= i < |r| ==>
      r[i].key != "" && r[i].key in AllCategories(apps)
      && r[i].count == multiset(AllCategories(apps))[r[i].key]
    ensures forall c :: c in AllCategories(apps) && c != "" ==> c in KeysOf(r)
    ensures Distinct(KeysOf(r))
    ensures forall i, j :: 0 <= i < j < |r| ==> r[i].count >= r[j].count
    ensures forall i, j :: 0 <= i < j < |r| && r[i].count == r[j].count ==>
      FirstIndex(AllCategories(apps), r[i].key) < FirstIndex(AllCategories(apps), r[j].key)
  {
    var all := AllCategories(apps);
    var named := CountedCategories(apps);
    var r := Ranking(named);
    forall c | c in all && c != ""
      ensures c in named
    {
      FilterMembership(all, Truthy, c);
    }
    forall i | 0 <= i < |r|
      ensures r[i].key != "" && r[i].key in all && r[i].count == multiset(all)[r[i].key]
    {
      FilterMembership(all, Truthy, r[i].key);
    }
    forall i, j | 0 <= i < j < |r| && r[i].count == r[j].count
      ensures FirstIndex(all, r[i].key) < FirstIndex(all, r[j].key)
    {
      FilterMembership(all, Truthy, r[i].key);
      FilterMembership(all, Truthy, r[j].key);
      FilterKeepsFirstOrder(all, Truthy, r[i].key, r[j].key);
    }
    r
  }

  /** A name is listed by `get_all_categories` exactly when it is non-empty and some
      record carries it. */
  lemma CategoryListed(apps: seq<App>, name: string)
    ensures name in KeysOf(CategoryCounts(apps)) <==> name != "" && name in AllCategories(apps)
  {
    var r := CategoryCounts(apps);
    if name in KeysOf(r) {
      var i :| 0 <= i < |r| && KeysOf(r)[i] == name;
    }
  }
}
