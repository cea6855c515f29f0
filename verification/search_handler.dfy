/**
 api/search.py: case-insensitive search over names and summaries, optionally narrowed
 to a comma-separated list of categories, then sorted and paginated.
 */
module SearchHandler {
  import opened Wrappers
  import opened Text
  import opened Seqs
  import opened Catalogue
  import opened Paging
  import opened Requests

  /** Each comma-separated piece with its surrounding whitespace removed. */
  function StripEach(pieces: seq<string>): (r: seq<string>)
    ensures |r| == |pieces|
    ensures forall j :: 0 <= j < |r| ==> r[j] == Strip(pieces[j])
  {
    seq(|pieces|, j requires 0 <= j < |pieces| => Strip(pieces[j]))
  }

  /** The `categories` argument: absent or empty means no category filter; otherwise the
      comma-separated names, each stripped, blanks dropped. */
  function CategoryList(arg: Arg): seq<string> {
    if arg.Some? && arg.value != "" then Filter(StripEach(SplitOn(arg.value, ',')), Truthy) else []
  }

  /** A stripped string neither starts nor ends with whitespace. */
  lemma StripEnds(s: string)
    ensures Strip(s) == [] || (!IsSpace(Strip(s)[0]) && !IsSpace(Strip(s)[|Strip(s)| - 1]))
  {
    var t := TrimStart(s);
    var r := Strip(s);
    if r != [] {
      assert r[0] == t[0];
    }
  }

  /** Every listed category is a non-empty name with no comma and no surrounding
      whitespace (stripping it again changes nothing), and every non-blank piece
      between two commas of the argument is listed. */
  lemma CategoryListItems(arg: Arg)
    ensures forall c :: c in CategoryList(arg) ==> c != "" && ',' !in c && Strip(c) == c
    ensures arg.Some? && arg.value != "" ==>
      forall j :: 0 <= j < |SplitOn(arg.value, ',')| && Strip(SplitOn(arg.value, ',')[j]) != "" ==>
        Strip(SplitOn(arg.value, ',')[j]) in CategoryList(arg)
    ensures arg.Some? && arg.value != "" ==>
      forall c :: c in CategoryList(arg) ==>
        exists j :: 0 <= j < |SplitOn(arg.value, ',')| && c == Strip(SplitOn(arg.value, ',')[j])
    ensures arg.Some? && arg.value != "" ==>
      IsSubsequence(CategoryList(arg), StripEach(SplitOn(arg.value, ',')))
    ensures arg.None? || arg.value == "" ==> CategoryList(arg) == []
  {
    if arg.Some? && arg.value != "" {
      var pieces := SplitOn(arg.value, ',');
      forall j | 0 <= j < |pieces| && Strip(pieces[j]) != ""
        ensures Strip(pieces[j]) in CategoryList(arg)
      {
        PieceListed(pieces, j);
      }
      forall c | c in CategoryList(arg)
        ensures c != "" && ',' !in c && Strip(c) == c
        ensures exists j :: 0 <= j < |pieces| && c == Strip(pieces[j])
      {
        ListedShape(pieces, c);
      }
    }
  }

  lemma PieceListed(pieces: seq<string>, j: nat)
    requires j < |pieces| && Strip(pieces[j]) != ""
    ensures Strip(pieces[j]) in Filter(StripEach(pieces), Truthy)
  {
    assert StripEach(pieces)[j] == Strip(pieces[j]);
    FilterMembership(StripEach(pieces), Truthy, Strip(pieces[j]));
  }

  lemma ListedShape(pieces: seq<string>, c: string)
    requires forall j :: 0 <= j < |pieces| ==> ',' !in pieces[j]
    requires c in Filter(StripEach(pieces), Truthy)
    ensures c != "" && ',' !in c && Strip(c) == c
    ensures exists j :: 0 <= j < |pieces| && c == Strip(pieces[j])
  {
    FilterMembership(StripEach(pieces), Truthy, c);
    var j :| 0 <= j < |pieces| && c == StripEach(pieces)[j];
    StripEnds(pieces[j]);
    StripOfTrimmed(c);
    StripWithin(pieces[j], ',');
  }

  /** Stripping only removes characters, so it cannot introduce one. */
  lemma StripWithin(s: string, x: char)
    requires x !in s
    ensures x !in Strip(s)
  {
    var t := TrimStart(s);
    forall i | 0 <= i < |t|
      ensures t[i] != x
    {
      assert t[i] == s[|s| - |t| + i];
    }
    var r := TrimEnd(t);
    forall i | 0 <= i < |r|
      ensures r[i] != x
    {
      assert r[i] == t[i];
    }
  }

  /** The text test of the handler: the query occurs in the lower-cased name or in the
      lower-cased summary. */
  function NameOrSummary(query: string): App -> bool {
    (a: App) => Contains(query, Lower(a.name)) || Contains(query, Lower(a.summary))
  }

  /** The category test of the handler: the record carries at least one of the named
      categories. */
  function InAnyOf(cats: seq<string>): App -> bool {
    (a: App) => exists c :: c in cats && c in a.categories
  }

  /** The records a search reports, before sorting: the text matches, narrowed to the
      requested categories when any are given. */
  function SearchHits(apps: seq<App>, query: string, cats: seq<string>): (r: seq<App>)
    ensures IsSubsequence(r, apps)
    ensures forall a :: a in r <==>
      a in apps && NameOrSummary(query)(a) && (cats == [] || exists c :: c in cats && c in a.categories)
    ensures forall a ::
      multiset(r)[a] == (if NameOrSummary(query)(a) && (cats == [] || InAnyOf(cats)(a)) then multiset(apps)[a] else 0)
  {
    var hits := Filter(apps, NameOrSummary(query));
    var r := if cats != [] then Filter(hits, InAnyOf(cats)) else hits;
    forall a
      ensures a in r <==>
        a in apps && NameOrSummary(query)(a) && (cats == [] || exists c :: c in cats && c in a.categories)
    {
      FilterMembership(apps, NameOrSummary(query), a);
      if cats != [] {
        FilterMembership(hits, InAnyOf(cats), a);
      }
    }
    if cats != [] then
      SubsequenceTransitive(r, hits, apps);
      r
    else r
  }

  /** `GET /api/search?q&limit&offset&categories&sort&order`: the query is lower-cased
      but not stripped, so a blank query of spaces searches for spaces. */
  function Search(apps: seq<App>, q: Arg, limit: Arg, offset: Arg, categories: Arg, sort: Arg, order: Arg)
    : (r: Result<Page<App>, Fault>)
    ensures r == Err(MissingQuery) <==> q.None? || q.value == ""
    ensures r.Ok? <==> q.Some? && q.value != "" && ReadParams(limit, offset, sort, order).Ok?
    ensures q.Some? && q.value != "" && ReadParams(limit, offset, sort, order).Err? ==>
      r == Err(ReadParams(limit, offset, sort, order).error)
    ensures r.Ok? ==> q.Some? && q.value != "" && ReadParams(limit, offset, sort, order).Ok?
    ensures r.Ok? ==>
      r.value == Window(SearchHits(apps, Lower(q.value), CategoryList(categories)), ReadParams(limit, offset, sort, order).value)
  {
    var query := Lower(if q.Some? then q.value else "");
    if query == "" then Err(MissingQuery)
    else
      match ReadParams(limit, offset, sort, order)
      case Err(f) => Err(f)
      case Ok(p) => Ok(Window(SearchHits(apps, query, CategoryList(categories)), p))
  }

  /** Letter case in the query does not matter: a query and its lower-cased form give
      the same reply. */
  lemma SearchIgnoresQueryCase(apps: seq<App>, q: string, limit: Arg, offset: Arg, categories: Arg, sort: Arg, order: Arg)
    ensures Search(apps, Some(q), limit, offset, categories, sort, order)
         == Search(apps, Some(Lower(q)), limit, offset, categories, sort, order)
  {
    LowerIdempotent(q);
  }

  /** Naming categories only ever narrows a search: the hits with a category filter are
      among the hits without one. */
  lemma CategoriesNarrow(apps: seq<App>, query: string, cats: seq<string>)
    ensures IsSubsequence(SearchHits(apps, query, cats), SearchHits(apps, query, []))
  {
    var hits := Filter(apps, NameOrSummary(query));
    assert SearchHits(apps, query, []) == hits;
    if cats == [] {
      SubsequenceReflexive(hits);
    }
  }

  lemma {:induction false} SubsequenceReflexive<T>(s: seq<T>)
    ensures IsSubsequence(s, s)
    decreases |s|
  {
    if |s| > 0 {
      SubsequenceReflexive(s[1..]);
    }
  }
}
