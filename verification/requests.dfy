/**
 The query parameters shared by the serverless list handlers (api/apps.py,
 api/categories.py, api/search.py). Four arguments are read: an optional page size
 (`limit`, no limit when absent or empty), a start position (`offset`, 0 when absent),
 a sort field (`sort`, `name` by default, one of four field names) and a direction
 (`order`, ascending by default, `asc` or `desc`).

 A `ValueError` from either `int()` is a 400 before the names are looked at; then a
 bad sort field, then a bad order, each a 400 of its own.
 */
module Requests {
  import opened Wrappers
  import opened Numerals
  import opened Sorting
  import opened Catalogue
  import opened Paging

  /** A query-string argument: `None` when absent, else its text. */
  type Arg = Option<string>

  /** Why a handler answers with an error: a parameter it cannot use, or a target that
      does not exist. */
  datatype Fault = BadNumber | BadSortField | BadOrder | MissingQuery | MissingAppId | NotFound

  /** The HTTP status of each error answer. */
  function HttpStatus(f: Fault): int {
    if f == NotFound then 404 else 400
  }

  /** The parameters once read. */
  datatype Params = Params(limit: Option<int>, offset: int, field: SortField, order: Order)

  /** Text `int()` accepts. */
  predicate IsIntText(t: string) {
    ParseInt(t).Some?
  }

  /** The page size: an absent or empty argument means no limit (the default of 20 in
      the source is never used); anything else must be an integer. */
  function ReadLimit(arg: Arg): (r: Result<Option<int>, Fault>)
    ensures r.Err? <==> arg.Some? && arg.value != "" && !IsIntText(arg.value)
    ensures r.Ok? && r.value.Some? ==> arg.Some? && ParseInt(arg.value) == r.value
    ensures r.Ok? && r.value.None? <==> arg.None? || arg.value == ""
  {
    if arg.Some? && arg.value != "" then
      match ParseInt(arg.value)
      case Some(n) => Ok(Some(n))
      case None => Err(BadNumber)
    else Ok(None)
  }

  /** The start position: absent means 0; present text, even empty, must be an
      integer. */
  function ReadOffset(arg: Arg): (r: Result<int, Fault>)
    ensures r.Err? <==> arg.Some? && !IsIntText(arg.value)
    ensures r.Ok? && arg.Some? ==> ParseInt(arg.value) == Some(r.value)
    ensures arg.None? ==> r == Ok(0)
  {
    match arg
    case None => Ok(0)
    case Some(t) =>
      match ParseInt(t)
      case Some(n) => Ok(n)
      case None => Err(BadNumber)
  }

  function FieldName(f: SortField): string {
    match f
    case ByName => "name"
    case ByVersion => "version"
    case ByVersionCode => "versionCode"
    case ById => "id"
  }

  /** The accepted `sort` values. */
  const SortFieldNames: seq<string> := ["name", "version", "versionCode", "id"]

  /** Whether a `sort` value is one of the four accepted field names, and which field it
      names. */
  function FieldNamed(name: string): (r: Option<SortField>)
    ensures r.Some? <==> name in SortFieldNames
    ensures r.Some? ==> FieldName(r.value) == name
  {
    if name == "name" then Some(ByName)
    else if name == "version" then Some(ByVersion)
    else if name == "versionCode" then Some(ByVersionCode)
    else if name == "id" then Some(ById)
    else None
  }

  lemma FieldNameRoundTrip(f: SortField)
    ensures FieldNamed(FieldName(f)) == Some(f)
  {
  }

  function OrderName(o: Order): string {
    match o
    case Asc => "asc"
    case Desc => "desc"
  }

  /** Whether an `order` value is one of the two accepted directions, and which. */
  function OrderNamed(name: string): (r: Option<Order>)
    ensures r.Some? <==> name == "asc" || name == "desc"
    ensures r.Some? ==> OrderName(r.value) == name
  {
    if name == "asc" then Some(Asc) else if name == "desc" then Some(Desc) else None
  }

  /** The sort is reversed exactly for a descending order. */
  predicate Descending(o: Order) {
    o == Desc
  }

  /** The validation block of the list handlers, in its order: the two integers, then
      the sort field, then the order. */
  function ReadParams(limit: Arg, offset: Arg, sort: Arg, order: Arg): (r: Result<Params, Fault>)
    ensures r == Err(BadNumber) <==> ReadLimit(limit).Err? || ReadOffset(offset).Err?
    ensures r == Err(BadSortField) <==>
      ReadLimit(limit).Ok? && ReadOffset(offset).Ok? && sort.Some? && sort.value !in SortFieldNames
    ensures r == Err(BadOrder) <==>
      ReadLimit(limit).Ok? && ReadOffset(offset).Ok? && (sort.None? || sort.value in SortFieldNames)
      && order.Some? && order.value != "asc" && order.value != "desc"
    ensures r.Ok? <==>
      ReadLimit(limit).Ok? && ReadOffset(offset).Ok? && (sort.None? || sort.value in SortFieldNames)
      && (order.None? || order.value == "asc" || order.value == "desc")
    ensures r.Ok? ==> r.value.limit == ReadLimit(limit).value && r.value.offset == ReadOffset(offset).value
    ensures r.Ok? ==> FieldName(r.value.field) == (if sort.None? then "name" else sort.value)
    ensures r.Ok? ==> OrderName(r.value.order) == (if order.None? then "asc" else order.value)
  {
    match (ReadLimit(limit), ReadOffset(offset))
    case (Ok(l), Ok(o)) =>
      var field := FieldNamed(if sort.None? then "name" else sort.value);
      var dir := OrderNamed(if order.None? then "asc" else order.value);
      if field.None? then Err(BadSortField)
      else if dir.None? then Err(BadOrder)
      else Ok(Params(l, o, field.value, dir.value))
    case _ => Err(BadNumber)
  }

  /** The query string a client would send for `p`, every parameter spelled out. */
  function QueryOf(p: Params): (Arg, Arg, Arg, Arg) {
    (if p.limit.Some? then Some(ShowInt(p.limit.value)) else None,
     Some(ShowInt(p.offset)),
     Some(FieldName(p.field)),
     Some(OrderName(p.order)))
  }

  /** Every parameter combination can be asked for and is read back as sent. */
  lemma ReadParamsRoundTrip(p: Params)
    ensures ReadParams(QueryOf(p).0, QueryOf(p).1, QueryOf(p).2, QueryOf(p).3) == Ok(p)
  {
    var l := if p.limit.Some? then Some(ShowInt(p.limit.value)) else None;
    var o := Some(ShowInt(p.offset));
    ShownLimit(p.limit);
    ShownOffset(p.offset);
    ReadParamsOf(l, o, p);
    assert QueryOf(p) == (l, o, Some(FieldName(p.field)), Some(OrderName(p.order)));
  }

  /** Well-formed numbers and the spelled-out field and order read as `p`. */
  lemma ReadParamsOf(limit: Arg, offset: Arg, p: Params)
    requires ReadLimit(limit) == Ok(p.limit) && ReadOffset(offset) == Ok(p.offset)
    ensures ReadParams(limit, offset, Some(FieldName(p.field)), Some(OrderName(p.order))) == Ok(p)
  {
    FieldNameRoundTrip(p.field);
  }

  lemma ShownOffset(n: int)
    ensures ReadOffset(Some(ShowInt(n))) == Ok(n)
  {
    ParseShow(n);
  }

  lemma ShownLimit(limit: Option<int>)
    ensures ReadLimit(if limit.Some? then Some(ShowInt(limit.value)) else None) == Ok(limit)
  {
    if limit.Some? {
      ParseShow(limit.value);
      assert ShowInt(limit.value) != "";
    }
  }

  /** The records sorted on the requested field, in the requested direction. */
  function Arrange(items: seq<App>, p: Params): seq<App> {
    SortBy(items, RankOf(p.field), Descending(p.order))
  }

  /** The list reply of a handler: the items sorted as asked, then paginated. */
  function Window(items: seq<App>, p: Params): (w: Page<App>)
    ensures w.total == |items| && w.count == |w.results| && w.count <= w.total
    ensures w.results == Paginate(Arrange(items, p), p.offset, p.limit)
  {
    MakePage(Arrange(items, p), p.offset, p.limit)
  }

  /** The arrangement handed to pagination is a stable sort: every record kept as often
      as given, ordered by the key, and records with equal keys in their given order, in
      both directions. */
  lemma ArrangeIsStableSort(items: seq<App>, p: Params)
    ensures multiset(Arrange(items, p)) == multiset(items)
    ensures Ordered(Arrange(items, p), RankOf(p.field), Descending(p.order))
    ensures forall k :: Tied(Arrange(items, p), RankOf(p.field), k) == Tied(items, RankOf(p.field), k)
  {
  }

  /** Consecutive requests with one positive limit `size`, at offsets 0, size, 2 * size,
      ..., return pages that together are the whole sorted list, each record once. */
  lemma WindowsCoverList(items: seq<App>, field: SortField, order: Order, size: nat, n: nat)
    requires size > 0 && |items| <= n * size
    ensures FirstPages(Arrange(items, Params(Some(size), 0, field, order)), size, n)
         == Arrange(items, Params(Some(size), 0, field, order))
    ensures forall k: nat ::
      Window(items, Params(Some(size), Span(k, size), field, order)).results
      == PageOf(Arrange(items, Params(Some(size), 0, field, order)), Span(k, size), size)
  {
    var sorted := Arrange(items, Params(Some(size), 0, field, order));
    PagesCoverAll(sorted, size, n);
    forall k: nat
      ensures Window(items, Params(Some(size), Span(k, size), field, order)).results
           == PageOf(sorted, Span(k, size), size)
    {
      PageAt(sorted, Span(k, size), size);
    }
  }
}
