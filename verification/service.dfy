/**
 The endpoints of the monolithic Flask application (api/index.py), as functions of
 the loaded snapshot and the request's arguments.

 The snapshot is `None` when loading failed at start-up; the `before_request` hook
 then answers every request with `DATA_NOT_AVAILABLE` (503) before any endpoint runs,
 so each endpoint's own "Data not available" branch is never reached and is not
 modelled. Response bodies keep the fields the queries compute; timestamps, timing
 and message texts are not modelled.
 */
module Service {
  import opened Wrappers
  import opened Text
  import opened Numerals
  import opened Seqs
  import opened Sorting
  import opened Catalogue
  import opened Tallies
  import opened DataStore
  import opened Statistics
  import Paging

  /** The module-level `data_store`: the records, or `None` if loading failed. */
  type Snapshot = Option<seq<App>>

  /** The `error` object of `create_error_response` (its message is not modelled). */
  datatype ErrorBody = ErrorBody(code: string, status: int)

  type Reply<T> = Result<T, ErrorBody>

  /** `create_error_response(message, status_code, error_code)`: the code given, or
      `ERROR_<status>` when none (or an empty one) is given. */
  function CreateError(status: int, code: Option<string>): (e: ErrorBody)
    ensures e.status == status
    ensures code.Some? && code.value != "" ==> e.code == code.value
    ensures code.None? || code.value == "" ==>
      |e.code| > 6 && e.code[..6] == "ERROR_" && e.code[6..] == ShowInt(status)
      && ParseInt(e.code[6..]) == Some(status)
  {
    if code.Some? && code.value != "" then ErrorBody(code.value, status)
    else
      var e := ErrorBody("ERROR_" + ShowInt(status), status);
      ParseShow(status);
      assert e.code[6..] == ShowInt(status);
      e
  }

  /** The error codes the endpoints use, each with its fixed HTTP status. */
  datatype Refusal =
    | DataNotAvailable
    | InvalidAppId
    | AppNotFound
    | MissingQuery
    | QueryTooShort
    | InvalidCategory
    | CategoryNotFound
    | InvalidLimit
    | NoApps

  function CodeOf(f: Refusal): string {
    match f
    case DataNotAvailable => "DATA_NOT_AVAILABLE"
    case InvalidAppId => "INVALID_APP_ID"
    case AppNotFound => "APP_NOT_FOUND"
    case MissingQuery => "MISSING_QUERY"
    case QueryTooShort => "QUERY_TOO_SHORT"
    case InvalidCategory => "INVALID_CATEGORY"
    case CategoryNotFound => "CATEGORY_NOT_FOUND"
    case InvalidLimit => "INVALID_LIMIT"
    case NoApps => "NO_APPS"
  }

  function StatusOf(f: Refusal): int {
    match f
    case DataNotAvailable => 503
    case AppNotFound | CategoryNotFound | NoApps => 404
    case _ => 400
  }

  function Refuse(f: Refusal): ErrorBody {
    CreateError(StatusOf(f), Some(CodeOf(f)))
  }

  /** Distinct refusals are told apart by their code. */
  lemma RefusalCodesDistinct(f: Refusal, g: Refusal)
    ensures Refuse(f) == Refuse(g) <==> f == g
  {
  }

  /** The success envelope of a list reply: the items and their number. */
  datatype Listing<T> = Listing(data: seq<T>, count: nat)

  function ListOf<T>(items: seq<T>): (l: Listing<T>)
    ensures l.data == items && l.count == |items|
  {
    Listing(items, |items|)
  }

  /** The body of `/apps` and `/games`: the chosen side of the split, the size of the
      whole snapshot and the size of the other side (`games` / `non_games`). */
  datatype Split = Split(list: Listing<App>, total: nat, others: int)

  /** `is_game` restated: some category tag is exactly `Games` or `Game`. */
  lemma IsGameNamed(a: App)
    ensures IsGame(a) <==> "Games" in a.categories || "Game" in a.categories
  {
  }

  /** `GET /apps`: the non-game records, in snapshot order. */
  function GetApps(snap: Snapshot): (r: Reply<Split>)
    ensures snap.None? <==> r == Err(Refuse(DataNotAvailable))
    ensures r.Ok? ==> r.value.total == |snap.value| && r.value.list.count == |r.value.list.data|
    ensures r.Ok? ==> IsSubsequence(r.value.list.data, snap.value)
    ensures snap.Some? ==> r.Ok?
    ensures r.Ok? ==> forall a :: a in r.value.list.data <==> a in snap.value && !IsGame(a)
    ensures r.Ok? ==> forall a ::
      multiset(r.value.list.data)[a] == (if IsGame(a) then 0 else multiset(snap.value)[a])
  {
    match snap
    case None => Err(Refuse(DataNotAvailable))
    case Some(apps) =>
      var kept := Filter(apps, IsNotGame);
      FilterMembershipAll(apps, IsNotGame);
      Ok(Split(ListOf(kept), |apps|, |apps| - |kept|))
  }

  /** `GET /games`: the game records, in snapshot order. */
  function GetGames(snap: Snapshot): (r: Reply<Split>)
    ensures snap.None? <==> r == Err(Refuse(DataNotAvailable))
    ensures r.Ok? ==> r.value.total == |snap.value| && r.value.list.count == |r.value.list.data|
    ensures r.Ok? ==> IsSubsequence(r.value.list.data, snap.value)
    ensures snap.Some? ==> r.Ok?
    ensures r.Ok? ==> forall a :: a in r.value.list.data <==> a in snap.value && IsGame(a)
    ensures r.Ok? ==> forall a ::
      multiset(r.value.list.data)[a] == (if IsGame(a) then multiset(snap.value)[a] else 0)
  {
    match snap
    case None => Err(Refuse(DataNotAvailable))
    case Some(apps) =>
      var kept := Filter(apps, IsGame);
      FilterMembershipAll(apps, IsGame);
      Ok(Split(ListOf(kept), |apps|, |apps| - |kept|))
  }

  lemma FilterMembershipAll(apps: seq<App>, p: App -> bool)
    ensures forall a :: a in Filter(apps, p) <==> a in apps && p(a)
  {
    forall a {
      FilterMembership(apps, p, a);
    }
  }

  /** `/apps` and `/games` split the snapshot: their lists add up to the whole, and each
      reports the other's size. */
  lemma AppsGamesPartition(snap: Snapshot)
    requires snap.Some?
    ensures GetApps(snap).value.list.count + GetGames(snap).value.list.count == |snap.value|
    ensures GetApps(snap).value.others == GetGames(snap).value.list.count
    ensures GetGames(snap).value.others == GetApps(snap).value.list.count
  {
    FilterComplement(snap.value, IsGame, IsNotGame);
  }

  /** `GET /app/<app_id>`. */
  function GetApp(snap: Snapshot, appId: string): (r: Reply<App>)
    ensures snap.None? ==> r == Err(Refuse(DataNotAvailable))
    ensures snap.Some? && IsBlank(appId) ==> r == Err(Refuse(InvalidAppId))
    ensures snap.Some? && !IsBlank(appId) ==>
      (r == Err(Refuse(AppNotFound)) <==> forall a :: a in snap.value ==> a.id != appId)
    ensures snap.Some? && !IsBlank(appId) ==> (r.Ok? <==> exists a :: a in snap.value && a.id == appId)
    ensures r.Ok? ==> r.value.id == appId && r.value in snap.value
    ensures r.Ok? ==> exists i :: 0 <= i < |snap.value| && snap.value[i] == r.value
                                  && forall j :: 0 <= j < i ==> snap.value[j].id != appId
  {
    match snap
    case None => Err(Refuse(DataNotAvailable))
    case Some(apps) =>
      if appId == "" || IsBlank(appId) then Err(Refuse(InvalidAppId))
      else
        match FindById(apps, appId)
        case None => Err(Refuse(AppNotFound))
        case Some(a) => Ok(a)
  }

  /** The body of `/search`: the matches and the query as stripped. */
  datatype Found = Found(list: Listing<App>, query: string)

  /** `GET /search?q=...`: the query is stripped, must be non-empty and at least two
      characters long, and is then matched case-insensitively on four fields. */
  function Search(snap: Snapshot, q: Option<string>): (r: Reply<Found>)
    ensures snap.None? ==> r == Err(Refuse(DataNotAvailable))
    ensures snap.Some? ==>
      var query := Strip(if q.Some? then q.value else "");
      (query == [] <==> r == Err(Refuse(MissingQuery)))
      && (|query| == 1 <==> r == Err(Refuse(QueryTooShort)))
      && (|query| >= 2 <==> r.Ok?)
    ensures r.Ok? ==> r.value.list.count == |r.value.list.data| && |r.value.query| >= 2
    ensures r.Ok? ==> r.value.query == Strip(if q.Some? then q.value else "")
    ensures r.Ok? ==> r.value.list.data == SearchApps(snap.value, r.value.query)
    ensures r.Ok? ==> IsSubsequence(r.value.list.data, snap.value)
    ensures r.Ok? ==> forall a :: a in r.value.list.data <==>
      a in snap.value && FieldsMatch(Lower(r.value.query), a)
    ensures r.Ok? ==> forall a ::
      multiset(r.value.list.data)[a] == (if FieldsMatch(Lower(r.value.query), a) then multiset(snap.value)[a] else 0)
  {
    match snap
    case None => Err(Refuse(DataNotAvailable))
    case Some(apps) =>
      var query := Strip(if q.Some? then q.value else "");
      if query == [] then Err(Refuse(MissingQuery))
      else if |query| < 2 then Err(Refuse(QueryTooShort))
      else Ok(Found(ListOf(SearchApps(apps, query)), query))
  }

  /** Surrounding whitespace in the query does not change what `/search` finds. */
  lemma SearchIgnoresPadding(snap: Snapshot, q: string, padded: string)
    requires Strip(padded) == Strip(q)
    ensures Search(snap, Some(padded)) == Search(snap, Some(q))
  {
  }

  /** `GET /categories`: `get_all_categories`, as a list. */
  function GetCategories(snap: Snapshot): (r: Reply<Listing<Bucket<string>>>)
    ensures snap.None? <==> r == Err(Refuse(DataNotAvailable))
    ensures r.Ok? ==> r.value.count == |r.value.data|
    ensures snap.Some? ==> r.Ok?
    ensures r.Ok? ==> forall c :: c in KeysOf(r.value.data) <==> c != "" && c in AllCategories(snap.value)
    ensures r.Ok? ==> r.value.data == CategoryCounts(snap.value)
  {
    match snap
    case None => Err(Refuse(DataNotAvailable))
    case Some(apps) =>
      forall c
        ensures c in KeysOf(CategoryCounts(apps)) <==> c != "" && c in AllCategories(apps)
      {
        CategoryListed(apps, c);
      }
      Ok(ListOf(CategoryCounts(apps)))
  }

  /** The body of `/category/<name>`: the records and the name asked for. */
  datatype InCategoryBody = InCategoryBody(list: Listing<App>, category: string)

  /** `GET /category/<name>`: a blank name is refused; an empty result for a name that
      `get_all_categories` does not list is `CATEGORY_NOT_FOUND`. */
  function GetCategoryApps(snap: Snapshot, name: string): (r: Reply<InCategoryBody>)
    ensures snap.None? ==> r == Err(Refuse(DataNotAvailable))
    ensures snap.Some? && IsBlank(name) ==> r == Err(Refuse(InvalidCategory))
    ensures snap.Some? && !IsBlank(name) ==>
      (r == Err(Refuse(CategoryNotFound)) <==> name !in AllCategories(snap.value))
    ensures snap.Some? && !IsBlank(name) ==> (r.Ok? <==> name in AllCategories(snap.value))
    ensures r.Ok? ==> r.value.category == name && r.value.list.count == |r.value.list.data|
    ensures r.Ok? ==> IsSubsequence(r.value.list.data, snap.value)
    ensures r.Ok? ==> forall a :: a in r.value.list.data <==> a in snap.value && name in a.categories
    ensures r.Ok? ==> forall a ::
      multiset(r.value.list.data)[a] == (if name in a.categories then multiset(snap.value)[a] else 0)
  {
    match snap
    case None => Err(Refuse(DataNotAvailable))
    case Some(apps) =>
      if name == "" || IsBlank(name) then Err(Refuse(InvalidCategory))
      else
        var found := AppsByCategory(apps, name);
        AppsByCategoryEmpty(apps, name);
        CategoryListed(apps, name);
        if found == [] && name !in KeysOf(CategoryCounts(apps)) then Err(Refuse(CategoryNotFound))
        else Ok(InCategoryBody(ListOf(found), name))
  }

  /** A category that is listed always has records: the success reply of
      `/category/<name>` is never empty, so the "known category, no apps" answer the
      existence check allows for cannot occur. */
  lemma CategoryAppsNeverEmpty(snap: Snapshot, name: string)
    ensures GetCategoryApps(snap, name).Ok? ==> GetCategoryApps(snap, name).value.list.count > 0
  {
    if snap.Some? {
      AppsByCategoryEmpty(snap.value, name);
    }
  }

  /** Flask's integer argument conversion: the integer, or `None` when the argument is
      absent or `int()` rejects it. */
  function FlaskInt(arg: Option<string>): (r: Option<int>)
    ensures arg.None? ==> r.None?
    ensures arg.Some? ==> r == ParseInt(arg.value)
  {
    match arg
    case None => None
    case Some(t) => ParseInt(t)
  }

  /** The body of `/latest`: the records, whether a limit was given, and the limit. */
  datatype LatestBody = LatestBody(list: Listing<App>, limited: bool, limit: Option<int>)

  /** The records `/latest` orders: those with a truthy `last_updated`, newest first
      (ISO-8601 text, so string order is date order), ties in snapshot order. */
  function ByUpdate(apps: seq<App>): seq<App> {
    SortBy(Filter(apps, HasUpdateDate), UpdatedRank, true)
  }

  /** `GET /latest?limit=n`: a limit that is present, an integer, and below 1 is refused;
      a non-integer limit counts as absent. The reply is the newest records, cut to the
      limit when there is one. */
  function GetLatest(snap: Snapshot, limit: Option<string>): (r: Reply<LatestBody>)
    ensures snap.None? ==> r == Err(Refuse(DataNotAvailable))
    ensures snap.Some? ==>
      (r == Err(Refuse(InvalidLimit)) <==> FlaskInt(limit).Some? && FlaskInt(limit).value < 1)
      && (r.Ok? <==> FlaskInt(limit).None? || FlaskInt(limit).value >= 1)
    ensures r.Ok? ==> r.value.limit == FlaskInt(limit) && r.value.limited == FlaskInt(limit).Some?
    ensures r.Ok? ==> r.value.list.count == |r.value.list.data|
    ensures r.Ok? ==> r.value.list.data <= ByUpdate(snap.value)
    ensures r.Ok? ==> |r.value.list.data| == (if r.value.limited
      then Paging.Min(r.value.limit.value, |ByUpdate(snap.value)|) else |ByUpdate(snap.value)|)
    ensures r.Ok? ==> forall a :: a in r.value.list.data ==> a in snap.value && HasUpdateDate(a)
    ensures r.Ok? ==> Ordered(r.value.list.data, UpdatedRank, true)
  {
    match snap
    case None => Err(Refuse(DataNotAvailable))
    case Some(apps) =>
      var n := FlaskInt(limit);
      if n.Some? && n.value < 1 then Err(Refuse(InvalidLimit))
      else
        var sorted := ByUpdate(apps);
        var page := if n.Some? then PySlice(sorted, 0, n.value) else sorted;
        assert page <= sorted;
        LatestFacts(apps, page);
        Ok(LatestBody(ListOf(page), n.Some?, n))
  }

  /** Any prefix of `ByUpdate(apps)` holds dated records of the snapshot, newest first. */
  lemma LatestFacts(apps: seq<App>, page: seq<App>)
    requires page <= ByUpdate(apps)
    ensures forall a :: a in page ==> a in apps && HasUpdateDate(a)
    ensures Ordered(page, UpdatedRank, true)
  {
    var dated := Filter(apps, HasUpdateDate);
    var sorted := ByUpdate(apps);
    forall a | a in page
      ensures a in apps && HasUpdateDate(a)
    {
      assert a in sorted;
      assert a in multiset(dated);
      FilterMembership(apps, HasUpdateDate, a);
    }
  }

  /** `GET /random`: refused on an empty snapshot, otherwise the record at the position
      `random.choice` draws, here the parameter `draw`. */
  function GetRandom(snap: Snapshot, draw: nat): (r: Reply<App>)
    ensures snap.None? ==> r == Err(Refuse(DataNotAvailable))
    ensures snap.Some? ==> (r == Err(Refuse(NoApps)) <==> snap.value == [])
    ensures snap.Some? ==> (r.Ok? <==> snap.value != [])
    ensures r.Ok? ==> r.value in snap.value
  {
    match snap
    case None => Err(Refuse(DataNotAvailable))
    case Some(apps) =>
      if apps == [] then Err(Refuse(NoApps)) else Ok(apps[draw % |apps|])
  }

  /** Every record of a non-empty snapshot can be the pick. */
  lemma RandomReachesEvery(snap: Snapshot, i: nat)
    requires snap.Some? && i < |snap.value|
    ensures GetRandom(snap, i) == Ok(snap.value[i])
  {
  }

  /** `GET /stats`. */
  function GetStats(snap: Snapshot): (r: Reply<Stats>)
    ensures snap.None? <==> r == Err(Refuse(DataNotAvailable))
    ensures snap.Some? ==> r.Ok?
    ensures r.Ok? ==> r.value == StatsOf(snap.value) && r.value.totalApps == |snap.value|
  {
    match snap
    case None => Err(Refuse(DataNotAvailable))
    case Some(apps) => Ok(StatsOf(apps))
  }
}
