/**
 api/apps.py: the full catalogue, sorted and paginated, and the single-record lookup.
 */
module AppsHandler {
  import opened Wrappers
  import opened Text
  import opened Catalogue
  import opened Paging
  import opened Requests
  import DataStore

  /** `GET /api/apps?limit&offset&sort&order`. */
  function GetApps(apps: seq<App>, limit: Arg, offset: Arg, sort: Arg, order: Arg): (r: Result<Page<App>, Fault>)
    ensures r.Err? <==> ReadParams(limit, offset, sort, order).Err?
    ensures r.Err? ==> r.error == ReadParams(limit, offset, sort, order).error
    ensures r.Ok? ==> r.value.total == |apps| && r.value.count == |r.value.results|
    ensures r.Ok? ==> r.value == Window(apps, ReadParams(limit, offset, sort, order).value)
  {
    match ReadParams(limit, offset, sort, order)
    case Err(f) => Err(f)
    case Ok(p) => Ok(Window(apps, p))
  }

  /** `GET /api/apps/<app_id>`: a blank id is refused, then the records are scanned in
      order and the first whose `id` equals `appId` is returned. */
  method GetApp(apps: seq<App>, appId: string) returns (r: Result<App, Fault>)
    ensures IsBlank(appId) <==> r == Err(MissingAppId)
    ensures !IsBlank(appId) ==> (r == Err(NotFound) <==> forall a :: a in apps ==> a.id != appId)
    ensures !IsBlank(appId) ==> (r.Ok? <==> exists a :: a in apps && a.id == appId)
    ensures r.Ok? ==> r.value.id == appId
    ensures r.Ok? ==> exists i :: 0 <= i < |apps| && apps[i] == r.value
                                  && forall j :: 0 <= j < i ==> apps[j].id != appId
    ensures r.Ok? ==> DataStore.FindById(apps, appId) == Some(r.value)
  {
    if appId == "" || IsBlank(appId) {
      return Err(MissingAppId);
    }
    for i := 0 to |apps|
      invariant forall j :: 0 <= j < i ==> apps[j].id != appId
    {
      if apps[i].id == appId {
        DataStore.FindByIdIsFirst(apps, appId, i);
        return Ok(apps[i]);
      }
    }
    return Err(NotFound);
  }
}
