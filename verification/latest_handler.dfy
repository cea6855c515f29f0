/**
 api/latest.py: the records with the highest version codes, newest first.
 */
module LatestHandler {
  import opened Wrappers
  import opened Numerals
  import opened Seqs
  import opened Sorting
  import opened Catalogue
  import opened Requests

  /** The number of records returned when no limit is given. */
  const DefaultLimit: int := 10

  /** The `limit` argument: absent or empty means the default; any other text must be
      an integer, which may be zero or negative. */
  function ReadLatestLimit(arg: Arg): (r: Result<int, Fault>)
    ensures r.Err? <==> arg.Some? && arg.value != "" && !IsIntText(arg.value)
    ensures r.Ok? && arg.Some? && arg.value != "" ==> ParseInt(arg.value) == Some(r.value)
    ensures arg.None? || arg.value == "" ==> r == Ok(DefaultLimit)
  {
    if arg.Some? && arg.value != "" then
      match ParseInt(arg.value)
      case Some(n) => Ok(n)
      case None => Err(BadNumber)
    else Ok(DefaultLimit)
  }

  /** The records by version code, highest first, an absent code counting as 0. */
  function ByVersionCode(apps: seq<App>): seq<App> {
    SortBy(apps, VersionCodeRank, true)
  }

  /** The body of `/api/latest`. */
  datatype Latest = Latest(count: nat, results: seq<App>)

  /** `GET /api/latest?limit`: the first `limit` records of the sorted list for a
      non-zero limit (a negative one drops that many records from the end), the whole
      sorted list for zero. */
  function GetLatest(apps: seq<App>, limit: Arg): (r: Result<Latest, Fault>)
    ensures r.Err? <==> ReadLatestLimit(limit).Err?
    ensures r.Err? ==> r.error == BadNumber
    ensures r.Ok? ==> r.value.count == |r.value.results|
    ensures r.Ok? ==> r.value.results <= ByVersionCode(apps)
    ensures r.Ok? ==>
      var n := ReadLatestLimit(limit).value;
      |r.value.results| == (if n == 0 || n >= |apps| then |apps| else if n > 0 then n
                            else if n + |apps| > 0 then n + |apps| else 0)
  {
    match ReadLatestLimit(limit)
    case Err(f) => Err(f)
    case Ok(n) =>
      var sorted := ByVersionCode(apps);
      var results := if n != 0 then PySlice(sorted, 0, n) else sorted;
      Ok(Latest(|results|, results))
  }

  /** The reply lists records of the snapshot, each at most as often as it occurs there,
      from the highest version code down, and no record left out has a higher version
      code than one listed. */
  lemma LatestAreNewestFirst(apps: seq<App>, limit: Arg)
    requires GetLatest(apps, limit).Ok?
    ensures multiset(GetLatest(apps, limit).value.results) <= multiset(apps)
    ensures forall i, j :: 0 <= i < j < |GetLatest(apps, limit).value.results| ==>
      GetLatest(apps, limit).value.results[i].versionCode >= GetLatest(apps, limit).value.results[j].versionCode
    ensures forall a, b ::
      (a in apps && a !in GetLatest(apps, limit).value.results && b in GetLatest(apps, limit).value.results)
      ==> b.versionCode >= a.versionCode
  {
    PrefixOfSorted(apps, GetLatest(apps, limit).value.results);
  }

  /** The same three facts for any prefix of the sorted list. */
  lemma PrefixOfSorted(apps: seq<App>, results: seq<App>)
    requires results <= ByVersionCode(apps)
    ensures multiset(results) <= multiset(apps)
    ensures forall i, j :: 0 <= i < j < |results| ==> results[i].versionCode >= results[j].versionCode
    ensures forall a, b :: a in apps && a !in results && b in results ==> b.versionCode >= a.versionCode
  {
    var sorted := ByVersionCode(apps);
    var k := |results|;
    assert sorted == results + sorted[k..];
    assert multiset(sorted) == multiset(results) + multiset(sorted[k..]);
    forall i, j | 0 <= i < j < k
      ensures results[i].versionCode >= results[j].versionCode
    {
      assert !Precedes(VersionCodeRank, true, sorted[j], sorted[i]);
    }
    forall a, b | a in apps && a !in results && b in results
      ensures b.versionCode >= a.versionCode
    {
      assert a in multiset(sorted);
      var i :| 0 <= i < |sorted| && sorted[i] == a;
      var j :| 0 <= j < k && results[j] == b;
      assert i >= k;
      assert !Precedes(VersionCodeRank, true, sorted[i], sorted[j]);
    }
  }
}
