/**
 One catalogue entry (an F-Droid application) and the per-record facts the queries
 test: game classification, presence of optional fields, sort keys.

 Absent or `None` string fields are `""` (every Python truthiness test on them is
 then `!= ""`), `versionCode` is an `int` defaulting to 0, and the `packages` list is
 reduced to its length, the only thing the queries read from it.
 */
module Catalogue {
  import opened Sorting
  import Seqs

  datatype App = App(
    id: string,
    name: string,
    summary: string,
    description: string,
    categories: seq<string>,
    version: string,
    versionCode: int,
    license: string,
    website: string,
    sourceCode: string,
    lastUpdated: string,
    apkUrl: string,
    packageCount: nat)

  /** The `sort` request parameter: one of `name`, `version`, `versionCode`, `id`. */
  datatype SortField = ByName | ByVersion | ByVersionCode | ById

  /** The `order` request parameter: `asc` or `desc`. */
  datatype Order = Asc | Desc

  /** The category tags that mark a record as a game (api/index.py `game_categories`). */
  const GameCategories: set<string> := {"Games", "Game"}

  /** `is_game`: some category tag is exactly `Games` or `Game` (case-sensitive). */
  predicate IsGame(a: App) {
    exists c :: c in a.categories && c in GameCategories
  }

  predicate IsNotGame(a: App) {
    !IsGame(a)
  }

  predicate HasUpdateDate(a: App) {
    a.lastUpdated != ""
  }

  predicate HasSummary(a: App) {
    a.summary != ""
  }

  predicate HasApk(a: App) {
    a.apkUrl != ""
  }

  predicate HasSourceCode(a: App) {
    a.sourceCode != ""
  }

  predicate HasWebsite(a: App) {
    a.website != ""
  }

  function PackageCount(a: App): nat {
    a.packageCount
  }

  /** Whether a record's category list holds `category`, as a filter predicate. */
  function InCategory(category: string): App -> bool {
    (a: App) => category in a.categories
  }

  /** The sort key of each request-visible sort field. */
  function NameRank(a: App): Key {
    Str(a.name)
  }

  function VersionRank(a: App): Key {
    Str(a.version)
  }

  /** The version code as a number; an absent code already reads as 0. */
  function VersionCodeRank(a: App): Key {
    Num(a.versionCode)
  }

  function IdRank(a: App): Key {
    Str(a.id)
  }

  /** The update date: ISO-8601 text, so string order is date order. */
  function UpdatedRank(a: App): Key {
    Str(a.lastUpdated)
  }

  function RankOf(field: SortField): App -> Key {
    match field
    case ByName => NameRank
    case ByVersion => VersionRank
    case ByVersionCode => VersionCodeRank
    case ById => IdRank
  }

  /** Every category tag of every record, record by record, in snapshot order: the
      order in which the nested loops over records and their tags visit them. */
  function AllCategories(apps: seq<App>): seq<string>
    decreases |apps|
  {
    if |apps| == 0 then [] else apps[0].categories + AllCategories(apps[1..])
  }

  lemma {:induction false} AllCategoriesMembership(apps: seq<App>, c: string)
    ensures c in AllCategories(apps) <==> exists a :: a in apps && c in a.categories
    decreases |apps|
  {
    if |apps| > 0 {
      AllCategoriesMembership(apps[1..], c);
      assert apps == [apps[0]] + apps[1..];
      if c in apps[0].categories {
        assert apps[0] in apps;
      }
      if exists a :: a in apps && c in a.categories {
        var a :| a in apps && c in a.categories;
        assert a == apps[0] || a in apps[1..];
      }
    }
  }

  lemma {:induction false} AllCategoriesAppend(a: seq<App>, b: seq<App>)
    ensures AllCategories(a + b) == AllCategories(a) + AllCategories(b)
    decreases |a|
  {
    if |a| > 0 {
      assert (a + b)[1..] == a[1..] + b;
      AllCategoriesAppend(a[1..], b);
    } else {
      assert a + b == b;
    }
  }

  /** The truthy `license` values, one per record that has one, in snapshot order. */
  function Licences(apps: seq<App>): seq<string>
    decreases |apps|
  {
    if |apps| == 0 then []
    else (if apps[0].license != "" then [apps[0].license] else []) + Licences(apps[1..])
  }

  lemma {:induction false} LicencesMembership(apps: seq<App>, l: string)
    ensures l in Licences(apps) <==> l != "" && exists a :: a in apps && a.license == l
    decreases |apps|
  {
    if |apps| > 0 {
      LicencesMembership(apps[1..], l);
      assert apps == [apps[0]] + apps[1..];
      if exists a :: a in apps && a.license == l {
        var a :| a in apps && a.license == l;
        assert a == apps[0] || a in apps[1..];
      }
    }
  }

  lemma {:induction false} LicencesAppend(a: seq<App>, b: seq<App>)
    ensures Licences(a + b) == Licences(a) + Licences(b)
    decreases |a|
  {
    if |a| > 0 {
      assert (a + b)[1..] == a[1..] + b;
      LicencesAppend(a[1..], b);
    } else {
      assert a + b == b;
    }
  }
}
