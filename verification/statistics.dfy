/**
 `GET /stats` of api/index.py: repository-wide counts gathered in one pass over the
 snapshot, and the ten most used licences.
 */
module Statistics {
  import opened Seqs
  import opened Sorting
  import opened Catalogue
  import opened Tallies

  datatype Stats = Stats(
    totalApps: nat,
    totalGames: nat,
    totalNonGames: int,
    totalCategories: nat,
    totalPackages: nat,
    uniqueLicenses: nat,
    appsWithSourceCode: nat,
    appsWithWebsite: nat,
    topLicenses: seq<Bucket<string>>)

  /** How many licences `top_licenses` keeps. */
  const TopLicenceCount: nat := 10

  /** `len(licenses)`: the number of distinct truthy licences. */
  function UniqueLicences(apps: seq<App>): (n: nat)
    ensures n == |Elements(Licences(apps))|
  {
    var lics := Licences(apps);
    TallyShape(lics);
    FirstSeenCardinality(lics);
    |Tally(lics)|
  }

  /** `top_licenses`: at most ten truthy licences, each with the number of records
      carrying it, by count from high to low; fewer than ten only when there are no
      more licences. */
  function TopLicences(apps: seq<App>): (top: seq<Bucket<string>>)
    ensures |top| <= TopLicenceCount
    ensures |top| == TopLicenceCount || |top| == UniqueLicences(apps)
    ensures forall i :: 0 <= i < |top| ==>
      top[i].key != "" && top[i].count == multiset(Licences(apps))[top[i].key]
    ensures forall i, j :: 0 <= i < j < |top| ==> top[i].count >= top[j].count
    ensures top == MostCommon(Licences(apps), TopLicenceCount)
    ensures Distinct(KeysOf(top))
  {
    var lics := Licences(apps);
    var top := MostCommon(lics, TopLicenceCount);
    TallyShape(lics);
    MostCommonDistinct(lics, TopLicenceCount);
    forall i | 0 <= i < |top|
      ensures top[i].key != ""
    {
      LicencesMembership(apps, top[i].key);
    }
    top
  }

  /** The statistics, field by field. Category tags are counted as a set (the empty tag
      included), licences only when truthy. */
  function StatsOf(apps: seq<App>): (st: Stats)
    ensures st.totalApps == |apps|
    ensures 0 <= st.totalNonGames == st.totalApps - st.totalGames
    ensures st.totalNonGames == |Filter(apps, IsNotGame)|
    ensures st.totalCategories == |Elements(AllCategories(apps))|
    ensures st.uniqueLicenses == |Elements(Licences(apps))|
    ensures st.totalPackages == SumOf(apps, PackageCount)
    ensures st.appsWithSourceCode == CountWhere(apps, HasSourceCode) <= st.totalApps
    ensures st.appsWithWebsite == CountWhere(apps, HasWebsite) <= st.totalApps
    ensures st.topLicenses == TopLicences(apps)
  {
    var games := |Filter(apps, IsGame)|;
    FilterComplement(apps, IsGame, IsNotGame);
    Stats(|apps|, games, |apps| - games, |Elements(AllCategories(apps))|, SumOf(apps, PackageCount),
          UniqueLicences(apps), CountWhere(apps, HasSourceCode), CountWhere(apps, HasWebsite), TopLicences(apps))
  }

  /** Every per-record quantity after one more record. */
  lemma PrefixStep(apps: seq<App>, i: nat)
    requires i < |apps|
    ensures AllCategories(apps[..i + 1]) == AllCategories(apps[..i]) + apps[i].categories
    ensures SumOf(apps[..i + 1], PackageCount) == SumOf(apps[..i], PackageCount) + apps[i].packageCount
    ensures Licences(apps[..i + 1]) == Licences(apps[..i]) + (if apps[i].license != "" then [apps[i].license] else [])
    ensures CountWhere(apps[..i + 1], HasSourceCode) == CountWhere(apps[..i], HasSourceCode) + (if apps[i].sourceCode != "" then 1 else 0)
    ensures CountWhere(apps[..i + 1], HasWebsite) == CountWhere(apps[..i], HasWebsite) + (if apps[i].website != "" then 1 else 0)
  {
    var p := apps[..i];
    var last := [apps[i]];
    assert apps[..i + 1] == p + last;
    AllCategoriesAppend(p, last);
    SumOfAppend(p, last, PackageCount);
    LicencesAppend(p, last);
    CountWhereAppend(p, last, HasSourceCode);
    CountWhereAppend(p, last, HasWebsite);
    assert AllCategories(last) == apps[i].categories by {
      assert last[1..] == [];
    }
    assert Licences(last) == (if apps[i].license != "" then [apps[i].license] else []) by {
      assert last[1..] == [];
    }
  }

  /** One step of the licence count: record `i`'s licence, when non-empty, is added to
      the dict that counts the licences of the records before it. */
  method RecordLicence(keys: seq<string>, counts: map<string, nat>, ghost apps: seq<App>, ghost i: nat, l: string)
    returns (keys': seq<string>, counts': map<string, nat>)
    requires i < |apps| && l == apps[i].license
    requires CountsOf(keys, counts, Licences(apps[..i]))
    ensures CountsOf(keys', counts', Licences(apps[..i + 1]))
  {
    ghost var seen := Licences(apps[..i]);
    PrefixStep(apps, i);
    if l != "" {
      assert Licences(apps[..i + 1]) == seen + [l];
      keys', counts' := CountOne(keys, counts, seen, l);
    } else {
      assert Licences(apps[..i + 1]) == seen;
      keys', counts' := keys, counts;
    }
  }

  /** The loop of `get_stats` as written: a category set, a package sum, a licence dict
      in insertion order and two counters, filled in one pass over the records. */
  method WalkRecords(apps: seq<App>)
    returns (categories: set<string>, packages: nat, keys: seq<string>, licences: map<string, nat>,
             withSource: nat, withWebsite: nat)
    ensures categories == Elements(AllCategories(apps))
    ensures packages == SumOf(apps, PackageCount)
    ensures CountsOf(keys, licences, Licences(apps))
    ensures withSource == CountWhere(apps, HasSourceCode) && withWebsite == CountWhere(apps, HasWebsite)
  {
    categories, packages, keys, licences, withSource, withWebsite := {}, 0, [], map[], 0, 0;
    for i := 0 to |apps|
      invariant categories == Elements(AllCategories(apps[..i]))
      invariant packages == SumOf(apps[..i], PackageCount)
      invariant CountsOf(keys, licences, Licences(apps[..i]))
      invariant withSource == CountWhere(apps[..i], HasSourceCode)
      invariant withWebsite == CountWhere(apps[..i], HasWebsite)
    {
      var a := apps[i];
      ghost var (c0, p0, s0, w0) := (categories, packages, withSource, withWebsite);
      categories := categories + set c | c in a.categories;
      packages := packages + a.packageCount;
      keys, licences := RecordLicence(keys, licences, apps, i, a.license);
      if a.sourceCode != "" {
        withSource := withSource + 1;
      }
      if a.website != "" {
        withWebsite := withWebsite + 1;
      }
      WalkStep(apps, i, c0, p0, s0, w0, categories, packages, withSource, withWebsite);
    }
    assert apps[..|apps|] == apps;
  }

  /** `get_stats` as written: the walk, then the licence items sorted by count and cut
      to ten. It computes exactly `StatsOf`. */
  method GatherStats(apps: seq<App>) returns (st: Stats)
    ensures st == StatsOf(apps)
  {
    var games := |Filter(apps, IsGame)|;
    var categories, packages, keys, licences, withSource, withWebsite := WalkRecords(apps);
    LoopLicences(apps, keys, licences);
    var ranked := SortBy(ItemsOf(keys, licences), CountRank, true);
    var top := if TopLicenceCount < |ranked| then ranked[..TopLicenceCount] else ranked;
    st := Stats(|apps|, games, |apps| - games, |categories|, packages, |licences|,
                withSource, withWebsite, top);
  }

  /** One record's worth of the walk keeps every counter in step with the prefix seen. */
  lemma WalkStep(apps: seq<App>, i: nat, c0: set<string>, p0: nat, s0: nat, w0: nat,
                 c1: set<string>, p1: nat, s1: nat, w1: nat)
    requires i < |apps|
    requires c0 == Elements(AllCategories(apps[..i])) && p0 == SumOf(apps[..i], PackageCount)
    requires s0 == CountWhere(apps[..i], HasSourceCode) && w0 == CountWhere(apps[..i], HasWebsite)
    requires c1 == c0 + set c | c in apps[i].categories
    requires p1 == p0 + apps[i].packageCount
    requires s1 == s0 + (if apps[i].sourceCode != "" then 1 else 0)
    requires w1 == w0 + (if apps[i].website != "" then 1 else 0)
    ensures c1 == Elements(AllCategories(apps[..i + 1])) && p1 == SumOf(apps[..i + 1], PackageCount)
    ensures s1 == CountWhere(apps[..i + 1], HasSourceCode) && w1 == CountWhere(apps[..i + 1], HasWebsite)
  {
    PrefixStep(apps, i);
  }

  lemma CategoriesStep(apps: seq<App>, i: nat, before: set<string>, after: set<string>)
    requires i < |apps|
    requires before == Elements(AllCategories(apps[..i]))
    requires after == before + set c | c in apps[i].categories
    ensures after == Elements(AllCategories(apps[..i + 1]))
  {
    PrefixStep(apps, i);
  }

  /** What the finished licence dict says: its size and its sorted, cut items. */
  lemma LoopLicences(apps: seq<App>, keys: seq<string>, counts: map<string, nat>)
    requires CountsOf(keys, counts, Licences(apps))
    ensures |counts| == UniqueLicences(apps)
    ensures forall k :: k in keys ==> k in counts
    ensures var ranked := SortBy(ItemsOf(keys, counts), CountRank, true);
      (if TopLicenceCount < |ranked| then ranked[..TopLicenceCount] else ranked) == TopLicences(apps)
  {
    var lics := Licences(apps);
    ItemsOfCounts(keys, counts, multiset(lics));
    assert |counts| == |counts.Keys|;
  }
}
