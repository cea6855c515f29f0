/**
 api/stats.py: totals over the snapshot and the most frequent category tags.
 */
module StatsHandler {
  import opened Seqs
  import opened Catalogue
  import opened Tallies
  import opened Paging

  /** How many top tags each list of the reply carries. */
  const PopularCount: nat := 3
  const DistributionCount: nat := 10

  /** The body of `/api/stats`. */
  datatype Overview = Overview(
    totalApps: nat,
    totalCategories: nat,
    mostPopular: seq<Bucket<string>>,
    appsWithSummary: nat,
    appsWithApk: nat,
    distribution: seq<Bucket<string>>)

  /** `GET /api/stats`. Tags are counted with repetition across records (a record listing
      a tag twice counts twice), and the empty tag is counted like any other. */
  function GetStats(apps: seq<App>): (r: Overview)
    ensures r.totalApps == |apps|
    ensures r.totalCategories == |Elements(AllCategories(apps))|
    ensures r.mostPopular == MostCommon(AllCategories(apps), PopularCount)
    ensures r.distribution == MostCommon(AllCategories(apps), DistributionCount)
    ensures r.mostPopular <= r.distribution && Distinct(KeysOf(r.distribution))
    ensures |r.mostPopular| == Min(PopularCount, r.totalCategories)
    ensures |r.distribution| == Min(DistributionCount, r.totalCategories)
    ensures forall i :: 0 <= i < |r.distribution| ==>
      r.distribution[i].count == multiset(AllCategories(apps))[r.distribution[i].key] > 0
    ensures forall i, j :: 0 <= i < j < |r.distribution| ==> r.distribution[i].count >= r.distribution[j].count
    ensures r.appsWithSummary == |Filter(apps, HasSummary)| <= r.totalApps
    ensures r.appsWithApk == |Filter(apps, HasApk)| <= r.totalApps
  {
    var tags := AllCategories(apps);
    TopTags(tags);
    MostCommonDistinct(tags, DistributionCount);
    CountWhereFilter(apps, HasSummary);
    CountWhereFilter(apps, HasApk);
    Overview(|apps|, |Elements(tags)|, MostCommon(tags, PopularCount),
      CountWhere(apps, HasSummary), CountWhere(apps, HasApk), MostCommon(tags, DistributionCount))
  }

  /** The two top lists of the same tags: the shorter is a prefix of the longer, each
      is as long as the cut or the number of distinct tags, and every item is a tag
      with its number of occurrences, from high to low. */
  lemma TopTags(tags: seq<string>)
    ensures MostCommon(tags, PopularCount) <= MostCommon(tags, DistributionCount)
    ensures |MostCommon(tags, PopularCount)| == Min(PopularCount, |Elements(tags)|)
    ensures |MostCommon(tags, DistributionCount)| == Min(DistributionCount, |Elements(tags)|)
    ensures forall i :: 0 <= i < |MostCommon(tags, DistributionCount)| ==>
      MostCommon(tags, DistributionCount)[i].count == multiset(tags)[MostCommon(tags, DistributionCount)[i].key] > 0
    ensures forall i, j :: 0 <= i < j < |MostCommon(tags, DistributionCount)| ==>
      MostCommon(tags, DistributionCount)[i].count >= MostCommon(tags, DistributionCount)[j].count
  {
    var all := Ranking(tags);
    FirstSeenCardinality(tags);
    var d := MostCommon(tags, DistributionCount);
    forall i | 0 <= i < |d|
      ensures d[i].count == multiset(tags)[d[i].key] > 0
    {
      assert d[i] == all[i];
    }
    forall i, j | 0 <= i < j < |d|
      ensures d[i].count >= d[j].count
    {
      assert d[i] == all[i] && d[j] == all[j];
    }
  }

  /** The distribution lists every tag once when there are at most ten distinct tags,
      and then its counts add up to the number of tag occurrences. */
  lemma DistributionTotal(apps: seq<App>)
    requires |Elements(AllCategories(apps))| <= DistributionCount
    ensures GetStats(apps).distribution == Ranking(AllCategories(apps))
    ensures SumOf(GetStats(apps).distribution, CountOf) == |AllCategories(apps)|
  {
    var tags := AllCategories(apps);
    FirstSeenCardinality(tags);
    RankingTotal(tags);
  }
}
