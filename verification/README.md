# droidx catalogue queries in Dafny

droidx serves an F-Droid application catalogue over HTTP. All of its queries read one
in-memory list of application records, the snapshot. This project models those queries
as pure functions over a `seq<App>` and proves what each reply contains. The queries
are:

- the consolidated service in `api/index.py`: `DataStore` lookups, `/apps`, `/games`,
  `/app/<id>`, `/search`, `/categories`, `/category/<name>`, `/latest`, `/random`,
  `/stats`, and the error and success envelopes;
- the standalone handlers `api/apps.py`, `api/categories.py`, `api/search.py`,
  `api/stats.py` and `api/latest.py`, which validate query parameters, filter, sort
  with Python's stable `sorted`, and paginate with Python slices.

Module layout, following the program:

| module | file | models |
|---|---|---|
| `Wrappers` | wrappers.dfy | `Option` and `Result` |
| `Text` | text.dfy | `str.strip`, `str.lower`, `in` on strings, `str.split`, `<` on `str` |
| `Numerals` | numerals.dfy | `int(text)` and `str(n)` |
| `Seqs` | seqs.dfy | list comprehensions, dict key order, sums, slices |
| `Sorting` | sorting.dfy | `sorted(..., key, reverse)` as a stable insertion sort |
| `Catalogue` | catalogue.dfy | the application record and per-record tests (`is_game`, ...) |
| `Tallies` | tally.dfy | counting dicts, `Counter`, `most_common` |
| `DataStore` | datastore.dfy | `DataStore` in `api/index.py` |
| `Paging` | paging.dfy | the offset-and-limit slicing of a sorted list |
| `Requests` | requests.dfy | the shared `limit`/`offset`/`sort`/`order` validation |
| `Statistics` | statistics.dfy | the `/stats` walk of `api/index.py`, as a function and as a loop |
| `Service` | service.dfy | the endpoints of `api/index.py` |
| `AppsHandler`, `CategoriesHandler`, `SearchHandler`, `StatsHandler`, `LatestHandler` | *_handler.dfy | the standalone handlers |

Decisions the model makes explicit:

- **Snapshot.** The loaded snapshot is a parameter. In `api/index.py` it is
  `Option<seq<App>>`, and `None` stands for a store that failed to load. The
  `before_request` hook answers every request in that case with `DATA_NOT_AVAILABLE`
  / 503. The per-endpoint `'Data not available'` 503 therefore never runs. The model
  uses the hook's answer.
- **Sorting.** `sorted` is stable. Records with equal keys keep their snapshot order,
  and with `reverse=True` they also stay in snapshot order (Python reverses the
  comparison, not the result). Counting dicts keep keys in first-insertion order, so
  equal counts are listed in order of first appearance.
- **Categories of `/category/<name>`.** The code reports `CATEGORY_NOT_FOUND` exactly
  when no record carries the tag. A success reply is never empty
  (`Service.CategoryAppsNeverEmpty`). So the "known category with zero apps" answer
  that the existence check allows for cannot happen.
- **Query stripping.** `/search` in `api/index.py` strips its query. `api/search.py`
  only lower-cases it, so a query of spaces is accepted there and searched for.
- **Offsets.** Negative offsets and limits follow Python's slice rules (`Seqs.PySlice`,
  `Paging.Paginate`). They are not rejected.

## Model

| member | source | states |
|---|---|---|
| Catalogue.AllCategoriesMembership | api/categories.py:18-21 | a tag is collected by the walk over all records exactly when some record carries it |
| Catalogue.LicencesMembership | api/index.py:799-801 | a licence is counted exactly when it is non-empty and some record has it |
| Text.StripEmptyIffBlank | api/index.py:574 | `x.strip()` is empty exactly when every character of `x` is whitespace |
| Text.ContainsAt | api/index.py:161-164 | `q in s` holds exactly when `q` occurs in `s` at some offset |
| Text.LessTotal | api/categories.py:23 | two different strings are always ordered one way or the other, so sorting tags is well defined |
| Text.LessTransitive | api/categories.py:23 | string order is transitive |
| Text.SplitJoin | api/search.py:24 | `split(',')` loses nothing: joining the pieces with commas gives back the argument |
| Numerals.ParseShow | api/apps.py:18-19 | `int(str(n)) == n` for every integer `n`, so every limit and offset can be sent |
| Numerals.BlankIsNotInt | api/apps.py:19 | `int()` rejects empty and whitespace-only text |
| Seqs.Filter | api/index.py:511 | a comprehension keeps the matching records, in order, each as often as it occurs |
| Seqs.FilterComplement | api/index.py:511 | filtering with a test and with its negation splits a list into two parts whose lengths add up to the whole |
| Seqs.CountWhere | api/stats.py:26-27 | a counter is between 0 and the number of records; it is 0 exactly when no record qualifies and full exactly when all do |
| Seqs.CountWhereFilter | api/stats.py:26-27 | counting the qualifying records equals the length of the list of them |
| Seqs.FirstSeen | api/index.py:191-196 | a dict filled in one pass holds each distinct key once, in order of first appearance |
| Seqs.FirstSeenOrder | api/index.py:191-196 | the dict's key order is the order in which the keys first appear |
| Seqs.FirstSeenCardinality | api/index.py:823-825 | `len(set(xs))` equals the number of dict keys |
| Sorting.SortBy | api/apps.py:33 | `sorted` returns a permutation of its input, ordered by the key, with equal-key records in input order, in both directions |
| Sorting.SortCharacterised | api/apps.py:33 | any ordered list that keeps every key group in input order is that sort's result, so the stable sort is unique |
| Sorting.SortIdempotent | api/apps.py:33 | sorting a sorted list changes nothing |
| Sorting.SortKeepsTieOrder | api/index.py:200-204 | if the input lists items in some order, equal-key items of the result are still in that order |
| Tallies.CountOccurrences | api/index.py:191-196 | the counting loop produces keys in first-seen order, one per distinct value, each mapped to its number of occurrences |
| Tallies.TallyTotal | api/stats.py:23 | the counts of a tally add up to the number of counted values |
| Tallies.Ranking | api/index.py:198-205 | the items sorted by count: each key once, with its multiplicity, counts non-increasing, equal counts in first-seen order |
| Tallies.RankingTotal | api/stats.py:23 | the counts of the ranking add up to the number of counted values |
| Tallies.MostCommon | api/stats.py:24 | `most_common(n)` has at most `n` items, is a prefix of the full ranking, and is the whole ranking when that is shorter |
| Tallies.MostCommonIsTop | api/stats.py:24 | every value left out of `most_common(n)` occurs at most as often as any value listed |
| Tallies.MostCommonDistinct | api/stats.py:24 | `most_common(n)` names each value at most once |
| DataStore.FindById | api/index.py:129-139 | no result exactly when no record has the id; otherwise a record with that id |
| DataStore.FindByIdIsFirst | api/index.py:139 | the record found is the first one with that id |
| DataStore.SearchApps | api/index.py:152-167 | the matches are a subsequence of the snapshot; a record is in them exactly when the lower-cased query occurs in its lower-cased name, summary, description or id; each match keeps its multiplicity |
| DataStore.SearchIgnoresCase | api/index.py:152 | two queries that lower-case alike give the same matches |
| DataStore.AppsByCategory | api/index.py:179-182 | the records carrying the tag, in snapshot order, each as often as it occurs |
| DataStore.AppsByCategoryEmpty | api/index.py:179-182 | the category list is empty exactly when no record carries the tag |
| DataStore.CategoryCounts | api/index.py:191-205 | each non-empty tag once, with its number of occurrences, by count from high to low, equal counts in order of first appearance |
| DataStore.CategoryListed | api/index.py:195 | a tag is listed exactly when it is non-empty and some record carries it |
| Paging.Paginate | api/apps.py:37-40 | the page is a contiguous run of the list; without a limit, or with limit 0, it is the tail from the offset (a negative offset counting from the end); with a positive limit and an offset `o >= 0` it is the next `limit` items from `o`, as far as there are any; with a negative limit `-m` at an offset `o >= 0` it is the items from `o` up to `m` before the end, or nothing when `o >= m` or `m >= len`; past the end it is empty |
| Paging.MakePage | api/apps.py:35-46 | `total` is the list length and `count` the page length, never more than `total` |
| Paging.PageAt | api/apps.py:37-38 | a positive limit at a non-negative offset returns the next `limit` items from the offset, as far as there are any |
| Paging.FirstPagesArePrefix | api/apps.py:37-38 | the first `n` pages of a fixed positive size, concatenated, are the first `n * size` items: nothing lost or repeated |
| Paging.PagesCoverAll | api/apps.py:37-38 | enough pages cover the whole list |
| Requests.ReadLimit | api/apps.py:18 | absent or empty means no limit; other text must be an integer, else a 400 |
| Requests.ReadOffset | api/apps.py:19 | absent means 0; present text, even empty, must be an integer, else a 400 |
| Requests.FieldNamed | api/apps.py:25-26 | exactly `name`, `version`, `versionCode` and `id` are accepted, each naming its field |
| Requests.OrderNamed | api/apps.py:28-29 | exactly `asc` and `desc` are accepted |
| Requests.ReadParams | api/apps.py:17-29 | a bad number is reported first, then a bad sort field, then a bad order; well-formed numbers with a known field and order always succeed, carrying the parsed limit and offset; the defaults are `name` and `asc` |
| Requests.ReadParamsRoundTrip | api/apps.py:17-29 | every parameter combination, written out as query text, is read back unchanged |
| Requests.Window | api/apps.py:33-46 | the reply's total is the number of records considered, and its results are the asked-for page of the sorted list |
| Requests.ArrangeIsStableSort | api/apps.py:33 | the list handed to pagination is a stable sort of the records on the requested field and direction |
| Requests.WindowsCoverList | api/apps.py:33-40 | requests at offsets 0, size, 2*size, ... return pages that together are the whole sorted list |
| AppsHandler.GetApps | api/apps.py:15-46 | parameter errors as validated; otherwise the sorted page of all records |
| AppsHandler.GetApp | api/apps.py:49-63 | blank id is a 400; for any other id the lookup succeeds exactly when some record has the id and is not found otherwise; the record returned is the first with that id, which is what the id lookup returns |
| CategoriesHandler.SortedUnion | api/categories.py:18-23 | the tags listed are exactly those some record carries, each once, in strictly ascending order, as many as there are distinct tags |
| CategoriesHandler.SortedUnionAnyOrder | api/categories.py:23 | sorting any duplicate-free listing of the tag set gives the same list, so set iteration order cannot show |
| CategoriesHandler.GetCategories | api/categories.py:14-28 | `count` is the number of distinct tags and `categories` the sorted union |
| CategoriesHandler.GetAppsByCategory | api/categories.py:31-78 | parameter errors first; then 404 exactly when no record carries the tag; success exactly when the parameters are valid and some record carries the tag, with a non-empty sorted page of the records carrying it and the name echoed |
| SearchHandler.CategoryListItems | api/search.py:24 | every listed category is non-empty, comma-free, already stripped and the stripped form of some comma-separated piece; the list keeps the pieces' order; every non-blank piece is listed; an absent or empty argument lists none |
| SearchHandler.SearchHits | api/search.py:38-47 | the hits are a subsequence of the snapshot; a record is a hit exactly when the query occurs in its lower-cased name or summary and, if categories were named, it carries one of them; each hit occurs as often as in the snapshot |
| SearchHandler.Search | api/search.py:14-62 | an absent or empty query is a 400 before anything else; then the parameter errors; success exactly when the query is non-empty and the parameters are valid, with the sorted page of the hits |
| SearchHandler.SearchIgnoresQueryCase | api/search.py:16 | a query and its lower-cased form get the same reply |
| SearchHandler.CategoriesNarrow | api/search.py:43-47 | naming categories only removes hits |
| StatsHandler.GetStats | api/stats.py:15-36 | totals as counted; the two tag lists are `most_common(3)` and `most_common(10)` of the walk, distinct tags, the first a prefix of the second, of the right lengths; every count is the tag's positive number of occurrences, from high to low; the summary and APK counts are the sizes of those record lists |
| StatsHandler.TopTags | api/stats.py:24-35 | `most_common(3)` is a prefix of `most_common(10)`; each is as long as its cut or the number of distinct tags |
| StatsHandler.DistributionTotal | api/stats.py:23-35 | with at most ten distinct tags the distribution lists them all, and its counts add up to the number of tag occurrences |
| LatestHandler.ReadLatestLimit | api/latest.py:16-19 | absent or empty means 10; other text must be an integer, else a 400 |
| LatestHandler.GetLatest | api/latest.py:14-33 | the results are a prefix of the records sorted by version code, highest first; their number is the limit, all records for 0, or all but the last `-n` for a negative `n` |
| LatestHandler.LatestAreNewestFirst | api/latest.py:23-28 | the results come from the snapshot, version codes never increase, and no record left out has a higher version code than one listed |
| Service.CreateError | api/index.py:263-288 | the status is kept; the code is the one given, or `ERROR_` followed by exactly the decimal text of the status, which reads back as the status |
| Service.GetApps | api/index.py:500-517 | refused exactly when no snapshot is loaded; otherwise the non-game records in order, each as often as in the snapshot, with the snapshot size as total |
| Service.GetGames | api/index.py:522-539 | refused exactly when no snapshot is loaded; otherwise the game records in order, each as often as in the snapshot, with the snapshot size as total |
| Service.IsGameNamed | api/index.py:221-232 | a record is a game exactly when one of its tags is `Games` or `Game` |
| Service.AppsGamesPartition | api/index.py:510-539 | the apps and games lists split the snapshot; each reply's other count is the other list's length |
| Service.GetApp | api/index.py:561-590 | blank id is `INVALID_APP_ID`; for any other id success exactly when some record has it, `APP_NOT_FOUND` otherwise; the record returned is the first with the id |
| Service.Search | api/index.py:595-630 | after stripping, empty is `MISSING_QUERY`, one character is `QUERY_TOO_SHORT`, two or more succeed; the reply echoes the stripped query and lists the four-field matches of it, in order, each as often as in the snapshot |
| Service.SearchIgnoresPadding | api/index.py:609 | queries that strip alike get the same reply |
| Service.GetCategories | api/index.py:635-650 | succeeds whenever a snapshot is loaded; the list is the per-category counts, so the names are exactly the non-empty tags some record carries |
| Service.GetCategoryApps | api/index.py:655-692 | blank name is `INVALID_CATEGORY`; for any other name success exactly when some record carries the tag, `CATEGORY_NOT_FOUND` otherwise; the records carrying it, in order, each as often as in the snapshot |
| Service.CategoryAppsNeverEmpty | api/index.py:675-687 | a successful category reply is never empty |
| Service.GetLatest | api/index.py:697-738 | a present integer limit below 1 is `INVALID_LIMIT`; otherwise the dated records, newest first, cut to the limit when given |
| Service.GetRandom | api/index.py:743-766 | with a snapshot loaded, `NO_APPS` exactly for an empty snapshot and success exactly for a non-empty one; the record is one of the snapshot |
| Service.RandomReachesEvery | api/index.py:764 | every record can be the one drawn |
| Service.GetStats | api/index.py:771-834 | refused exactly when no snapshot is loaded; otherwise the statistics of the snapshot |
| Statistics.UniqueLicences | api/index.py:825 | the number of distinct non-empty licences |
| Statistics.TopLicences | api/index.py:812-816 | `most_common(10)` of the non-empty licences: distinct, each with its count, counts from high to low, ten of them or all if fewer |
| Statistics.StatsOf | api/index.py:781-834 | totals and games as counted, non-games the rest, distinct tags and licences, the package total is the sum of the package-list lengths, the source-code and website counts are the numbers of records with those fields, top licences as ranked |
| Statistics.WalkRecords | api/index.py:785-809 | the accumulator loop computes the tag set, the package sum, the licence dict and the two counters of the whole snapshot |
| Statistics.GatherStats | api/index.py:781-834 | the loop-and-sort implementation gives the same statistics as the functional definition |

## Left out

- HTTP glue: Flask routing, the CORS and security headers of `after_request`, the
  generic 404/405/500 handlers, the JSON encoding, and the human-readable message texts
  of every error.
- The `timing_decorator` field `_response_time_ms` and every `timestamp`: they read the
  clock.
- Loading: `DataStore.__init__`, `load_data`, `load_apps` in each handler and the
  metadata reply. The snapshot is a parameter instead, and `DataStore.get_metadata`,
  `/health`, `/all` and the `/` documentation route only echo it.
- `random.choice`: the draw is a parameter of `Service.GetRandom`.
- Unicode: `str.lower`, `str.isspace` and `int()` are modelled over ASCII only.
  Non-ASCII letters are not lower-cased, and non-ASCII digits and spaces are not
  recognised.
- Mixed types: records are well typed. A missing string field is `""` and a missing
  `versionCode` is 0. `api/apps.py` sorts an absent `versionCode` as `''` against
  integers, which raises `TypeError` in Python. That reply is not modelled.
- Paginate: for a negative offset together with a non-zero limit the contract states only
  that the page is a contiguous run of the list, not which one; Python's slice rules for
  that combination are left to the definition.
- `Sorting.KeyLess`: it gives an arbitrary fixed answer for a number against a string.
  This never arises, because each sort key is all numbers or all strings.
- Concurrency and the serverless runtime: each request reads one fixed snapshot.
- The scripts that build the snapshot from the F-Droid index are not part of this model.
