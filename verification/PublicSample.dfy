/** Picking benchmark instances: a quota per language, repositories in turn, the
    largest fixes of each repository first. */
module PublicSample {
  import opened Prelude
  import opened RoundRobin
  import opened Grouping
  import StableSort
  import TextOrder

  datatype Instance = Instance(id: string, repo: string, statementChars: nat, files: nat, lines: nat, testFiles: nat,
                               failingTests: nat)

  const MIN_STATEMENT_CHARS := 200
  const MAX_FILES := 12
  const MAX_LINES := 500

  /** The language table, total: a repository it does not know has no language. */
  type Languages = string -> string

  predicate Rejected(row: Instance, languages: Languages) {
    || languages(row.repo) == ""
    || row.statementChars < MIN_STATEMENT_CHARS
    || row.files > MAX_FILES || row.lines > MAX_LINES
    || row.testFiles == 0
    || row.failingTests == 0
  }

  function Usable(taken: set<string>, languages: Languages): Instance -> bool {
    (row: Instance) => row.id !in taken && !Rejected(row, languages)
  }

  function LanguageOf(languages: Languages): Instance -> string {
    (row: Instance) => languages(row.repo)
  }

  function RepoOf(): Instance -> string {
    (row: Instance) => row.repo
  }

  function BiggerFirst(): (Instance, Instance) -> bool {
    (a: Instance, b: Instance) => a.lines > b.lines
  }

  function InAnyOrder(): (Instance, Instance) -> bool {
    (a: Instance, b: Instance) => true
  }

  /** The picks of one language from its usable rows. */
  function Picks(pool: seq<Instance>, quota: int): seq<Instance> {
    UpTo(ByTurns(StableSort.Sort(pool, BiggerFirst()), RepoOf()), quota)
  }

  function PicksOf(quota: int): seq<Instance> -> seq<Instance> {
    (pool: seq<Instance>) => Picks(pool, quota)
  }

  function Sample(rows: seq<Instance>, quota: int, taken: set<string>, languages: Languages): seq<Instance> {
    FlatMap(PicksOf(quota), Queues(Filter(rows, Usable(taken, languages)), LanguageOf(languages)))
  }

  method PickLanguage(pool: seq<Instance>, quota: int) returns (chosen: seq<Instance>)
    ensures chosen == Picks(pool, quota)
  {
    var sorted := StableSort.Sort(pool, BiggerFirst());
    var perRepo := SplitIntoQueues(sorted, RepoOf());
    chosen := TakeUpTo(perRepo, quota);
  }

  /** `picked += chosen`, language after language. */
  method PickEach(pools: seq<seq<Instance>>, quota: int) returns (picked: seq<Instance>)
    ensures picked == FlatMap(PicksOf(quota), pools)
  {
    picked := [];
    for i := 0 to |pools|
      invariant Remaining(PicksOf(quota), pools, picked, i)
    {
      FlatMapStep(PicksOf(quota), pools, picked, i);
      var chosen := PickLanguage(pools[i], quota);
      picked := picked + chosen;
    }
    NoneRemaining(PicksOf(quota), pools, picked);
  }

  method TakeSample(rows: seq<Instance>, quota: int, taken: set<string>, languages: Languages)
    returns (picked: seq<Instance>)
    ensures picked == Sample(rows, quota, taken, languages)
  {
    var usable := Filter(rows, Usable(taken, languages));
    var byLanguage := SplitIntoQueues(usable, LanguageOf(languages));
    picked := PickEach(byLanguage, quota);
  }

  // ---- what one language gets ----------------------------------------------------------------

  lemma BiggerFirstRanks()
    ensures StableSort.Ranks(BiggerFirst())
  {
  }

  /** The turns use up the whole pool. */
  lemma TurnsUsePool(pool: seq<Instance>)
    ensures multiset(ByTurns(StableSort.Sort(pool, BiggerFirst()), RepoOf())) == multiset(pool)
    ensures |ByTurns(StableSort.Sort(pool, BiggerFirst()), RepoOf())| == |pool|
  {
    var turns := ByTurns(StableSort.Sort(pool, BiggerFirst()), RepoOf());
    TurnsPermute(StableSort.Sort(pool, BiggerFirst()), RepoOf());
    assert |multiset(turns)| == |turns| && |multiset(pool)| == |pool|;
  }

  lemma PrefixIsPart<T>(s: seq<T>, r: seq<T>)
    requires r <= s
    ensures multiset(r) <= multiset(s)
  {
    assert s == r + s[|r|..];
  }

  /** Exactly the quota, or everything usable if that is less, and nothing picked more
      often than it was offered. */
  lemma QuotaIsMet(pool: seq<Instance>, quota: int)
    ensures |Picks(pool, quota)| == if quota < 0 then 0 else if |pool| <= quota then |pool| else quota
    ensures multiset(Picks(pool, quota)) <= multiset(pool)
  {
    TurnsUsePool(pool);
    PrefixIsPart(ByTurns(StableSort.Sort(pool, BiggerFirst()), RepoOf()), Picks(pool, quota));
  }

  lemma {:induction false} FilterStaysOrdered(s: seq<Instance>, keep: Instance -> bool)
    requires StableSort.OrderedBy(s, BiggerFirst(), InAnyOrder())
    ensures StableSort.OrderedBy(Filter(s, keep), BiggerFirst(), InAnyOrder())
  {
    if s != [] {
      FilterStaysOrdered(s[1..], keep);
      var rest := Filter(s[1..], keep);
      forall y | y in rest ensures StableSort.Before(BiggerFirst(), InAnyOrder(), s[0], y) {
        var j :| 0 <= j < |s[1..]| && s[1..][j] == y;
        assert s[j + 1] == y;
      }
    }
  }

  /** Within a language no repository is more than one pick ahead of another unless
      that one is used up. */
  lemma ReposShareTheQuota(pool: seq<Instance>, quota: int, repo: string, other: string)
    ensures var here := Filter(Picks(pool, quota), InGroup(RepoOf(), repo));
            var there := Filter(Picks(pool, quota), InGroup(RepoOf(), other));
            |here| <= |there| + 1 || |there| == |Filter(pool, InGroup(RepoOf(), other))|
  {
    var sorted := StableSort.Sort(pool, BiggerFirst());
    TurnsAreFair(sorted, RepoOf(), |Picks(pool, quota)|, repo, other);
    assert Picks(pool, quota) == ByTurns(sorted, RepoOf())[..|Picks(pool, quota)|];
    SortKeepsGroupSize(pool, other);
  }

  lemma FrontOfOrdered(queue: seq<Instance>, here: seq<Instance>, x: Instance, y: Instance)
    requires StableSort.OrderedBy(queue, BiggerFirst(), InAnyOrder()) && here <= queue
    requires x in here && y in queue && y !in here
    ensures x.lines >= y.lines
  {
    var a :| 0 <= a < |here| && here[a] == x;
    var b :| 0 <= b < |queue| && queue[b] == y;
    assert queue[a] == x && b >= |here|;
    assert StableSort.Before(BiggerFirst(), InAnyOrder(), queue[a], queue[b]);
  }

  lemma RepoQueueOrdered(pool: seq<Instance>, keep: Instance -> bool)
    ensures StableSort.OrderedBy(Filter(StableSort.Sort(pool, BiggerFirst()), keep), BiggerFirst(), InAnyOrder())
  {
    BiggerFirstRanks();
    StableSort.SortOrders(pool, BiggerFirst(), InAnyOrder());
    FilterStaysOrdered(StableSort.Sort(pool, BiggerFirst()), keep);
  }

  lemma SharesAreFronts(pool: seq<Instance>, quota: int, repo: string)
    ensures Filter(Picks(pool, quota), InGroup(RepoOf(), repo))
            <= Filter(StableSort.Sort(pool, BiggerFirst()), InGroup(RepoOf(), repo))
  {
    var sorted := StableSort.Sort(pool, BiggerFirst());
    TurnsAreFair(sorted, RepoOf(), |Picks(pool, quota)|, repo, repo);
    assert Picks(pool, quota) == ByTurns(sorted, RepoOf())[..|Picks(pool, quota)|];
  }

  /** A repository's picks are its largest fixes. */
  lemma {:induction false} LargestFixesFirst(pool: seq<Instance>, quota: int, x: Instance, y: Instance)
    requires x in Picks(pool, quota) && y in pool && y !in Picks(pool, quota) && x.repo == y.repo
    ensures x.lines >= y.lines
  {
    var own := InGroup(RepoOf(), x.repo);
    var queue, here := Filter(StableSort.Sort(pool, BiggerFirst()), own), Filter(Picks(pool, quota), own);
    SharesAreFronts(pool, quota, x.repo);
    assert y in queue by {
      StableSort.SortElems(pool, BiggerFirst());
    }
    RepoQueueOrdered(pool, own);
    FrontOfOrdered(queue, here, x, y);
  }

  lemma SortKeepsGroupSize(pool: seq<Instance>, repo: string)
    ensures |Filter(StableSort.Sort(pool, BiggerFirst()), InGroup(RepoOf(), repo))|
            == |Filter(pool, InGroup(RepoOf(), repo))|
  {
    FilterMultiset(StableSort.Sort(pool, BiggerFirst()), pool, InGroup(RepoOf(), repo));
  }

  lemma FilterMultiset(a: seq<Instance>, b: seq<Instance>, keep: Instance -> bool)
    requires multiset(a) == multiset(b)
    ensures |Filter(a, keep)| == |Filter(b, keep)|
  {
    var fa, fb := Filter(a, keep), Filter(b, keep);
    forall x ensures multiset(fa)[x] == multiset(fb)[x] {
      if keep(x) {
        FilterCount(a, keep, x);
        FilterCount(b, keep, x);
      } else {
        assert x !in fa && x !in fb;
      }
    }
    assert multiset(fa) == multiset(fb);
    assert |fa| == |multiset(fa)| && |fb| == |multiset(fb)|;
  }

  // ---- what the whole sample holds -------------------------------------------------------------

  lemma PicksAreOffered(quota: int)
    ensures OnlyTakes(PicksOf(quota))
  {
    forall pool, x | x in PicksOf(quota)(pool) ensures x in pool {
      QuotaIsMet(pool, quota);
      assert x in multiset(Picks(pool, quota));
    }
  }

  /** Every language's share of the sample is the picks from its usable rows: exactly
      min(quota, usable) of them, and none that is taken or rejected. */
  lemma SampleOfLanguage(rows: seq<Instance>, quota: int, taken: set<string>, languages: Languages, language: string)
    ensures var pool := Filter(Filter(rows, Usable(taken, languages)), InGroup(LanguageOf(languages), language));
            var share := Filter(Sample(rows, quota, taken, languages), InGroup(LanguageOf(languages), language));
            && share == Picks(pool, quota)
            && |share| == (if quota < 0 then 0 else if |pool| <= quota then |pool| else quota)
            && multiset(share) <= multiset(pool)
  {
    var usable := Filter(rows, Usable(taken, languages));
    PicksAreOffered(quota);
    FlatMapOfQueues(PicksOf(quota), usable, LanguageOf(languages), language);
    QuotaIsMet(Filter(usable, InGroup(LanguageOf(languages), language)), quota);
  }

  lemma ShareHolds(pool: seq<Instance>, share: seq<Instance>, x: Instance)
    requires multiset(share) <= multiset(pool)
    ensures x in share ==> x in pool
    ensures |share| == |pool| && x in pool ==> x in share
  {
    if x in share {
      assert x in multiset(share) && x in multiset(pool);
    }
    if |share| == |pool| && x in pool {
      SameSizeSame(share, pool);
      assert x in multiset(pool) && x in multiset(share);
    }
  }

  lemma SampleHolds(rows: seq<Instance>, quota: int, taken: set<string>, languages: Languages, x: Instance)
    ensures x in Sample(rows, quota, taken, languages) ==> x in Filter(rows, Usable(taken, languages))
    ensures quota >= |rows| && x in Filter(rows, Usable(taken, languages)) ==>
              x in Sample(rows, quota, taken, languages)
  {
    var own := InGroup(LanguageOf(languages), languages(x.repo));
    SampleOfLanguage(rows, quota, taken, languages, languages(x.repo));
    ShareHolds(Filter(Filter(rows, Usable(taken, languages)), own),
               Filter(Sample(rows, quota, taken, languages), own), x);
  }

  /** Which rows a sample may hold, by their columns, and that it holds them all once the
      quota does not bind. */
  lemma SampleByColumns(rows: seq<Instance>, quota: int, taken: set<string>, languages: Languages, x: Instance)
    ensures x in Sample(rows, quota, taken, languages) ==>
              x in rows && x.id !in taken && languages(x.repo) != "" && x.statementChars >= 200
              && x.files <= 12 && x.lines <= 500 && x.testFiles > 0 && x.failingTests > 0
    ensures x in rows && x.id !in taken && languages(x.repo) != "" && x.statementChars >= 200
            && x.files <= 12 && x.lines <= 500 && x.testFiles > 0 && x.failingTests > 0 && quota >= |rows| ==>
              x in Sample(rows, quota, taken, languages)
  {
    SampleHolds(rows, quota, taken, languages, x);
    UsableByColumns(rows, taken, languages, x);
  }

  lemma {:induction false} UsableByColumns(rows: seq<Instance>, taken: set<string>, languages: Languages, x: Instance)
    ensures x in Filter(rows, Usable(taken, languages)) <==>
              x in rows && x.id !in taken && languages(x.repo) != "" && x.statementChars >= 200
              && x.files <= 12 && x.lines <= 500 && x.testFiles > 0 && x.failingTests > 0
  {
  }

  lemma SameSizeSame<T>(part: seq<T>, whole: seq<T>)
    requires multiset(part) <= multiset(whole) && |part| == |whole|
    ensures multiset(part) == multiset(whole)
  {
    var rest := multiset(whole) - multiset(part);
    assert multiset(whole) == multiset(part) + rest;
    assert |multiset(whole)| == |whole| && |multiset(part)| == |part|;
    assert |rest| == 0;
  }

  function AnyInstances(): (Instance, Instance) -> bool {
    (a: Instance, b: Instance) => true
  }

  /** The sample goes language by language, in name order. */
  lemma LanguagesInOrder(rows: seq<Instance>, quota: int, taken: set<string>, languages: Languages, i: nat, j: nat)
    requires i < j < |Sample(rows, quota, taken, languages)|
    ensures var picked := Sample(rows, quota, taken, languages);
            TextOrder.Less(languages(picked[i].repo), languages(picked[j].repo))
            || languages(picked[i].repo) == languages(picked[j].repo)
  {
    var usable, language := Filter(rows, Usable(taken, languages)), LanguageOf(languages);
    PicksAreOffered(quota);
    QueuesKeyed(usable, language);
    GroupNamesAscend(usable, language);
    FlatMapAscends(PicksOf(quota), Queues(usable, language), GroupNames(usable, language), language, AnyInstances());
    assert ByGroup(language, AnyInstances())(Sample(rows, quota, taken, languages)[i],
                                             Sample(rows, quota, taken, languages)[j]);
  }
}
