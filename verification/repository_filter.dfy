/** Filtering and counting of a fetched repository list (internal/github/repository.go). */
module RepositoryFilter {
  import opened Seqs
  import opened Models

  /** Whether `filter` admits `repo` in the per-repository switch; an unknown filter admits nothing. */
  predicate Admits(filter: FilterType, repo: Repository) {
    (filter == FilterNonForks && !repo.isFork) || (filter == FilterForksOnly && repo.isFork)
  }

  /** `Admits` as a first-class predicate, so that every filter over the same kind is the same term. */
  function AdmitsFn(filter: FilterType): Repository -> bool {
    x => Admits(filter, x)
  }

  /** `FilterRepositories`: `FilterAll` returns the list itself, any other value keeps the admitted repositories in order. */
  function FilterRepositories(repos: seq<Repository>, filter: FilterType): (r: seq<Repository>)
    ensures IsSubsequence(r, repos)
    ensures filter == FilterAll ==> r == repos
    ensures filter != FilterAll ==> forall x :: x in r <==> x in repos && Admits(filter, x)
    ensures !IsKnownFilter(filter) ==> r == []
  {
    if filter == FilterAll then
      SubsequenceRefl(repos);
      repos
    else
      var kept := Keep(repos, AdmitsFn(filter));
      KeepIsSubsequence(repos, AdmitsFn(filter));
      forall x ensures x in kept <==> x in repos && Admits(filter, x) {
        KeepMembership(repos, AdmitsFn(filter), x);
      }
      if !IsKnownFilter(filter) then
        KeepNone(repos, AdmitsFn(filter));
        kept
      else kept
  }

  lemma {:induction false} SubsequenceRefl<T>(s: seq<T>)
    ensures IsSubsequence(s, s)
    decreases |s|
  {
    if |s| > 0 {
      SubsequenceRefl(s[1..]);
    }
  }

  /** The non-fork filter and the fork filter partition the list: together they account for every repository. */
  lemma ForkFiltersPartition(repos: seq<Repository>)
    ensures |FilterRepositories(repos, FilterNonForks)| + |FilterRepositories(repos, FilterForksOnly)| == |repos|
  {
    var nonFork := AdmitsFn(FilterNonForks);
    var fork := AdmitsFn(FilterForksOnly);
    KeepLength(repos, nonFork);
    KeepLength(repos, fork);
    CountIfSplit(repos, fork, nonFork);
  }

  /**
   * `CalculateStats`: one pass over the list, counting forks against non-forks
   * and private against public repositories.
   */
  method CalculateStats(repos: seq<Repository>) returns (stats: RepositoryStats)
    ensures stats.total == |repos|
    ensures stats.forks + stats.nonForks == stats.total
    ensures stats.privateCount + stats.publicCount == stats.total
    ensures stats.nonForks == |FilterRepositories(repos, FilterNonForks)|
    ensures stats.forks == |FilterRepositories(repos, FilterForksOnly)|
    ensures stats.privateCount == CountIf(repos, (x: Repository) => x.isPrivate)
  {
    var nonFork := AdmitsFn(FilterNonForks);
    var fork := AdmitsFn(FilterForksOnly);
    var isPrivate := (x: Repository) => x.isPrivate;
    stats := RepositoryStats(|repos|, 0, 0, 0, 0);
    for i := 0 to |repos|
      invariant stats.total == |repos|
      invariant stats.forks == |Keep(repos[..i], fork)|
      invariant stats.nonForks == |Keep(repos[..i], nonFork)|
      invariant stats.privateCount == CountIf(repos[..i], isPrivate)
      invariant stats.privateCount + stats.publicCount == i
    {
      var repo := repos[i];
      assert repos[..i + 1] == repos[..i] + [repo];
      KeepAppend(repos[..i], [repo], fork);
      KeepAppend(repos[..i], [repo], nonFork);
      CountIfAppend(repos[..i], [repo], isPrivate);
      if repo.isFork {
        stats := stats.(forks := stats.forks + 1);
      } else {
        stats := stats.(nonForks := stats.nonForks + 1);
      }
      if repo.isPrivate {
        stats := stats.(privateCount := stats.privateCount + 1);
      } else {
        stats := stats.(publicCount := stats.publicCount + 1);
      }
    }
    assert repos[..|repos|] == repos;
    ForkFiltersPartition(repos);
  }

  /** `SortRepositories` has an empty body in the source: the list comes back exactly as given. */
  function SortRepositories(repos: seq<Repository>, sortBy: string): (r: seq<Repository>)
    ensures r == repos
  {
    repos
  }
}
