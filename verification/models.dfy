/** The shared data types of the program: repositories, filters, clone results and progress. */
module Models {
  import opened Results

  /** A repository as listed by the hosting service. Only the fields the core reads are kept. */
  datatype Repository = Repository(
    id: int,
    name: string,
    fullName: string,
    description: string,
    cloneUrl: string,
    language: string,
    starCount: int,
    forkCount: int,
    isFork: bool,
    isPrivate: bool)

  datatype RepositoryStats = RepositoryStats(total: int, forks: int, nonForks: int, privateCount: int, publicCount: int)

  /** A filter kind is a Go `int`; only the three constants below, numbered by `iota` from zero, are meaningful. */
  type FilterType = int

  const FilterAll: FilterType := 0
  const FilterNonForks: FilterType := 1
  const FilterForksOnly: FilterType := 2

  predicate IsKnownFilter(f: FilterType) {
    f == FilterAll || f == FilterNonForks || f == FilterForksOnly
  }

  /** The human-readable label of a filter; any value outside the three constants reads "Unknown". */
  function FilterLabel(f: FilterType): (text: string)
    ensures IsKnownFilter(f) <==> text != "Unknown"
  {
    if f == FilterAll then "All repositories"
    else if f == FilterNonForks then "Non-fork repositories only"
    else if f == FilterForksOnly then "Fork repositories only"
    else "Unknown"
  }

  /** Distinct known filters have distinct labels, so a label identifies its filter. */
  lemma FilterLabelInjective(f: FilterType, g: FilterType)
    requires IsKnownFilter(f) && IsKnownFilter(g)
    requires FilterLabel(f) == FilterLabel(g)
    ensures f == g
  {
    var a, b, c := FilterLabel(FilterAll), FilterLabel(FilterNonForks), FilterLabel(FilterForksOnly);
    assert a[0] == 'A' && b[0] == 'N' && c[0] == 'F';
  }

  /** Outcome of one clone job: the `error` is present exactly when `success` is false. */
  datatype CloneResult = CloneResult(repository: Repository, success: bool, error: Option<string>, duration: int)
  {
    predicate Valid() {
      success <==> error.None?
    }
  }

  /** The counters a progress view shows. */
  datatype CloneProgress = CloneProgress(total: int, completed: int, failed: int, current: string)

  predicate IsSuccess(r: CloneResult) {
    r.success
  }

  predicate IsFailure(r: CloneResult) {
    !r.success
  }
}
