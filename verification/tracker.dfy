/**
 * The line-mode progress tracker (internal/ui/progress.go): success and
 * failure counters, the current-operation text, and the numbered filter menu.
 */
module Tracker {
  import opened Results
  import opened Seqs
  import opened Text
  import opened Models

  datatype ProgressTracker = ProgressTracker(total: int, completed: int, failed: int, current: string)

  /** `NewProgressTracker`. */
  function NewTracker(total: int): (p: ProgressTracker)
    ensures p.total == total && p.completed == 0 && p.failed == 0 && p.current == ""
  {
    ProgressTracker(total, 0, 0, "")
  }

  /** `Update`: only the current-operation text changes. */
  function SetCurrent(p: ProgressTracker, current: string): (r: ProgressTracker)
    ensures r.current == current
    ensures r.(current := p.current) == p
  {
    p.(current := current)
  }

  /** `Success`: one more completed repository, announced with a check mark. */
  function Success(p: ProgressTracker, name: string): (r: ProgressTracker)
    ensures r.completed == p.completed + 1
    ensures r.total == p.total && r.failed == p.failed
    ensures r.current == CheckMark + " " + name
  {
    p.(completed := p.completed + 1, current := CheckMark + " " + name)
  }

  /** `Failure`: one more failed repository, announced with a cross mark and the error. */
  function Failure(p: ProgressTracker, name: string, error: string): (r: ProgressTracker)
    ensures r.failed == p.failed + 1
    ensures r.total == p.total && r.completed == p.completed
    ensures r.current == CrossMark + " " + name + ": " + error
  {
    p.(failed := p.failed + 1, current := CrossMark + " " + name + ": " + error)
  }

  /** `Total`. */
  function Total(p: ProgressTracker): (n: int)
    ensures n == p.total
  {
    p.total
  }

  /** The calls a caller can make on a tracker, in the order it made them. */
  datatype Event = Updated(text: string) | Succeeded(name: string) | Failed(name: string, error: string)

  predicate IsOutcome(e: Event) {
    !e.Updated?
  }

  predicate IsSucceeded(e: Event) {
    e.Succeeded?
  }

  predicate IsFailed(e: Event) {
    e.Failed?
  }

  function Apply(p: ProgressTracker, e: Event): ProgressTracker {
    match e
    case Updated(text) => SetCurrent(p, text)
    case Succeeded(name) => Success(p, name)
    case Failed(name, error) => Failure(p, name, error)
  }

  /** Apply the calls in order. */
  function ApplyAll(p: ProgressTracker, events: seq<Event>): (r: ProgressTracker)
    ensures r.total == p.total
    decreases |events|
  {
    if |events| == 0 then p else ApplyAll(Apply(p, events[0]), events[1..])
  }

  /** After any calls, each counter has grown by the number of calls of its kind, and the total is the constructor's. */
  lemma {:induction false} ApplyAllCounts(p: ProgressTracker, events: seq<Event>)
    ensures ApplyAll(p, events).completed == p.completed + CountIf(events, IsSucceeded)
    ensures ApplyAll(p, events).failed == p.failed + CountIf(events, IsFailed)
    ensures Total(ApplyAll(p, events)) == Total(p)
    decreases |events|
  {
    if |events| > 0 {
      ApplyAllCounts(Apply(p, events[0]), events[1..]);
    }
  }

  /** From a new tracker, completed plus failed is the number of Success and Failure calls. */
  lemma OutcomesCounted(total: int, events: seq<Event>)
    ensures var p := ApplyAll(NewTracker(total), events);
            p.completed + p.failed == CountIf(events, IsOutcome)
  {
    ApplyAllCounts(NewTracker(total), events);
    CountIfOutcomeSplit(events);
  }

  lemma {:induction false} CountIfOutcomeSplit(events: seq<Event>)
    ensures CountIf(events, IsSucceeded) + CountIf(events, IsFailed) == CountIf(events, IsOutcome)
    decreases |events|
  {
    if |events| > 0 {
      CountIfOutcomeSplit(events[1..]);
    }
  }

  /** The counters do not depend on the order of the calls. */
  lemma CountsIgnoreOrder(p: ProgressTracker, a: seq<Event>, b: seq<Event>)
    requires multiset(a) == multiset(b)
    ensures ApplyAll(p, a).completed == ApplyAll(p, b).completed
    ensures ApplyAll(p, a).failed == ApplyAll(p, b).failed
  {
    ApplyAllCounts(p, a);
    ApplyAllCounts(p, b);
    CountIfPermutation(a, b, IsSucceeded);
    CountIfPermutation(a, b, IsFailed);
  }

  /**
   * `DisplayFilterMenu`'s choice: 2 and 3 pick the fork filters, and any
   * other number, including the 0 left by an unreadable reply, picks "all".
   */
  function MenuChoice(choice: int): (f: FilterType)
    ensures IsKnownFilter(f)
    ensures f == FilterNonForks <==> choice == 2
    ensures f == FilterForksOnly <==> choice == 3
    ensures f == FilterAll <==> choice != 2 && choice != 3
  {
    if choice == 2 then FilterNonForks
    else if choice == 3 then FilterForksOnly
    else FilterAll
  }

  /** The menu numbers are the filter constants shifted by one, except that out-of-range numbers fall back to "all". */
  lemma MenuChoiceNumbering(f: FilterType)
    requires IsKnownFilter(f)
    ensures MenuChoice(f + 1) == f
  {
  }
}
