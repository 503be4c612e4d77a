/** Sets of selected list positions, shared by the text selector and the key-driven selector. */
module Selection {
  import opened Seqs
  import opened Models

  /** Flip membership of `i`: the Go idiom `if selected[i] { delete } else { selected[i] = true }`. */
  function Toggle(sel: set<int>, i: int): (r: set<int>)
    ensures i in r <==> i !in sel
    ensures forall j :: j != i ==> (j in r <==> j in sel)
  {
    if i in sel then sel - {i} else sel + {i}
  }

  /** Flipping the same position twice restores the selection. */
  lemma ToggleInvolution(sel: set<int>, i: int)
    ensures Toggle(Toggle(sel, i), i) == sel
  {
  }

  predicate Between(lo: int, i: int, hi: int) {
    lo <= i <= hi
  }

  /** Every position of a list of length `n`. */
  function AllIndices(n: int): (r: set<int>)
    ensures forall i :: i in r <==> 0 <= i < n
  {
    Interval(0, n - 1)
  }

  /** Positions `lo` through `hi`, both included. */
  function Interval(lo: int, hi: int): (r: set<int>)
    ensures forall i :: i in r <==> lo <= i <= hi
  {
    set i | lo <= i <= hi && Between(lo, i, hi)
  }

  /** Positions in exactly one of `a` and `b`. */
  function SymDiff(a: set<int>, b: set<int>): (r: set<int>)
    ensures forall i :: i in r <==> (i in a) != (i in b)
  {
    (a - b) + (b - a)
  }

  lemma SymDiffTwice(a: set<int>, b: set<int>)
    ensures SymDiff(SymDiff(a, b), b) == a
  {
  }

  /** Some member of a non-empty selection. */
  lemma MemberOf(s: set<int>) returns (x: int)
    requires |s| > 0
    ensures x in s
  {
    assert (forall y :: y !in s) ==> s == {};
    x :| x in s;
  }

  predicate Distinct(s: seq<int>) {
    forall i, j :: 0 <= i < j < |s| ==> s[i] != s[j]
  }

  /**
   * `walk` lists the keys of a Go map holding `sel` in the order one
   * `for index := range selected` loop visits them: every key exactly once,
   * in an order the language leaves unspecified.
   */
  predicate IsWalkOf(walk: seq<int>, sel: set<int>) {
    Distinct(walk) && (forall i :: i in walk ==> i in sel) && (forall i :: i in sel ==> i in walk)
  }

  /**
   * The repositories a walk of the selection collects, in visiting order:
   * one per visited position that lies inside the list, as the source's
   * `if index < len(repositories)` guard does (positions are never negative).
   * `getSelectedRepositories` and `GetSelectedRepositories` are this same loop.
   */
  function Picked(repos: seq<Repository>, walk: seq<int>): seq<Repository>
    decreases |walk|
  {
    if |walk| == 0 then []
    else
      var rest := Picked(repos, walk[1..]);
      if 0 <= walk[0] < |repos| then [repos[walk[0]]] + rest else rest
  }

  /**
   * What a walk collects: at most one repository per visited position, exactly
   * one when every position is on the list, each visited in-range position's
   * repository, and nothing that is not at some visited in-range position.
   */
  lemma {:induction false} PickedContents(repos: seq<Repository>, walk: seq<int>)
    ensures |Picked(repos, walk)| <= |walk|
    ensures (forall k :: 0 <= k < |walk| ==> 0 <= walk[k] < |repos|) ==> |Picked(repos, walk)| == |walk|
    ensures forall k :: 0 <= k < |walk| && 0 <= walk[k] < |repos| ==> repos[walk[k]] in Picked(repos, walk)
    ensures forall x :: x in Picked(repos, walk) ==>
              exists k :: 0 <= k < |walk| && 0 <= walk[k] < |repos| && repos[walk[k]] == x
    decreases |walk|
  {
    if |walk| > 0 {
      PickedContents(repos, walk[1..]);
      assert forall k :: 1 <= k < |walk| ==> walk[k] == walk[1..][k - 1];
    }
  }

  /** `getSelectedRepositories`: the repositories at the selected positions, in the order the map walk visits them. */
  function SelectedRepositories(repos: seq<Repository>, sel: set<int>, walk: seq<int>): (r: seq<Repository>)
    requires IsWalkOf(walk, sel)
    ensures forall i :: i in sel && 0 <= i < |repos| ==> repos[i] in r
    ensures forall x :: x in r ==> exists i :: i in sel && 0 <= i < |repos| && repos[i] == x
    ensures (forall i :: i in sel ==> 0 <= i < |repos|) ==> |r| == |sel|
  {
    var r := Picked(repos, walk);
    PickedContents(repos, walk);
    forall i | i in sel && 0 <= i < |repos| ensures repos[i] in r {
      var k :| 0 <= k < |walk| && walk[k] == i;
    }
    assert (forall i :: i in sel ==> 0 <= i < |repos|) ==> |r| == |sel| by {
      if forall i :: i in sel ==> 0 <= i < |repos| {
        DistinctCard(walk);
        assert (set x | x in walk) == sel;
        assert forall k :: 0 <= k < |walk| ==> walk[k] in sel;
      }
    }
    r
  }

  /** Every selected position is a position of a list of length `n`. */
  predicate InRange(sel: set<int>, n: int) {
    forall i :: i in sel ==> 0 <= i < n
  }

  /**
   * When the walk enumerates the selection and the selection lies on the list,
   * what the walk collects is exactly one repository per selected position.
   */
  lemma WalkCollectsSelection(repos: seq<Repository>, sel: set<int>, walk: seq<int>)
    ensures IsWalkOf(walk, sel) && InRange(sel, |repos|) ==>
              && (forall i :: i in sel ==> repos[i] in Picked(repos, walk))
              && (forall x :: x in Picked(repos, walk) ==> exists i :: i in sel && repos[i] == x)
              && |Picked(repos, walk)| == |sel|
  {
    if IsWalkOf(walk, sel) && InRange(sel, |repos|) {
      var r := SelectedRepositories(repos, sel, walk);
      assert r == Picked(repos, walk);
    }
  }

  /** A duplicate-free sequence has as many distinct elements as it has entries. */
  lemma {:induction false} DistinctCard(s: seq<int>)
    requires Distinct(s)
    ensures |(set x | x in s)| == |s|
    decreases |s|
  {
    if |s| > 0 {
      DistinctCard(s[1..]);
      var tail := set x | x in s[1..];
      assert (set x | x in s) == {s[0]} + tail;
      assert s[0] !in tail;
    }
  }

  /** A duplicate-free sequence holds each of its elements exactly once. */
  lemma {:induction false} DistinctMultiplicity(s: seq<int>, x: int)
    requires Distinct(s)
    ensures multiset(s)[x] == if x in s then 1 else 0
    decreases |s|
  {
    if |s| > 0 {
      assert s == [s[0]] + s[1..];
      DistinctMultiplicity(s[1..], x);
    }
  }

  lemma {:induction false} PickedAppend(repos: seq<Repository>, a: seq<int>, b: seq<int>)
    ensures Picked(repos, a + b) == Picked(repos, a) + Picked(repos, b)
    decreases |a|
  {
    if |a| == 0 {
      assert a + b == b;
    } else {
      assert (a + b)[1..] == a[1..] + b;
      PickedAppend(repos, a[1..], b);
    }
  }

  /** Dropping one visited position drops exactly what it contributed. */
  lemma {:induction false} PickedRemove(repos: seq<Repository>, b: seq<int>, i: int)
    requires 0 <= i < |b|
    ensures multiset(Picked(repos, b)) == multiset(Picked(repos, [b[i]])) + multiset(Picked(repos, b[..i] + b[i+1..]))
  {
    var front, back := b[..i], b[i+1..];
    assert b == front + ([b[i]] + back);
    PickedAppend(repos, front, [b[i]] + back);
    PickedAppend(repos, [b[i]], back);
    PickedAppend(repos, front, back);
  }

  lemma {:induction false} PickedPermutation(repos: seq<Repository>, a: seq<int>, b: seq<int>)
    requires multiset(a) == multiset(b)
    ensures multiset(Picked(repos, a)) == multiset(Picked(repos, b))
    decreases |a|
  {
    if |a| == 0 {
      assert |b| == |multiset(b)| == 0;
    } else {
      var x := a[0];
      var i := PermutationStep(a, b);
      var b' := b[..i] + b[i+1..];
      assert a == [x] + a[1..];
      PickedPermutation(repos, a[1..], b');
      PickedRemove(repos, b, i);
      PickedAppend(repos, [x], a[1..]);
    }
  }

  /**
   * Whatever order the map walk takes, the same repositories come out, each
   * as often: the result is fixed up to permutation.
   */
  lemma SelectionOrderIrrelevant(repos: seq<Repository>, sel: set<int>, w1: seq<int>, w2: seq<int>)
    requires IsWalkOf(w1, sel) && IsWalkOf(w2, sel)
    ensures multiset(SelectedRepositories(repos, sel, w1)) == multiset(SelectedRepositories(repos, sel, w2))
  {
    forall x ensures multiset(w1)[x] == multiset(w2)[x] {
      DistinctMultiplicity(w1, x);
      DistinctMultiplicity(w2, x);
    }
    assert multiset(w1) == multiset(w2);
    PickedPermutation(repos, w1, w2);
  }
}
