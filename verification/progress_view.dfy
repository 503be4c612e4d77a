/**
 * The full-screen clone progress view (internal/ui/bubbletea_progress.go):
 * counters and result lists fed by messages, and the bounded "recent"
 * windows the view draws.
 */
module ProgressView {
  import opened Results
  import opened Seqs
  import opened Text
  import opened Models
  import opened Tea

  /** The messages the view reacts to. */
  datatype Msg =
    | Key(key: string)
    | Tick
    | CurrentRepo(name: string)
    | CloneUpdate(result: CloneResult)
    | Done
    | OtherMsg

  datatype ProgressModel = ProgressModel(
    progress: CloneProgress,
    completed: seq<CloneResult>,
    failed: seq<CloneResult>,
    currentRepo: string,
    done: bool)

  /** The counters agree with the lists, and each list holds only results of its own kind. */
  predicate Valid(m: ProgressModel) {
    && m.progress.completed == |m.completed|
    && m.progress.failed == |m.failed|
    && (forall i :: 0 <= i < |m.completed| ==> m.completed[i].success)
    && (forall i :: 0 <= i < |m.failed| ==> !m.failed[i].success)
  }

  /** `NewCloneProgressModel`. */
  function NewProgressModel(total: int): (m: ProgressModel)
    ensures Valid(m)
    ensures m.progress.total == total && m.progress.completed == 0 && m.progress.failed == 0
    ensures m.completed == [] && m.failed == []
    ensures m.currentRepo == "" && m.progress.current == "" && !m.done
  {
    ProgressModel(CloneProgress(total, 0, 0, ""), [], [], "", false)
  }

  predicate IsQuitKey(msg: Msg) {
    msg.Key? && (msg.key == "q" || msg.key == "ctrl+c")
  }

  /** `Update`. */
  function Update(m: ProgressModel, msg: Msg): (r: (ProgressModel, Cmd))
    requires Valid(m)
    ensures Valid(r.0)
    ensures r.0.progress.total == m.progress.total
    ensures m.done ==> r.0.done
    ensures r.0.done <==> m.done || msg.Done?
    ensures r.1 == QuitCmd <==> IsQuitKey(msg) && m.done
    ensures r.1 == TickCmd <==> msg.Tick? && !m.done
    ensures msg.CloneUpdate? && msg.result.success ==>
              r.0 == m.(completed := m.completed + [msg.result], progress := m.progress.(completed := m.progress.completed + 1))
    ensures msg.CloneUpdate? && !msg.result.success ==>
              r.0 == m.(failed := m.failed + [msg.result], progress := m.progress.(failed := m.progress.failed + 1))
    ensures msg.CurrentRepo? ==> r.0 == m.(currentRepo := msg.name, progress := m.progress.(current := msg.name))
    ensures !msg.CloneUpdate? && !msg.CurrentRepo? && !msg.Done? ==> r.0 == m
  {
    match msg
    case Key(k) => (m, if (k == "q" || k == "ctrl+c") && m.done then QuitCmd else NoCmd)
    case Tick => (m, if !m.done then TickCmd else NoCmd)
    case CurrentRepo(name) => (m.(currentRepo := name, progress := m.progress.(current := name)), NoCmd)
    case CloneUpdate(result) =>
      if result.success then
        (m.(completed := m.completed + [result], progress := m.progress.(completed := m.progress.completed + 1)), NoCmd)
      else
        (m.(failed := m.failed + [result], progress := m.progress.(failed := m.progress.failed + 1)), NoCmd)
    case Done => (m.(done := true), NoCmd)
    case OtherMsg => (m, NoCmd)
  }

  /** The runtime loop: feed messages until an update asks to quit or the messages run out. */
  function Run(m: ProgressModel, msgs: seq<Msg>): (r: ProgressModel)
    requires Valid(m)
    ensures Valid(r) && r.progress.total == m.progress.total
    ensures m.done ==> r.done
    decreases |msgs|
  {
    if |msgs| == 0 then m
    else
      var (next, cmd) := Update(m, msgs[0]);
      if cmd == QuitCmd then next else Run(next, msgs[1..])
  }

  /** The results carried by the clone-update messages, in arrival order. */
  function Arrived(msgs: seq<Msg>): seq<CloneResult>
    decreases |msgs|
  {
    if |msgs| == 0 then []
    else (if msgs[0].CloneUpdate? then [msgs[0].result] else []) + Arrived(msgs[1..])
  }

  /** One message that is not a quit key appends its result, if any, to the matching list. */
  lemma StepCollects(m: ProgressModel, msg: Msg)
    requires Valid(m) && !IsQuitKey(msg)
    ensures var r := Update(m, msg);
            && r.1 != QuitCmd
            && r.0.completed == m.completed + Keep(Arrived([msg]), IsSuccess)
            && r.0.failed == m.failed + Keep(Arrived([msg]), IsFailure)
  {
    assert [msg][1..] == [];
    if msg.CloneUpdate? {
      assert Arrived([msg]) == [msg.result];
    } else {
      assert Arrived([msg]) == [];
    }
  }

  /** A message that does not quit hands the rest of the messages to the updated model. */
  lemma RunStep(m: ProgressModel, msgs: seq<Msg>)
    requires Valid(m) && |msgs| > 0 && Update(m, msgs[0]).1 != QuitCmd
    ensures Run(m, msgs) == Run(Update(m, msgs[0]).0, msgs[1..])
  {
  }

  /** The arrived results of a message sequence: those of its first message, then those of the rest. */
  lemma ArrivedCons(msgs: seq<Msg>)
    requires |msgs| > 0
    ensures Arrived(msgs) == Arrived([msgs[0]]) + Arrived(msgs[1..])
  {
    assert [msgs[0]][1..] == [];
  }

  /** Without a quit key the loop reads every message, appending the successes in arrival order. */
  lemma {:induction false} RunCollectsCompleted(m: ProgressModel, msgs: seq<Msg>)
    requires Valid(m)
    requires forall i :: 0 <= i < |msgs| ==> !IsQuitKey(msgs[i])
    ensures Run(m, msgs).completed == m.completed + Keep(Arrived(msgs), IsSuccess)
    decreases |msgs|
  {
    if |msgs| > 0 {
      var next := Update(m, msgs[0]).0;
      var rest := msgs[1..];
      var head := Arrived([msgs[0]]);
      StepCollects(m, msgs[0]);
      RunStep(m, msgs);
      NoQuitKeyTail(msgs);
      RunCollectsCompleted(next, rest);
      ArrivedCons(msgs);
      KeepAppend(head, Arrived(rest), IsSuccess);
    }
  }

  /** Without a quit key the loop reads every message, appending the failures in arrival order. */
  lemma {:induction false} RunCollectsFailed(m: ProgressModel, msgs: seq<Msg>)
    requires Valid(m)
    requires forall i :: 0 <= i < |msgs| ==> !IsQuitKey(msgs[i])
    ensures Run(m, msgs).failed == m.failed + Keep(Arrived(msgs), IsFailure)
    decreases |msgs|
  {
    if |msgs| > 0 {
      var next := Update(m, msgs[0]).0;
      var rest := msgs[1..];
      var head := Arrived([msgs[0]]);
      StepCollects(m, msgs[0]);
      RunStep(m, msgs);
      NoQuitKeyTail(msgs);
      RunCollectsFailed(next, rest);
      ArrivedCons(msgs);
      KeepAppend(head, Arrived(rest), IsFailure);
    }
  }

  lemma NoQuitKeyTail(msgs: seq<Msg>)
    requires |msgs| > 0 && forall i :: 0 <= i < |msgs| ==> !IsQuitKey(msgs[i])
    ensures forall i :: 0 <= i < |msgs[1..]| ==> !IsQuitKey(msgs[1..][i])
  {
    forall i | 0 <= i < |msgs[1..]| ensures !IsQuitKey(msgs[1..][i]) {
      assert msgs[1..][i] == msgs[i + 1];
    }
  }

  /**
   * Without a quit key the loop reads every message: successes and failures
   * are appended in arrival order and counted.
   */
  lemma RunCollects(m: ProgressModel, msgs: seq<Msg>)
    requires Valid(m)
    requires forall i :: 0 <= i < |msgs| ==> !IsQuitKey(msgs[i])
    ensures Run(m, msgs).completed == m.completed + Keep(Arrived(msgs), IsSuccess)
    ensures Run(m, msgs).failed == m.failed + Keep(Arrived(msgs), IsFailure)
    ensures Run(m, msgs).progress.completed == m.progress.completed + CountIf(Arrived(msgs), IsSuccess)
    ensures Run(m, msgs).progress.failed == m.progress.failed + CountIf(Arrived(msgs), IsFailure)
  {
    RunCollectsCompleted(m, msgs);
    RunCollectsFailed(m, msgs);
    KeepLength(Arrived(msgs), IsSuccess);
    KeepLength(Arrived(msgs), IsFailure);
  }

  /** Every clone update is counted exactly once, as a success or as a failure. */
  lemma CountsCoverUpdates(total: int, msgs: seq<Msg>)
    requires forall i :: 0 <= i < |msgs| ==> !IsQuitKey(msgs[i])
    ensures var r := Run(NewProgressModel(total), msgs);
            r.progress.completed + r.progress.failed == |Arrived(msgs)|
  {
    var rs := Arrived(msgs);
    RunCollects(NewProgressModel(total), msgs);
    CountIfSplit(rs, IsSuccess, IsFailure);
  }

  /** The final counters depend only on which results arrived, not on their order. */
  lemma CountsIgnoreOrder(total: int, a: seq<Msg>, b: seq<Msg>)
    requires forall i :: 0 <= i < |a| ==> !IsQuitKey(a[i])
    requires forall i :: 0 <= i < |b| ==> !IsQuitKey(b[i])
    requires multiset(Arrived(a)) == multiset(Arrived(b))
    ensures Run(NewProgressModel(total), a).progress == Run(NewProgressModel(total), b).progress
                                                          .(current := Run(NewProgressModel(total), a).progress.current)
  {
    RunCollects(NewProgressModel(total), a);
    RunCollects(NewProgressModel(total), b);
    CountIfPermutation(Arrived(a), Arrived(b), IsSuccess);
    CountIfPermutation(Arrived(a), Arrived(b), IsFailure);
  }

  /** The last `n` elements of `s`, or all of them when there are fewer. */
  function LastN<T>(s: seq<T>, n: nat): (r: seq<T>)
    ensures |r| == if |s| < n then |s| else n
    ensures r == s[|s| - |r|..]
  {
    var start := |s| - n;
    s[(if start < 0 then 0 else start)..]
  }

  /** The "Recent completions" rows: the last three successes, oldest first. */
  function RecentCompletions(m: ProgressModel): (r: seq<CloneResult>)
    ensures |r| == if |m.completed| < 3 then |m.completed| else 3
    ensures r == m.completed[|m.completed| - |r|..]
  {
    LastN(m.completed, 3)
  }

  /** The "Recent failures" rows: the last two failures, oldest first. */
  function RecentFailures(m: ProgressModel): (r: seq<CloneResult>)
    ensures |r| == if |m.failed| < 2 then |m.failed| else 2
    ensures r == m.failed[|m.failed| - |r|..]
  {
    LastN(m.failed, 2)
  }

  /** A new success becomes the last recent completion and pushes out the oldest once three are shown. */
  lemma RecentCompletionsSlide(m: ProgressModel, result: CloneResult)
    requires Valid(m) && result.success
    ensures RecentCompletions(Update(m, CloneUpdate(result)).0) == LastN(RecentCompletions(m) + [result], 3)
  {
    var after := Update(m, CloneUpdate(result)).0;
    var a := RecentCompletions(after);
    var b := LastN(RecentCompletions(m) + [result], 3);
    assert |a| == |b|;
    forall i | 0 <= i < |a|
      ensures a[i] == b[i]
    {
    }
  }

  /** A failure row, "  ❌ name: error", cut to 77 bytes plus "..." when longer than 80 bytes. */
  function FailureLine(result: CloneResult): (line: string)
    requires result.Valid() && !result.success
    ensures |line| <= 80
    ensures var full := "  " + CrossMark + " " + result.repository.name + ": " + result.error.value;
            (|full| <= 80 ==> line == full)
            && (|full| > 80 ==> |line| == 80 && line[..77] == full[..77] && line[77..] == "...")
  {
    Truncate("  " + CrossMark + " " + result.repository.name + ": " + result.error.value, 80, 77)
  }

  /** A failure whose name and message fit in 72 bytes is shown in full. */
  lemma ShortFailureShownWhole(result: CloneResult)
    requires result.Valid() && !result.success
    requires |result.repository.name| + |result.error.value| <= 72
    ensures |FailureLine(result)| == 8 + |result.repository.name| + |result.error.value|
    ensures FailureLine(result)[6..6 + |result.repository.name|] == result.repository.name
  {
    var full := "  " + CrossMark + " " + result.repository.name + ": " + result.error.value;
    assert full[6..6 + |result.repository.name|] == result.repository.name;
  }
}
