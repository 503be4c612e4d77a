/**
 * The line-oriented repository selector (internal/ui/selector.go): the user
 * types numbers and ranges such as "1,3,5-7" that toggle 1-based positions,
 * or one of the words "all", "none" and "done".
 */
module TextSelector {
  import opened Results
  import opened Text
  import opened Models
  import opened Selection

  datatype SelectionError =
    | InvalidRangeFormat(part: string)
    | InvalidStart(text: string)
    | InvalidEnd(text: string)
    | InvalidNumber(part: string)
    | OutOfRange(num: int, count: int)

  /** The selection after processing input, and the error that stopped processing, if any. */
  datatype Outcome = Outcome(selection: set<int>, error: Option<SelectionError>)

  /** `toggleSelection`: flip the 0-based position `num - 1` of a list of `n` repositories, or refuse a number outside 1..n. */
  function ToggleSelection(sel: set<int>, n: int, num: int): (r: Outcome)
    ensures (1 <= num <= n) <==> r.error.None?
    ensures r.error.None? ==> r.selection == Toggle(sel, num - 1)
    ensures r.error.Some? ==> r.selection == sel && r.error.value == OutOfRange(num, n)
  {
    var index := num - 1;
    if index < 0 || index >= n then Outcome(sel, Some(OutOfRange(num, n)))
    else Outcome(Toggle(sel, index), None)
  }

  /** The loop `for i := lo; i <= hi; i++` over `toggleSelection`, stopping at the first refused number. */
  function ToggleRange(sel: set<int>, n: int, lo: int, hi: int): (r: Outcome)
    ensures r.error.Some? ==> r.error.value.OutOfRange?
    ensures r.error.Some? && r.error.value.OutOfRange? ==>
              var num := r.error.value.num;
              r.error.value.count == n && lo <= num <= hi && !(1 <= num <= n)
    decreases hi - lo + 1
  {
    if lo > hi then Outcome(sel, None)
    else
      var step := ToggleSelection(sel, n, lo);
      if step.error.Some? then step else ToggleRange(step.selection, n, lo + 1, hi)
  }

  /** A range inside 1..n flips exactly the positions lo-1 .. hi-1. */
  lemma {:induction false} ToggleRangeInside(sel: set<int>, n: int, lo: int, hi: int)
    requires 1 <= lo && hi <= n
    ensures ToggleRange(sel, n, lo, hi) == Outcome(SymDiff(sel, Interval(lo - 1, hi - 1)), None)
    decreases hi - lo + 1
  {
    if lo <= hi {
      ToggleRangeInside(Toggle(sel, lo - 1), n, lo + 1, hi);
      assert SymDiff(Toggle(sel, lo - 1), Interval(lo, hi - 1)) == SymDiff(sel, Interval(lo - 1, hi - 1));
    } else {
      assert SymDiff(sel, Interval(lo - 1, hi - 1)) == sel;
    }
  }

  /**
   * A range running past the end is not applied atomically: positions lo-1
   * through n-1 are flipped before number n+1 is refused.
   */
  lemma {:induction false} ToggleRangeOverrun(sel: set<int>, n: int, lo: int, hi: int)
    requires 1 <= lo <= n + 1 && n < hi
    ensures ToggleRange(sel, n, lo, hi) == Outcome(SymDiff(sel, Interval(lo - 1, n - 1)), Some(OutOfRange(n + 1, n)))
    decreases hi - lo + 1
  {
    if lo <= n {
      ToggleRangeOverrun(Toggle(sel, lo - 1), n, lo + 1, hi);
      assert SymDiff(Toggle(sel, lo - 1), Interval(lo, n - 1)) == SymDiff(sel, Interval(lo - 1, n - 1));
    } else {
      assert SymDiff(sel, Interval(lo - 1, n - 1)) == sel;
    }
  }

  /** A non-empty range starting below 1 is refused at its first number, before anything changes. */
  lemma ToggleRangeBelow(sel: set<int>, n: int, lo: int, hi: int)
    requires lo < 1 && lo <= hi
    ensures ToggleRange(sel, n, lo, hi) == Outcome(sel, Some(OutOfRange(lo, n)))
  {
  }

  /** A successful range toggle stayed inside 1..n. */
  lemma ToggleRangeSucceeded(sel: set<int>, n: int, lo: int, hi: int)
    requires lo <= hi
    requires ToggleRange(sel, n, lo, hi).error.None?
    ensures 1 <= lo && hi <= n
  {
    if hi > n && 1 <= lo {
      if lo <= n + 1 {
        ToggleRangeOverrun(sel, n, lo, hi);
      }
    }
  }

  /** A range toggle that reports no error flipped exactly its positions, all inside 1..n. */
  lemma ToggleRangeOk(sel: set<int>, n: int, lo: int, hi: int)
    requires lo <= hi
    ensures var r := ToggleRange(sel, n, lo, hi);
            r.error.None? ==> 1 <= lo && hi <= n && r.selection == SymDiff(sel, Interval(lo - 1, hi - 1))
  {
    if ToggleRange(sel, n, lo, hi).error.None? {
      ToggleRangeSucceeded(sel, n, lo, hi);
      ToggleRangeInside(sel, n, lo, hi);
    }
  }

  /** The inclusive 1-based range a part denotes: a single number n is the range n..n. */
  function ParsePart(part: string): (r: Result<(int, int), SelectionError>)
    ensures r.Ok? ==> r.value.0 <= r.value.1
    ensures r.Ok? && '-' !in part ==> r.value.0 == r.value.1 && Atoi(part) == Some(r.value.0)
    ensures '-' in part && |Split(part, '-')| != 2 ==> r == Err(InvalidRangeFormat(part))
    ensures '-' !in part ==> (r.Ok? <==> Atoi(part).Some?)
    ensures var bounds := Split(part, '-');
            '-' in part && |bounds| == 2 ==>
              var start, end := Atoi(TrimSpace(bounds[0])), Atoi(TrimSpace(bounds[1]));
              && (r.Ok? <==> start.Some? && end.Some?)
              && (r.Ok? ==> r.value == (Min(start.value, end.value), Max(start.value, end.value)))
  {
    if '-' in part then
      var bounds := Split(part, '-');
      if |bounds| != 2 then Err(InvalidRangeFormat(part))
      else
        var start := Atoi(TrimSpace(bounds[0]));
        var end := Atoi(TrimSpace(bounds[1]));
        if start.None? then Err(InvalidStart(bounds[0]))
        else if end.None? then Err(InvalidEnd(bounds[1]))
        else if start.value > end.value then Ok((end.value, start.value))
        else Ok((start.value, end.value))
    else
      var num := Atoi(part);
      if num.None? then Err(InvalidNumber(part)) else Ok((num.value, num.value))
  }

  /** One comma-separated part: trimmed, parsed, then applied as a toggle range. */
  function ProcessPart(sel: set<int>, n: int, part: string): (r: Outcome)
    ensures r.error.None? ==> ParsePart(TrimSpace(part)).Ok?
    ensures r.error.None? ==>
              var (lo, hi) := ParsePart(TrimSpace(part)).value;
              1 <= lo && hi <= n && r.selection == SymDiff(sel, Interval(lo - 1, hi - 1))
  {
    var trimmed := TrimSpace(part);
    match ParsePart(trimmed)
    case Err(e) => Outcome(sel, Some(e))
    case Ok((lo, hi)) =>
      ToggleRangeOk(sel, n, lo, hi);
      ToggleRange(sel, n, lo, hi)
  }

  /** Parts are applied left to right; the first error stops processing and keeps the toggles already made. */
  function ProcessParts(sel: set<int>, n: int, parts: seq<string>): Outcome
    decreases |parts|
  {
    if |parts| == 0 then Outcome(sel, None)
    else
      var first := ProcessPart(sel, n, parts[0]);
      if first.error.Some? then first else ProcessParts(first.selection, n, parts[1..])
  }

  /** `processSelection`: split the input at commas and process the parts in order. */
  function ProcessSelection(sel: set<int>, n: int, input: string): (r: Outcome)
    ensures InRange(sel, n) ==> InRange(r.selection, n)
  {
    var parts := Split(input, ',');
    assert InRange(sel, n) ==> InRange(ProcessParts(sel, n, parts).selection, n) by {
      if InRange(sel, n) {
        ProcessPartsInRange(sel, n, parts);
      }
    }
    ProcessParts(sel, n, parts)
  }

  /** Input without a comma is a single part. */
  lemma SinglePartSelection(sel: set<int>, n: int, input: string)
    requires ',' !in input
    ensures ProcessSelection(sel, n, input) == ProcessPart(sel, n, input)
  {
    SplitJoin([input], ',');
    assert Split(input, ',') == [input];
    var first := ProcessPart(sel, n, input);
    assert [input][1..] == [];
    if first.error.None? {
      assert ProcessParts(first.selection, n, []) == Outcome(first.selection, None);
    }
  }

  /** A part that succeeded once succeeds again from the new selection and restores the old one. */
  lemma ProcessPartTwice(sel: set<int>, n: int, part: string)
    ensures ProcessPart(sel, n, part).error.None? ==>
              ProcessPart(ProcessPart(sel, n, part).selection, n, part) == Outcome(sel, None)
  {
    if ProcessPart(sel, n, part).error.Some? {
      return;
    }
    var (lo, hi) := ParsePart(TrimSpace(part)).value;
    var once := ProcessPart(sel, n, part).selection;
    ToggleRangeInside(once, n, lo, hi);
    SymDiffTwice(sel, Interval(lo - 1, hi - 1));
  }

  /** Entering the same valid part twice, as in "3,3" or "2-4,2-4", leaves the selection as it was. */
  lemma {:induction false} RepeatedPartCancels(sel: set<int>, n: int, part: string)
    requires ',' !in part
    requires ProcessPart(sel, n, part).error.None?
    ensures ProcessSelection(sel, n, part + "," + part) == Outcome(sel, None)
  {
    SplitJoin([part, part], ',');
    assert JoinWith([part, part], ',') == part + "," + part;
    ProcessPartTwice(sel, n, part);
    var once := ProcessPart(sel, n, part).selection;
    assert ProcessParts(once, n, [part]) == ProcessPart(once, n, part);
  }

  /**
   * Parts are applied one after another and not atomically: whatever the
   * second part does, including failing, it starts from the selection the
   * first part produced, so an error keeps the earlier toggles.
   */
  lemma {:induction false} EarlierPartsKept(sel: set<int>, n: int, first: string, second: string)
    requires ',' !in first && ',' !in second
    requires ProcessPart(sel, n, first).error.None?
    ensures ProcessSelection(sel, n, first + "," + second) == ProcessPart(ProcessPart(sel, n, first).selection, n, second)
  {
    SplitJoin([first, second], ',');
    assert JoinWith([first, second], ',') == first + "," + second;
    var once := ProcessPart(sel, n, first).selection;
    assert ProcessParts(once, n, [second]) == ProcessPart(once, n, second);
  }

  /** Digits only: no sign, no separator, no white space. */
  lemma DigitsAreTrimmed(s: string)
    requires |s| > 0 && AllDigits(s)
    ensures TrimSpace(s) == s && '-' !in s && ',' !in s
  {
    TrimSpaceOfTrimmed(s);
  }

  /** A range typed backwards ("5-1") denotes the same positions as the forward one ("1-5"). */
  lemma ReversedRangeSame(sel: set<int>, n: int, a: nat, b: nat)
    requires a <= MaxInt64 && b <= MaxInt64
    ensures ProcessPart(sel, n, NatToString(a) + "-" + NatToString(b)) == ProcessPart(sel, n, NatToString(b) + "-" + NatToString(a))
  {
    var x, y := NatToString(a), NatToString(b);
    DigitsAreTrimmed(x);
    DigitsAreTrimmed(y);
    AtoiNatToString(a);
    AtoiNatToString(b);
    ParseRangeOf(x, y);
    ParseRangeOf(y, x);
  }

  /** Two numbers written in digits and joined by '-' need no trimming and denote the ordered range between them. */
  lemma {:induction false} ParseRangeOf(x: string, y: string)
    requires |x| > 0 && AllDigits(x) && |y| > 0 && AllDigits(y)
    requires Atoi(x).Some? && Atoi(y).Some?
    ensures TrimSpace(x + "-" + y) == x + "-" + y
    ensures ParsePart(x + "-" + y) == Ok((Min(Atoi(x).value, Atoi(y).value), Max(Atoi(x).value, Atoi(y).value)))
  {
    var part := x + "-" + y;
    DigitsAreTrimmed(x);
    DigitsAreTrimmed(y);
    assert part[0] == x[0] && part[|part| - 1] == y[|y| - 1];
    TrimSpaceOfTrimmed(part);
    assert part[|x|] == '-';
    SplitJoin([x, y], '-');
    assert JoinWith([x, y], '-') == part;
  }

  function Min(a: int, b: int): int { if a <= b then a else b }
  function Max(a: int, b: int): int { if a <= b then b else a }

  /** A decimal number within `int` is the one-position range at that number. */
  lemma ParseNumberOf(a: nat)
    requires a <= MaxInt64
    ensures ParsePart(NatToString(a)) == Ok((a, a))
  {
    AtoiNatToString(a);
    DigitsAreTrimmed(NatToString(a));
  }

  /** Typing the number of a listed repository flips exactly that repository. */
  lemma NumberPartToggles(sel: set<int>, n: int, a: nat)
    requires 1 <= a <= n && a <= MaxInt64
    ensures ProcessPart(sel, n, NatToString(a)) == Outcome(Toggle(sel, a - 1), None)
  {
    ParseNumberOf(a);
    DigitsAreTrimmed(NatToString(a));
    ToggleRangeInside(sel, n, a, a);
    assert SymDiff(sel, Interval(a - 1, a - 1)) == Toggle(sel, a - 1);
  }

  /** "1--3" has three '-'-separated pieces and is refused as a malformed range. */
  lemma DoubleDashRejected()
    ensures ParsePart("1--3") == Err(InvalidRangeFormat("1--3"))
  {
    assert Occurrences('-', "1--3") == 2 by {
      assert "1--3"[1..] == "--3" && "--3"[1..] == "-3" && "-3"[1..] == "3" && "3"[1..] == "";
    }
    assert '-' in "1--3" by { assert "1--3"[1] == '-'; }
  }

  /** "-3" has an empty start and is refused; it is not read as a negative number. */
  lemma MissingStartRejected()
    ensures ParsePart("-3") == Err(InvalidStart(""))
  {
    assert "-3"[1..] == "3" && "3"[1..] == "";
    assert Split("", '-') == [""];
    assert "3"[0] != '-';
    assert ["3"[0]] + "" == "3";
    assert Split("3", '-') == [["3"[0]] + Split("3"[1..], '-')[0]] + Split("3"[1..], '-')[1..];
    assert Split("3", '-') == ["3"];
    assert Split("-3", '-') == ["", "3"];
    assert '-' in "-3" by { assert "-3"[0] == '-'; }
  }

  /** `selectAll` makes the selection exactly the positions of the list. */
  function SelectAll(n: int): (r: set<int>)
    ensures forall i :: i in r <==> 0 <= i < n
  {
    AllIndices(n)
  }

  /** `selectNone` clears the selection. */
  function SelectNone(): (r: set<int>)
    ensures |r| == 0
  {
    {}
  }

  /** A toggle range only ever flips positions of the list. */
  lemma {:induction false} ToggleRangeInRange(sel: set<int>, n: int, lo: int, hi: int)
    requires InRange(sel, n)
    ensures InRange(ToggleRange(sel, n, lo, hi).selection, n)
    decreases hi - lo + 1
  {
    if lo <= hi {
      var step := ToggleSelection(sel, n, lo);
      if step.error.None? {
        ToggleRangeInRange(step.selection, n, lo + 1, hi);
      }
    }
  }

  /** Processing parts, successful or not, keeps the selection on the list. */
  lemma {:induction false} ProcessPartsInRange(sel: set<int>, n: int, parts: seq<string>)
    requires InRange(sel, n)
    ensures InRange(ProcessParts(sel, n, parts).selection, n)
    decreases |parts|
  {
    if |parts| > 0 {
      var trimmed := TrimSpace(parts[0]);
      if ParsePart(trimmed).Ok? {
        var (lo, hi) := ParsePart(trimmed).value;
        ToggleRangeInRange(sel, n, lo, hi);
      }
      var first := ProcessPart(sel, n, parts[0]);
      if first.error.None? {
        ProcessPartsInRange(first.selection, n, parts[1..]);
      }
    }
  }

  /** A line as the loop understands it once lower-cased and trimmed: one of the three words, or a list of parts. */
  datatype Command = Done | All | Clear | Parts(input: string)

  function ReadCommand(line: string): Command {
    var input := TrimSpace(ToLower(line));
    if input == "done" then Done
    else if input == "all" then All
    else if input == "none" then Clear
    else Parts(input)
  }

  predicate IsDone(line: string) {
    ReadCommand(line).Done?
  }

  /** The selection a command other than "done" leaves behind ("done" changes nothing). */
  function Apply(sel: set<int>, n: int, c: Command): set<int> {
    match c
    case Done => sel
    case All => SelectAll(n)
    case Clear => SelectNone()
    case Parts(input) => ProcessSelection(sel, n, input).selection
  }

  /** What one line typed at the prompt does. */
  datatype Step = Finish | Continue(selection: set<int>, error: Option<SelectionError>)

  /** The dispatch inside `Show`'s loop, after the line has been lower-cased and trimmed. */
  function ShowStep(sel: set<int>, n: int, line: string): (r: Step)
    ensures r.Finish? <==> TrimSpace(ToLower(line)) == "done"
    ensures TrimSpace(ToLower(line)) == "all" ==> r == Continue(AllIndices(n), None)
    ensures TrimSpace(ToLower(line)) == "none" ==> r == Continue({}, None)
    ensures var input := TrimSpace(ToLower(line));
            input != "done" && input != "all" && input != "none" ==>
              r == Continue(ProcessSelection(sel, n, input).selection, ProcessSelection(sel, n, input).error)
  {
    match ReadCommand(line)
    case Done => Finish
    case Parts(input) =>
      var o := ProcessSelection(sel, n, input);
      Continue(o.selection, o.error)
    case c => Continue(Apply(sel, n, c), None)
  }

  /** The loop's one-line dispatch is reading the command, then applying it. */
  lemma ShowStepApplies(sel: set<int>, n: int, line: string)
    ensures ShowStep(sel, n, line).Finish? <==> IsDone(line)
    ensures ShowStep(sel, n, line).Continue? ==> ShowStep(sel, n, line).selection == Apply(sel, n, ReadCommand(line))
  {
  }

  /** A selection on the list stays on the list after any command. */
  lemma ApplyInRange(sel: set<int>, n: int, c: Command)
    requires InRange(sel, n)
    ensures InRange(Apply(sel, n, c), n)
  {
    if c.Parts? {
      ProcessPartsInRange(sel, n, Split(c.input, ','));
    }
  }

  /** The selection reached at the first `Done`, or `None` when there is none. */
  function RunCommands(sel: set<int>, n: int, cmds: seq<Command>): Option<set<int>>
    decreases |cmds|
  {
    if |cmds| == 0 then None
    else if cmds[0].Done? then Some(sel)
    else RunCommands(Apply(sel, n, cmds[0]), n, cmds[1..])
  }

  /** The selection commands build when applied one after another. */
  function Typed(sel: set<int>, n: int, cmds: seq<Command>): set<int>
    decreases |cmds|
  {
    if |cmds| == 0 then sel else Typed(Apply(sel, n, cmds[0]), n, cmds[1..])
  }

  /** Typing `a` then `b` is typing `a + b`. */
  lemma {:induction false} TypedAppend(sel: set<int>, n: int, a: seq<Command>, b: seq<Command>)
    ensures Typed(sel, n, a + b) == Typed(Typed(sel, n, a), n, b)
    decreases |a|
  {
    if |a| == 0 {
      assert a + b == b;
    } else {
      assert (a + b)[0] == a[0];
      assert (a + b)[1..] == a[1..] + b;
      TypedAppend(Apply(sel, n, a[0]), n, a[1..], b);
    }
  }

  lemma {:induction false} RunCommandsNone(sel: set<int>, n: int, cmds: seq<Command>)
    ensures RunCommands(sel, n, cmds).None? <==> forall k :: 0 <= k < |cmds| ==> !cmds[k].Done?
    decreases |cmds|
  {
    if |cmds| > 0 && !cmds[0].Done? {
      RunCommandsNone(Apply(sel, n, cmds[0]), n, cmds[1..]);
      assert forall k :: 1 <= k < |cmds| ==> cmds[k] == cmds[1..][k - 1];
    }
  }

  lemma {:induction false} RunCommandsInRange(sel: set<int>, n: int, cmds: seq<Command>)
    requires InRange(sel, n)
    ensures RunCommands(sel, n, cmds).Some? ==> InRange(RunCommands(sel, n, cmds).value, n)
    decreases |cmds|
  {
    if |cmds| > 0 && !cmds[0].Done? {
      ApplyInRange(sel, n, cmds[0]);
      RunCommandsInRange(Apply(sel, n, cmds[0]), n, cmds[1..]);
    }
  }

  lemma {:induction false} RunCommandsFirstDone(sel: set<int>, n: int, cmds: seq<Command>, k: int)
    requires 0 <= k < |cmds| && cmds[k].Done?
    requires forall j :: 0 <= j < k ==> !cmds[j].Done?
    ensures RunCommands(sel, n, cmds) == Some(Typed(sel, n, cmds[..k]))
    ensures RunCommands(sel, n, cmds) == RunCommands(sel, n, cmds[..k + 1])
    decreases k
  {
    if k == 0 {
      assert cmds[..1][0] == cmds[0];
    } else {
      var next, tail := Apply(sel, n, cmds[0]), cmds[1..];
      assert !cmds[0].Done?;
      assert RunCommands(sel, n, cmds) == RunCommands(next, n, tail);
      forall j | 0 <= j < k - 1
        ensures !tail[j].Done?
      {
        assert tail[j] == cmds[j + 1];
      }
      assert tail[k - 1] == cmds[k];
      RunCommandsFirstDone(next, n, tail, k - 1);
      var before := cmds[..k];
      assert before[0] == cmds[0] && before[1..] == tail[..k - 1];
      assert Typed(sel, n, before) == Typed(next, n, tail[..k - 1]);
      var upTo := cmds[..k + 1];
      assert upTo[0] == cmds[0] && upTo[1..] == tail[..k];
      assert RunCommands(sel, n, upTo) == RunCommands(next, n, tail[..k]);
    }
  }

  /** Each line read as a command. */
  function ReadAll(lines: seq<string>): (cmds: seq<Command>)
    ensures |cmds| == |lines|
    ensures forall k :: 0 <= k < |lines| ==> cmds[k] == ReadCommand(lines[k])
  {
    seq(|lines|, k requires 0 <= k < |lines| => ReadCommand(lines[k]))
  }

  /** The selection reached after the lines up to and including "done", or `None` when no "done" was typed. */
  function RunLines(sel: set<int>, n: int, lines: seq<string>): (r: Option<set<int>>)
    ensures InRange(sel, n) && r.Some? ==> InRange(r.value, n)
  {
    assert InRange(sel, n) ==> var r := RunCommands(sel, n, ReadAll(lines)); r.Some? ==> InRange(r.value, n) by {
      if InRange(sel, n) {
        RunCommandsInRange(sel, n, ReadAll(lines));
      }
    }
    RunCommands(sel, n, ReadAll(lines))
  }

  /** The loop keeps prompting exactly when no line reads "done". */
  lemma RunLinesNone(sel: set<int>, n: int, lines: seq<string>)
    ensures RunLines(sel, n, lines).None? <==> forall k :: 0 <= k < |lines| ==> !IsDone(lines[k])
  {
    RunCommandsNone(sel, n, ReadAll(lines));
  }

  /**
   * The loop ends at the first "done": the result is the selection the lines
   * before it built, and whatever follows the "done" is never read.
   */
  lemma RunLinesFirstDone(sel: set<int>, n: int, lines: seq<string>, k: int)
    requires 0 <= k < |lines| && IsDone(lines[k])
    requires forall j :: 0 <= j < k ==> !IsDone(lines[j])
    ensures RunLines(sel, n, lines) == Some(Typed(sel, n, ReadAll(lines[..k])))
    ensures RunLines(sel, n, lines) == RunLines(sel, n, lines[..k + 1])
  {
    var cmds := ReadAll(lines);
    forall j | 0 <= j < k
      ensures !cmds[j].Done?
    {
      assert cmds[j] == ReadCommand(lines[j]);
    }
    assert cmds[k] == ReadCommand(lines[k]);
    RunCommandsFirstDone(sel, n, cmds, k);
    ReadAllPrefix(lines, k);
    ReadAllPrefix(lines, k + 1);
  }

  /** Reading a prefix of the lines gives the same prefix of the commands. */
  lemma ReadAllPrefix(lines: seq<string>, m: int)
    requires 0 <= m <= |lines|
    ensures ReadAll(lines[..m]) == ReadAll(lines)[..m]
  {
    var a, b := ReadAll(lines[..m]), ReadAll(lines)[..m];
    forall i | 0 <= i < m
      ensures a[i] == b[i]
    {
      assert lines[..m][i] == lines[i];
    }
  }

  /** Result of `Show`: refused for an empty list, the chosen repositories, or still prompting when the input ran out. */
  datatype ShowOutcome = NoRepositories | Chosen(repos: seq<Repository>) | StillPrompting

  /**
   * `Show`: refuse an empty list, start with nothing selected, process lines
   * until "done", then collect the selected repositories in the order `walk`
   * visits the selection (Go map order).
   */
  function Show(repos: seq<Repository>, lines: seq<string>, walk: set<int> -> seq<int>): (r: ShowOutcome)
    ensures |repos| == 0 <==> r.NoRepositories?
    ensures r.StillPrompting? <==> |repos| > 0 && RunLines({}, |repos|, lines).None?
    ensures r.Chosen? ==> forall x :: x in r.repos ==> x in repos
    ensures r.Chosen? ==>
              var s := RunLines({}, |repos|, lines).value;
              IsWalkOf(walk(s), s) ==>
                && InRange(s, |repos|)
                && (forall i :: i in s ==> repos[i] in r.repos)
                && (forall x :: x in r.repos ==> exists i :: i in s && repos[i] == x)
                && |r.repos| == |s|
  {
    if |repos| == 0 then NoRepositories
    else match RunLines({}, |repos|, lines)
      case None => StillPrompting
      case Some(sel) =>
        PickedContents(repos, walk(sel));
        WalkCollectsSelection(repos, sel, walk(sel));
        var chosen := Picked(repos, walk(sel));
        assert forall x :: x in chosen ==> x in repos;
        Chosen(chosen)
  }

  /** `Show` keeps prompting, for a non-empty list, exactly when no line reads "done". */
  lemma ShowWaitsForDone(repos: seq<Repository>, lines: seq<string>, walk: set<int> -> seq<int>)
    ensures Show(repos, lines, walk).StillPrompting? <==> |repos| > 0 && forall k :: 0 <= k < |lines| ==> !IsDone(lines[k])
  {
    RunLinesNone({}, |repos|, lines);
  }
}
