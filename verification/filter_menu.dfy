/**
 * The full-screen filter menu (internal/ui/bubbletea_filter.go): three fixed
 * options, a cursor over them, and a choice that ends the program.
 */
module FilterMenu {
  import opened Results
  import opened Models
  import opened Tea

  /** One row of the menu: the filter it chooses and how many repositories it would keep. */
  datatype FilterOption = FilterOption(filter: FilterType, name: string, description: string, count: int)

  /** The messages the menu reacts to: keys, and anything else the runtime sends. */
  datatype Msg = Key(key: string) | OtherMsg

  datatype FilterSelector = FilterSelector(options: seq<FilterOption>, cursor: int, selected: FilterType, done: bool)

  /** The three rows, in menu order, counted from the statistics. */
  function Options(stats: RepositoryStats): (r: seq<FilterOption>)
    ensures |r| == 3
    ensures r[0].filter == FilterAll && r[0].count == stats.total
    ensures r[1].filter == FilterNonForks && r[1].count == stats.nonForks
    ensures r[2].filter == FilterForksOnly && r[2].count == stats.forks
  {
    [ FilterOption(FilterAll, "All Repositories", "Include both original and forked repositories", stats.total),
      FilterOption(FilterNonForks, "Original Repositories Only", "Exclude forked repositories", stats.nonForks),
      FilterOption(FilterForksOnly, "Forked Repositories Only", "Include only forked repositories", stats.forks) ]
  }

  /** Row `i` chooses filter `i`, the cursor is on a row, and the chosen filter is a known one. */
  predicate Valid(m: FilterSelector) {
    && |m.options| == 3
    && (forall i :: 0 <= i < 3 ==> m.options[i].filter == i)
    && 0 <= m.cursor < |m.options|
    && IsKnownFilter(m.selected)
  }

  /** `NewFilterSelectorModel`: cursor on the first row, "all" preselected, not done. */
  function NewFilterSelector(stats: RepositoryStats): (m: FilterSelector)
    ensures Valid(m)
    ensures m.options == Options(stats)
    ensures m.cursor == 0 && m.selected == FilterAll && !m.done
  {
    FilterSelector(Options(stats), 0, FilterAll, false)
  }

  /** `Update`: move within the three rows, choose the row under the cursor, or quit without choosing. */
  function Update(m: FilterSelector, msg: Msg): (r: (FilterSelector, Cmd))
    requires Valid(m)
    ensures Valid(r.0) && r.0.options == m.options
    ensures r.1 != TickCmd
    ensures r.1 == QuitCmd <==> msg.Key? && msg.key in {"q", "ctrl+c", "enter", " "}
    ensures r.1 == QuitCmd ==> r.0.done
    ensures msg.Key? && msg.key in {"q", "ctrl+c"} ==> r.0 == m.(done := true)
    ensures msg.Key? && msg.key in {"enter", " "} ==> r.0 == m.(selected := m.cursor, done := true)
    ensures msg.Key? && msg.key in {"up", "k"} ==> r.0 == m.(cursor := if m.cursor == 0 then 0 else m.cursor - 1)
    ensures msg.Key? && msg.key in {"down", "j"} ==> r.0 == m.(cursor := if m.cursor == 2 then 2 else m.cursor + 1)
    ensures r.1 == NoCmd && !(msg.Key? && msg.key in {"up", "k", "down", "j"}) ==> r.0 == m
  {
    match msg
    case OtherMsg => (m, NoCmd)
    case Key(k) =>
      if k == "q" || k == "ctrl+c" then (m.(done := true), QuitCmd)
      else if k == "up" || k == "k" then (if m.cursor > 0 then m.(cursor := m.cursor - 1) else m, NoCmd)
      else if k == "down" || k == "j" then (if m.cursor < |m.options| - 1 then m.(cursor := m.cursor + 1) else m, NoCmd)
      else if k == "enter" || k == " " then (m.(selected := m.options[m.cursor].filter, done := true), QuitCmd)
      else (m, NoCmd)
  }

  /** The runtime loop: feed messages until an update asks to quit or the messages run out. */
  function Run(m: FilterSelector, msgs: seq<Msg>): (r: FilterSelector)
    requires Valid(m)
    ensures Valid(r) && r.options == m.options
    ensures !r.done ==> r.selected == m.selected && !m.done
    decreases |msgs|
  {
    if |msgs| == 0 then m
    else
      var (next, cmd) := Update(m, msgs[0]);
      if cmd == QuitCmd then next else Run(next, msgs[1..])
  }

  /**
   * `ShowFilterSelector`: a runtime failure or a run that ended without a
   * choice yields "all" together with an error; otherwise the chosen filter.
   */
  function ShowFilterSelector(stats: RepositoryStats, programError: Option<string>, msgs: seq<Msg>)
    : (r: (FilterType, Option<string>))
    ensures IsKnownFilter(r.0)
    ensures programError.Some? ==> r == (FilterAll, Some("failed to run filter selector: " + programError.value))
    ensures r.1.None? <==> programError.None? && Run(NewFilterSelector(stats), msgs).done
    ensures r.1.Some? ==> r.0 == FilterAll
    ensures r.1.None? ==> r.0 == Run(NewFilterSelector(stats), msgs).selected
  {
    if programError.Some? then (FilterAll, Some("failed to run filter selector: " + programError.value))
    else
      var final := Run(NewFilterSelector(stats), msgs);
      if !final.done then (FilterAll, Some("selection cancelled by user"))
      else (final.selected, None)
  }

  /** Quitting before choosing returns "all" and no error. */
  lemma {:induction false} QuitChoosesAll(stats: RepositoryStats, key: string, rest: seq<Msg>)
    requires key == "q" || key == "ctrl+c"
    ensures ShowFilterSelector(stats, None, [Key(key)] + rest) == (FilterAll, None)
  {
    var msgs := [Key(key)] + rest;
    assert msgs[0] == Key(key);
  }

  /** Moving down `k` rows and pressing enter chooses filter `k` (the rows are in constant order). */
  lemma DownThenEnterChooses(stats: RepositoryStats, k: nat)
    requires k <= 2
    ensures var msgs := seq(k, _ => Key("down")) + [Key("enter")];
            ShowFilterSelector(stats, None, msgs) == (k, None)
  {
    var m := NewFilterSelector(stats);
    var msgs := seq(k, _ => Key("down")) + [Key("enter")];
    DownsMoveCursor(m, k, msgs);
  }

  /** From the top row, `k` presses of "down" followed by the rest of the messages behave like starting from row `k`. */
  lemma {:induction false} DownsMoveCursor(m: FilterSelector, k: nat, msgs: seq<Msg>)
    requires Valid(m) && !m.done && m.cursor + k <= 2
    requires |msgs| >= k && forall i :: 0 <= i < k ==> msgs[i] == Key("down")
    ensures Run(m, msgs) == Run(m.(cursor := m.cursor + k), msgs[k..])
    decreases k
  {
    if k > 0 {
      var next := m.(cursor := m.cursor + 1);
      assert Update(m, msgs[0]) == (next, NoCmd);
      DownsMoveCursor(next, k - 1, msgs[1..]);
      assert msgs[1..][k - 1..] == msgs[k..];
    }
  }
}
