/**
 * The full-screen, key-driven repository selector
 * (internal/ui/bubbletea_selector.go): a cursor over the list, a set of
 * selected positions, and a yes/no confirmation step.
 */
module SelectorModel {
  import opened Results
  import opened Text
  import opened Models
  import opened Selection
  import opened Tea

  /** The messages the terminal runtime delivers; keys are named as the runtime spells them ("up", "enter", " ", ...). */
  datatype Msg = WindowSize(width: int, height: int) | Key(key: string) | OtherMsg

  datatype Model = Model(
    repos: seq<Repository>,
    selected: set<int>,
    cursor: int,
    filter: FilterType,
    showConfirm: bool,
    confirmed: bool,
    done: bool,
    width: int,
    height: int)

  function MaxCursor(m: Model): int {
    if |m.repos| == 0 then 0 else |m.repos| - 1
  }

  /**
   * What every reachable model satisfies: the cursor is on the list (or at 0
   * for an empty one), selected positions are cursor positions, the
   * confirmation is only ever shown for a non-empty selection, and an
   * accepted selection ends the program.
   */
  predicate Valid(m: Model) {
    && 0 <= m.cursor <= MaxCursor(m)
    && (forall i :: i in m.selected ==> 0 <= i <= MaxCursor(m))
    && (m.showConfirm ==> |m.selected| > 0)
    && (m.confirmed ==> m.done)
  }

  /** `NewRepositorySelectorModel`: cursor on the first row, nothing selected, no dialog, an 80x24 screen. */
  function NewModel(repos: seq<Repository>, filter: FilterType): (m: Model)
    ensures Valid(m)
    ensures m.repos == repos && m.filter == filter
    ensures m.cursor == 0 && m.selected == {}
    ensures !m.showConfirm && !m.confirmed && !m.done
    ensures m.width == 80 && m.height == 24
  {
    Model(repos, {}, 0, filter, false, false, false, 80, 24)
  }

  /** `handleSelection`: keys while the list is shown. */
  function HandleSelection(m: Model, key: string): (r: (Model, Cmd))
    requires Valid(m) && !m.showConfirm
    ensures Valid(r.0)
    ensures r.0.repos == m.repos && r.0.filter == m.filter && r.0.confirmed == m.confirmed
    ensures r.1 == QuitCmd <==> key == "q" || key == "ctrl+c"
    ensures r.1 == QuitCmd ==> r.0 == m.(done := true)
    ensures key == "up" || key == "k" ==> r.0 == m.(cursor := if m.cursor == 0 then 0 else m.cursor - 1)
    ensures key == "down" || key == "j" ==> r.0 == m.(cursor := if m.cursor == MaxCursor(m) then m.cursor else m.cursor + 1)
    ensures key == " " ==> r.0 == m.(selected := Toggle(m.selected, m.cursor))
    ensures key == "a" ==> r.0 == m.(selected := r.0.selected) && forall i :: 0 <= i < |m.repos| ==> i in r.0.selected
    ensures key == "n" ==> r.0 == m.(selected := {})
    ensures key == "enter" ==> r.0 == m.(showConfirm := |m.selected| > 0)
  {
    if key == "q" || key == "ctrl+c" then (m.(done := true), QuitCmd)
    else if key == "up" || key == "k" then
      (if m.cursor > 0 then m.(cursor := m.cursor - 1) else m, NoCmd)
    else if key == "down" || key == "j" then
      (if m.cursor < |m.repos| - 1 then m.(cursor := m.cursor + 1) else m, NoCmd)
    else if key == " " then
      ToggleKeepsValid(m);
      (m.(selected := Toggle(m.selected, m.cursor)), NoCmd)
    else if key == "a" then
      SelectAllKeepsValid(m);
      (m.(selected := m.selected + AllIndices(|m.repos|)), NoCmd)
    else if key == "n" then (m.(selected := {}), NoCmd)
    else if key == "enter" then (if |m.selected| > 0 then m.(showConfirm := true) else m, NoCmd)
    else (m, NoCmd)
  }

  /** Flipping the row under the cursor keeps every selected position on the list. */
  lemma ToggleKeepsValid(m: Model)
    requires Valid(m) && !m.showConfirm
    ensures Valid(m.(selected := Toggle(m.selected, m.cursor)))
  {
  }

  /** Adding every row keeps every selected position on the list. */
  lemma SelectAllKeepsValid(m: Model)
    requires Valid(m) && !m.showConfirm
    ensures Valid(m.(selected := m.selected + AllIndices(|m.repos|)))
  {
  }

  /** `handleConfirmation`: keys while the yes/no dialog is shown. */
  function HandleConfirmation(m: Model, key: string): (r: (Model, Cmd))
    requires Valid(m) && m.showConfirm
    ensures Valid(r.0)
    ensures r.0.selected == m.selected && r.0.cursor == m.cursor && r.0.repos == m.repos
    ensures r.0.confirmed <==> m.confirmed || key == "y" || key == "Y"
    ensures r.1 == QuitCmd <==> key in {"y", "Y", "q", "ctrl+c"}
    ensures r.1 == QuitCmd ==> r.0.done
    ensures key in {"n", "N", "esc"} ==> r.0 == m.(showConfirm := false)
  {
    if key == "y" || key == "Y" then (m.(confirmed := true, done := true), QuitCmd)
    else if key == "n" || key == "N" || key == "esc" then (m.(showConfirm := false), NoCmd)
    else if key == "q" || key == "ctrl+c" then (m.(done := true), QuitCmd)
    else (m, NoCmd)
  }

  /** `Update`: a resize records the screen size; a key goes to the dialog while it is shown and to the list otherwise. */
  function Update(m: Model, msg: Msg): (r: (Model, Cmd))
    requires Valid(m)
    ensures Valid(r.0)
    ensures r.0.repos == m.repos
    ensures msg.Key? && m.showConfirm ==> r.0.selected == m.selected && r.0.cursor == m.cursor
    ensures msg.Key? && !m.showConfirm ==> r.0.confirmed == m.confirmed
    ensures !m.confirmed && r.0.confirmed ==> r.1 == QuitCmd && |r.0.selected| > 0
    ensures msg.WindowSize? ==> r == (m.(width := msg.width, height := msg.height), NoCmd)
    ensures msg.OtherMsg? ==> r == (m, NoCmd)
  {
    match msg
    case WindowSize(w, h) => (m.(width := w, height := h), NoCmd)
    case Key(k) => if m.showConfirm then HandleConfirmation(m, k) else HandleSelection(m, k)
    case OtherMsg => (m, NoCmd)
  }

  /** Enter opens the dialog exactly when something is selected. */
  lemma EnterOpensConfirmationIffSelected(m: Model)
    requires Valid(m) && !m.showConfirm
    ensures Update(m, Key("enter")).0.showConfirm <==> |m.selected| > 0
  {
  }

  /** Space twice on the same row leaves the selection as it was. */
  lemma SpaceTwiceRestores(m: Model)
    requires Valid(m) && !m.showConfirm
    ensures Update(Update(m, Key(" ")).0, Key(" ")).0 == m
  {
    ToggleInvolution(m.selected, m.cursor);
  }

  /** Leaving the dialog with "n" returns to the list with the same selection and cursor. */
  lemma DeclineReturnsToList(m: Model)
    requires Valid(m) && m.showConfirm
    ensures Update(m, Key("n")) == (m.(showConfirm := false), NoCmd)
  {
  }

  /** The runtime loop: feed messages until an update asks to quit or the messages run out. */
  function Run(m: Model, msgs: seq<Msg>): (r: Model)
    requires Valid(m) && !m.confirmed
    ensures Valid(r) && r.repos == m.repos
    ensures r.confirmed ==> |r.selected| > 0
    decreases |msgs|
  {
    if |msgs| == 0 then m
    else
      var (next, cmd) := Update(m, msgs[0]);
      if cmd == QuitCmd then next else Run(next, msgs[1..])
  }

  /**
   * `ShowRepositorySelector`: refuse an empty list, run the selector (a
   * failure of the terminal runtime is passed in as `programError`), refuse a
   * run that ended without confirmation, and otherwise collect the selected
   * repositories in the order `walk` gives (Go map order).
   */
  function ShowRepositorySelector(repos: seq<Repository>, filter: FilterType, programError: Option<string>,
                                  msgs: seq<Msg>, walk: set<int> -> seq<int>)
    : (r: Result<seq<Repository>, string>)
    ensures |repos| == 0 ==> r == Err("no repositories to select from")
    ensures |repos| > 0 && programError.Some? ==> r == Err("failed to run repository selector: " + programError.value)
    ensures r.Ok? <==> |repos| > 0 && programError.None? && Run(NewModel(repos, filter), msgs).confirmed
    ensures r.Ok? ==> |Run(NewModel(repos, filter), msgs).selected| > 0
    ensures r.Ok? ==> forall x :: x in r.value ==> x in repos
    ensures r.Ok? ==>
              var s := Run(NewModel(repos, filter), msgs).selected;
              IsWalkOf(walk(s), s) ==>
                && InRange(s, |repos|)
                && (forall i :: i in s ==> repos[i] in r.value)
                && (forall x :: x in r.value ==> exists i :: i in s && repos[i] == x)
                && |r.value| == |s|
  {
    if |repos| == 0 then Err("no repositories to select from")
    else if programError.Some? then Err("failed to run repository selector: " + programError.value)
    else
      var final := Run(NewModel(repos, filter), msgs);
      if !final.confirmed then Err("selection cancelled by user")
      else
        PickedContents(repos, walk(final.selected));
        WalkCollectsSelection(repos, final.selected, walk(final.selected));
        var chosen := Picked(repos, walk(final.selected));
        Ok(chosen)
  }

  /** A confirmed run of a non-empty list hands back at least one repository, whatever order the map walk takes. */
  lemma ConfirmedSelectionNonEmpty(repos: seq<Repository>, filter: FilterType, msgs: seq<Msg>, walk: set<int> -> seq<int>)
    requires |repos| > 0
    requires IsWalkOf(walk(Run(NewModel(repos, filter), msgs).selected), Run(NewModel(repos, filter), msgs).selected)
    requires Run(NewModel(repos, filter), msgs).confirmed
    ensures ShowRepositorySelector(repos, filter, None, msgs, walk).Ok?
    ensures |ShowRepositorySelector(repos, filter, None, msgs, walk).value| > 0
  {
    var final := Run(NewModel(repos, filter), msgs);
    var i := MemberOf(final.selected);
    var w := walk(final.selected);
    assert repos[i] in SelectedRepositories(repos, final.selected, w);
  }

  /** Go's `/` on `int`: the quotient truncated toward zero. */
  function GoDiv(a: int, b: int): (q: int)
    requires b > 0
    ensures a >= 0 ==> 0 <= a - q * b < b
    ensures a < 0 ==> -b < a - q * b <= 0
  {
    if a >= 0 then a / b else -((-a) / b)
  }

  /** The rows `renderSelection` draws: positions `start` up to, not including, `end`. */
  function ScrollWindow(n: int, cursor: int, height: int): (r: (int, int))
    requires n >= 0
    ensures n <= height - 8 ==> r == (0, n)
    ensures var visible := height - 8;
            0 < visible < n && 0 <= cursor < n ==>
              0 <= r.0 <= cursor < r.1 <= n && r.1 - r.0 == visible
    ensures height - 8 <= 0 && n > height - 8 ==> r.1 <= r.0
  {
    var visible := height - 8;
    if n > visible then
      var start := cursor - GoDiv(visible, 2);
      var start := if start < 0 then 0 else start;
      var end := start + visible;
      if end > n then
        var start := n - visible;
        (if start < 0 then 0 else start, n)
      else (start, end)
    else (0, n)
  }

  /** A repository name as listed: at most 25 bytes, longer names cut to 22 plus "...". */
  function DisplayName(name: string): (r: string)
    ensures |r| <= 25
    ensures |name| <= 25 ==> r == name
    ensures |name| > 25 ==> |r| == 25 && r[..22] == name[..22] && r[22..] == "..."
  {
    Truncate(name, 25, 22)
  }

  /** A description as listed: at most 40 bytes, and "No description" when there is none. */
  function DisplayDescription(description: string): (r: string)
    ensures 0 < |r| <= 40
    ensures description == "" ==> r == "No description"
    ensures 0 < |description| <= 40 ==> r == description
    ensures |description| > 40 ==> |r| == 40 && r[..37] == description[..37] && r[37..] == "..."
  {
    var cut := Truncate(description, 40, 37);
    if cut == "" then "No description" else cut
  }

  /** A language tag as listed: "N/A" when unknown. */
  function DisplayLanguage(language: string): (r: string)
    ensures r != ""
    ensures language == "" ==> r == "N/A"
    ensures language != "" ==> r == language
  {
    if language == "" then "N/A" else language
  }
}
