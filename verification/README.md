# mass-git-cloner, sequential core in Dafny

mass-git-cloner lists the repositories of a GitHub user or organisation,
lets the user pick a filter (all, originals only, forks only) and a set of
repositories, and clones them with `git` into `<baseDir>/<username>/<name>`,
retrying the ones that are still missing afterwards. This project models the
sequential logic around the concurrent worker pool and proves what it
promises:

- **Models** (`models.dfy`): repositories, the three filter constants and
  their labels, clone results and progress counters.
- **RepositoryFilter** (`repository_filter.dfy`): the fork filters and the
  statistics pass.
- **Selection**, **TextSelector** (`selection.dfy`, `text_selector.dfy`): the
  line-mode selector that reads input such as `1,3,5-7`, `all`, `none` and
  `done` and toggles 1-based positions. The set-of-positions state is shared
  with the key-driven selector, and so is the collection of the selected
  repositories in Go map order, which is an arbitrary walk of the set.
- **SelectorModel** (`selector_model.dfy`): the key-driven selector. It
  covers cursor movement, toggles, select all/none, the yes/no confirmation
  gate, the scroll window and the truncation helpers of the list view.
- **FilterMenu** (`filter_menu.dfy`): the three-row filter menu and the
  decision `ShowFilterSelector` takes on its final state.
- **ProgressView**, **Tracker** (`progress_view.dfy`, `tracker.dfy`): the
  full-screen progress model and the line-mode progress tracker. Both fold
  success and failure reports into counters. The progress model also keeps
  the "recent" windows and truncates failure lines.
- **Git** (`git.dfy`): the clone executor over an abstract filesystem, a map
  from path to directory or file. `git clone` and `git pull` are opaque
  functions supplied by the caller, returning an error (or none) and the
  filesystem they leave.
- **Manager** (`manager.dfy`): the precondition checks of a cloning round
  and the counting loop over its results. It also models the probe for
  repositories still missing, the bounded retry loop, and the update pass.
  The retry loop takes the round as a function of (attempt, repositories,
  filesystem) and the probe as a function of (repositories, filesystem).
- **Config**, **Prompt** (`config.dfy`, `prompt.dfy`): defaults and
  environment overrides, with the environment as a map; the validation of
  the answers read at the plain prompts.
- **Results**, **Seqs**, **Text**, **Tea**: support modules. They provide
  `Option`/`Result`, order-preserving filtering and counting over sequences,
  the Go string functions the core uses (ASCII `TrimSpace` and `ToLower`,
  `strings.Split`, `strconv.Atoi` with 64-bit bounds), and the terminal
  runtime's commands.

Terminal programs are modelled as an initial model, a pure `Update`, and a
`Run` that feeds a finite list of messages until an update returns the quit
command or the messages run out. A failure of the terminal runtime itself is
a parameter.

## Model

| member | source | states |
|---|---|---|
| Models.FilterLabel | pkg/models/repository.go:41-52 | a value reads "Unknown" exactly when it is not one of the three filter constants |
| Models.FilterLabelInjective | pkg/models/repository.go:41-52 | two known filters with the same label are the same filter |
| RepositoryFilter.FilterRepositories | internal/github/repository.go:6-27 | the result is an ordered subsequence of the input: the input itself for "all", else exactly the repositories the filter admits (non-forks or forks); an unknown filter keeps nothing |
| RepositoryFilter.ForkFiltersPartition | internal/github/repository.go:13-22 | the non-fork and fork filters together account for every repository exactly once |
| RepositoryFilter.CalculateStats | internal/github/repository.go:30-50 | total is the list length; forks + non-forks = private + public = total; the fork counts equal the lengths of the filtered lists |
| Selection.Toggle | internal/ui/selector.go:180-184 | flips membership of one position and leaves every other position as it was |
| Selection.ToggleInvolution | internal/ui/selector.go:180-184 | flipping the same position twice restores the selection |
| Selection.PickedContents | internal/ui/selector.go:206-210 | the positions loop keeps at most one repository per visited position, exactly one when every position is in range; it keeps every in-range position's repository and nothing that is not one |
| Selection.SelectedRepositories | internal/ui/selector.go:203-213 | for any map walk: every selected in-range position contributes its repository, nothing else is returned, and when all positions are in range there is one repository per position |
| Selection.WalkCollectsSelection | internal/ui/selector.go:203-213 | a walk of a selection that lies on the list collects exactly one repository per selected position |
| Selection.SelectionOrderIrrelevant | internal/ui/selector.go:203-213 | two different map walks of the same selection yield the same repositories up to permutation |
| TextSelector.ToggleSelection | internal/ui/selector.go:173-186 | a number outside 1..n is refused with the selection unchanged; otherwise position num-1 is flipped |
| TextSelector.ToggleRange | internal/ui/selector.go:150-155 | the number that stops a range toggle lies in the range, outside 1..n, and is reported as out of range for n (partners: ToggleRangeInside, ToggleRangeOverrun, ToggleRangeBelow pin the exact result) |
| TextSelector.ToggleRangeInside | internal/ui/selector.go:151-155 | a range inside 1..n flips exactly positions lo-1..hi-1 |
| TextSelector.ToggleRangeOverrun | internal/ui/selector.go:151-155 | a range running past n flips lo-1..n-1 before refusing n+1: the range is not atomic |
| TextSelector.ToggleRangeBelow | internal/ui/selector.go:151-155 | a range starting below 1 is refused at its first number before anything changes |
| TextSelector.ParsePart | internal/ui/selector.go:131-166 | a part without '-' is accepted exactly when it is a number, and is the range n..n; a part with a '-' that does not split in two is a malformed range; a two-piece range is accepted exactly when both trimmed bounds are numbers, and is (min, max) of them |
| TextSelector.ParseNumberOf | internal/ui/selector.go:157-161 | the decimal text of any number up to the int64 maximum parses as the range n..n |
| TextSelector.ParseRangeOf | internal/ui/selector.go:131-155 | two digit strings joined by '-' are left alone by trimming and parse as the ordered range (min, max) of their values, whichever order they were typed in |
| TextSelector.ProcessPart | internal/ui/selector.go:128-166 | a part that succeeds parsed to a range inside 1..n and flipped exactly that range |
| TextSelector.NumberPartToggles | internal/ui/selector.go:157-165 | typing a number a inside 1..n flips exactly position a-1 without error |
| TextSelector.ProcessSelection | internal/ui/selector.go:124-167 | processing a whole input, successful or not, keeps a selection on the list |
| TextSelector.SinglePartSelection | internal/ui/selector.go:124-128 | input without a comma is processed as one part |
| TextSelector.ProcessPartTwice | internal/ui/selector.go:127-167 | applying a successful part a second time restores the original selection |
| TextSelector.RepeatedPartCancels | internal/ui/selector.go:125-167 | input such as "3,3" or "2-4,2-4" leaves the selection as it was |
| TextSelector.EarlierPartsKept | internal/ui/selector.go:125-167 | the second part starts from what the first produced, so a later error keeps the earlier toggles |
| TextSelector.ReversedRangeSame | internal/ui/selector.go:147-149 | "b-a" does exactly what "a-b" does |
| TextSelector.DoubleDashRejected | internal/ui/selector.go:131-135 | "1--3" is refused as a malformed range |
| TextSelector.MissingStartRejected | internal/ui/selector.go:137-140 | "-3" is refused for its empty start and is not read as a negative number |
| TextSelector.SelectAll | internal/ui/selector.go:190-195 | the selection becomes exactly the positions 0..n-1 |
| TextSelector.SelectNone | internal/ui/selector.go:198-200 | the selection becomes empty |
| TextSelector.ShowStep | internal/ui/selector.go:52-76 | after lower-casing and trimming, "done" and only "done" ends the loop; "all" selects every position, "none" clears the selection, and any other line is processed as comma-separated parts, with its selection and error |
| TextSelector.ShowStepApplies | internal/ui/selector.go:52-76 | a step finishes exactly on a "done" line, and otherwise leaves the selection its command makes |
| TextSelector.ToggleRangeInRange | internal/ui/selector.go:151-155 | a range toggle only ever flips positions of the list |
| TextSelector.ProcessPartsInRange | internal/ui/selector.go:128-166 | processing parts, successful or not, keeps a selection on the list |
| TextSelector.ApplyInRange | internal/ui/selector.go:57-71 | every command keeps a selection on the list |
| TextSelector.TypedAppend | internal/ui/selector.go:48-77 | applying lines one after another composes: typing a then b is typing a + b |
| TextSelector.RunCommandsNone | internal/ui/selector.go:48-57 | the loop has no result exactly when no command is "done" |
| TextSelector.RunCommandsInRange | internal/ui/selector.go:48-77 | a loop started on the list ends with a selection on the list |
| TextSelector.RunCommandsFirstDone | internal/ui/selector.go:48-57 | the loop's result is the selection built by the commands before the first "done", and commands after it are never read |
| TextSelector.ReadAllPrefix | internal/ui/selector.go:51-53 | reading a prefix of the lines gives the same prefix of commands |
| TextSelector.RunLinesNone | internal/ui/selector.go:48-57 | the loop keeps prompting exactly when no line, lower-cased and trimmed, is "done" |
| TextSelector.RunLines | internal/ui/selector.go:48-77 | starting from a selection on the list, the selection the loop ends with lies on the list (partners: RunLinesNone, RunLinesFirstDone) |
| TextSelector.RunLinesFirstDone | internal/ui/selector.go:48-57 | the loop's selection is what the lines before the first "done" built, and lines after it do not matter |
| TextSelector.Show | internal/ui/selector.go:33-80 | an empty list is refused and only an empty list; it keeps prompting exactly when the loop found no "done"; for a proper map walk the result holds, once each, exactly the repositories at the positions the loop selected |
| TextSelector.ShowWaitsForDone | internal/ui/selector.go:48-57 | for a non-empty list, still prompting exactly when no line is "done" |
| SelectorModel.NewModel | internal/ui/bubbletea_selector.go:84-96 | the initial model satisfies the invariant: cursor 0, nothing selected, no dialog, not confirmed or done, an 80x24 screen |
| SelectorModel.HandleSelection | internal/ui/bubbletea_selector.go:122-163 | keeps the invariant (cursor within the list, selections in range); quits exactly on q/ctrl+c; "up"/"k" moves the cursor up one row unless it is at the top, "down"/"j" down one unless it is at the bottom, touching nothing else; space flips the cursor row; "a" selects every row; "n" clears; enter opens the dialog only for a non-empty selection |
| SelectorModel.HandleConfirmation | internal/ui/bubbletea_selector.go:166-182 | y/Y confirms and ends; n/N/esc returns to the list unchanged; q/ctrl+c ends without confirming; selection and cursor never change |
| SelectorModel.Update | internal/ui/bubbletea_selector.go:104-119 | keys go to the dialog exactly while it is shown; a resize records the size; a confirmation only ever happens with a quit and a non-empty selection |
| SelectorModel.EnterOpensConfirmationIffSelected | internal/ui/bubbletea_selector.go:156-159 | enter shows the dialog if and only if something is selected |
| SelectorModel.SpaceTwiceRestores | internal/ui/bubbletea_selector.go:138-144 | space twice on a row gives back the same model |
| SelectorModel.DeclineReturnsToList | internal/ui/bubbletea_selector.go:173-174 | "n" in the dialog returns to the list with selection and cursor kept and does not quit |
| SelectorModel.Run | internal/ui/bubbletea_selector.go:380-382 | every reachable model keeps the invariant, and a confirmed one has a non-empty selection |
| SelectorModel.ShowRepositorySelector | internal/ui/bubbletea_selector.go:373-394 | an empty list and a runtime failure are refused with their messages; a result is returned if and only if the run was confirmed; it holds only listed repositories, and for a proper map walk exactly one repository for each position selected in the final model |
| SelectorModel.ConfirmedSelectionNonEmpty | internal/ui/bubbletea_selector.go:373-394 | a confirmed run hands back at least one repository, whatever the map order |
| SelectorModel.GoDiv | internal/ui/bubbletea_selector.go:212 | Go's integer division truncates toward zero: the remainder lies in [0, b) for a non-negative dividend and in (-b, 0] for a negative one |
| SelectorModel.ScrollWindow | internal/ui/bubbletea_selector.go:207-224 | a list that fits is shown whole; otherwise the window has exactly height-8 rows, lies inside the list and contains the cursor |
| SelectorModel.DisplayName | internal/ui/bubbletea_selector.go:245-248 | names over 25 bytes become their first 22 bytes plus "..."; shorter ones are kept |
| SelectorModel.DisplayDescription | internal/ui/bubbletea_selector.go:262-268 | at most 40 bytes, cut to 37 plus "..."; an empty description reads "No description" |
| SelectorModel.DisplayLanguage | internal/ui/bubbletea_selector.go:251-254 | an empty language reads "N/A"; a known one is kept |
| FilterMenu.Options | internal/ui/bubbletea_filter.go:30-49 | three rows, all / originals / forks in constant order, counted from the statistics |
| FilterMenu.NewFilterSelector | internal/ui/bubbletea_filter.go:29-57 | cursor on the first row, "all" preselected, not done |
| FilterMenu.Update | internal/ui/bubbletea_filter.go:65-91 | cursor stays on the three rows; enter/space chooses the row under the cursor and quits; q/ctrl+c quits without changing the choice; other messages change nothing |
| FilterMenu.Run | internal/ui/bubbletea_filter.go:159-161 | a run that did not finish has kept the initial choice |
| FilterMenu.ShowFilterSelector | internal/ui/bubbletea_filter.go:156-173 | always a known filter; a runtime failure or an unfinished run gives "all" with an error; there is no error exactly when the run finished, and then the filter is the one the run selected |
| FilterMenu.QuitChoosesAll | internal/ui/bubbletea_filter.go:69-71 | quitting at once returns "all" without an error |
| FilterMenu.DownThenEnterChooses | internal/ui/bubbletea_filter.go:78-86 | k presses of "down" then enter choose filter k, for k up to 2 |
| ProgressView.NewProgressModel | internal/ui/bubbletea_progress.go:24-38 | counters zero, lists empty, not done, total as given |
| ProgressView.Update | internal/ui/bubbletea_progress.go:66-101 | each clone update grows exactly one counter and its list; the current repository is set in both places; done is never cleared; quit only when done; a tick reschedules only while not done |
| ProgressView.Run | internal/ui/bubbletea_progress.go:66-101 | a run of updates keeps the counters equal to the list lengths and the lists split by success, leaves the total unchanged, and never clears done (partners: RunCollects, CountsCoverUpdates) |
| ProgressView.RunCollectsCompleted | internal/ui/bubbletea_progress.go:87-90 | without a quit key the completed list is the earlier list followed by the arrived successes in arrival order |
| ProgressView.RunCollectsFailed | internal/ui/bubbletea_progress.go:87-94 | without a quit key the failed list is the earlier list followed by the arrived failures in arrival order |
| ProgressView.RunCollects | internal/ui/bubbletea_progress.go:87-94 | without a quit key the lists are the arrived successes and failures in arrival order, and the counters count them |
| ProgressView.CountsCoverUpdates | internal/ui/bubbletea_progress.go:87-94 | completed + failed equals the number of clone updates |
| ProgressView.CountsIgnoreOrder | internal/ui/bubbletea_progress.go:87-94 | the final counters depend only on the multiset of arrived results |
| ProgressView.RecentCompletions | internal/ui/bubbletea_progress.go:167-182 | the last min(3, n) successes, oldest first |
| ProgressView.RecentFailures | internal/ui/bubbletea_progress.go:184-202 | the last min(2, n) failures, oldest first |
| ProgressView.RecentCompletionsSlide | internal/ui/bubbletea_progress.go:167-182 | a new success joins the recent completions at the end and pushes the oldest out |
| ProgressView.FailureLine | internal/ui/bubbletea_progress.go:195-198 | at most 80 bytes; a longer line keeps its first 77 bytes and ends in "..." |
| ProgressView.ShortFailureShownWhole | internal/ui/bubbletea_progress.go:195-198 | a short name and error are shown whole, the name at its place |
| Tracker.NewTracker | internal/ui/progress.go:21-29 | total as given, counters zero, no current text |
| Tracker.SetCurrent | internal/ui/progress.go:32-35 | only the current text changes |
| Tracker.Success | internal/ui/progress.go:38-43 | completed grows by one and nothing else counted changes |
| Tracker.Failure | internal/ui/progress.go:46-51 | failed grows by one and nothing else counted changes |
| Tracker.ApplyAllCounts | internal/ui/progress.go:32-51 | after any calls each counter has grown by the number of calls of its kind, and the total is unchanged |
| Tracker.OutcomesCounted | internal/ui/progress.go:38-51 | from a new tracker, completed + failed is the number of Success and Failure calls |
| Tracker.CountsIgnoreOrder | internal/ui/progress.go:38-51 | the counters do not depend on the order of the calls |
| Tracker.MenuChoice | internal/ui/progress.go:125-135 | 2 picks originals, 3 picks forks, anything else picks all |
| Tracker.MenuChoiceNumbering | internal/ui/progress.go:120-135 | menu number f+1 picks filter f |
| Git.Join | internal/cloner/git.go:30 | an empty or "." directory contributes nothing; otherwise directory, slash, name |
| Git.JoinAgreesWithSlashJoin | internal/cloner/manager.go:156 | the probe's "%s/%s" path equals the joined path exactly when the directory is neither empty nor "." |
| Git.RemoveAll | internal/cloner/git.go:50 | the tree at the path disappears and nothing else changes |
| Git.MkdirAll | internal/cloner/git.go:93 | fails on an empty path or a prefix that is a file; otherwise every prefix is a directory, everything already there is kept, nothing else is added |
| Git.MkdirAllIdempotent | internal/cloner/git.go:93 | creating the same tree twice changes nothing the second time |
| Git.CloneRepository | internal/cloner/git.go:28-55 | an existing path is refused with the filesystem unchanged; success exactly when the path is free and git succeeds; after a failed clone nothing remains under the path |
| Git.FailedCloneRestores | internal/cloner/git.go:48-52 | a failed clone that wrote only under its own path leaves the filesystem exactly as before |
| Git.UpdateRepository | internal/cloner/git.go:58-77 | without `.git` the pull is not run; success exactly when `.git` exists and the pull succeeds |
| Git.PrepareTargetDirectory | internal/cloner/git.go:89-98 | success returns the joined path, now a directory, keeping what existed; failure returns "" with the wrapped error and changes nothing |
| Git.PrepareTargetDirectoryIdempotent | internal/cloner/git.go:89-98 | preparing twice returns the same path and changes nothing the second time |
| Git.GetRepositoryInfo | internal/cloner/git.go:101-128 | never fails; the path is echoed; present iff the path is a directory; git repository iff present and `.git` exists |
| Git.FailedCloneProbedMissing | internal/cloner/git.go:48-52 | after a failed clone the probe finds nothing at the path |
| Git.SuccessfulCloneProbedPresent | internal/cloner/git.go:101-128 | a clone that left a directory with `.git` is probed as a git repository |
| Git.ExistingRepositoryNotRecloned | internal/cloner/git.go:33-35 | an existing repository is refused by a clone, leaving the filesystem alone, and passes the update's `.git` check |
| Manager.CloneEach | internal/cloner/worker.go:53-73 | one result per repository, in order, each a well-formed result for its repository |
| Manager.CloneEachAt | internal/cloner/worker.go:53-73 | repository i's result carries exactly the error CloneRepository returned on the filesystem the earlier clones left, and succeeds exactly when that error is absent |
| Manager.CloneEachThreads | internal/cloner/worker.go:53-73 | the filesystem after repository i is the one its clone left |
| Manager.CloneEachAllExisting | internal/cloner/git.go:33-35 | when every path is taken, every result is a failure and the filesystem is untouched |
| Manager.CloneRepositories | internal/cloner/manager.go:31-45 | an empty list fails first, then a missing git, then an unpreparable target directory; otherwise the round runs |
| Manager.ErrorText | internal/cloner/manager.go:109 | an error prints as its message, a missing one as "<nil>" |
| Manager.ProcessResults | internal/cloner/manager.go:101-119 | reads min(total, available) results, at least one when any arrive, and counts exactly those read by success flag |
| Manager.GetFailedRepositories | internal/cloner/manager.go:151-163 | an ordered subsequence of the input holding exactly the repositories the probe reports missing or not a git checkout |
| Manager.ProbeLooksWhereCloneWrote | internal/cloner/manager.go:153-156 | for a real user name the probe path is the path the clone wrote |
| Manager.RetryFrom | internal/cloner/manager.go:126-145 | at most the remaining attempts run; the first round clones the input (or the failed set later); a later round only runs with a non-empty failed set; an error ends the loop and is returned |
| Manager.RetryFromRecord | internal/cloner/manager.go:136-144 | any one round's outcome is what the round returned, and the probe ran after it exactly when it succeeded before the last attempt |
| Manager.RetryFromRecords | internal/cloner/manager.go:136-144 | each round's outcome is what the round returned, and the probe ran exactly after successful rounds before the last |
| Manager.RetryFromFollows | internal/cloner/manager.go:127-143 | each later round retries exactly the non-empty set the previous probe reported, on the filesystem it left |
| Manager.RetryFromStops | internal/cloner/manager.go:126-139 | the loop ends early only for an empty failed set or an error |
| Manager.RetryFromShrinks | internal/cloner/manager.go:142-144 | with a probe that only drops repositories, each round clones a subsequence of the previous one |
| Manager.CloneRepositoriesWithRetry | internal/cloner/manager.go:122-148 | at most max(0, attempts) rounds; no attempts means nothing runs and no error; otherwise round 1 clones every repository |
| Manager.ProgramProbeShrinks | internal/cloner/manager.go:151-163 | the program's probe only ever drops repositories |
| Manager.RetriesShrink | internal/cloner/manager.go:126-145 | each retry round of the program clones a subsequence of the round before |
| Manager.MissingGitStopsAtFirstRound | internal/cloner/manager.go:37-39 | without git exactly one round runs and its error is returned |
| Manager.EmptyListFails | internal/cloner/manager.go:32-34 | an empty list fails with "no repositories to clone" |
| Manager.UpdateEvents | internal/cloner/manager.go:177-184 | one "Updating" notice, then one success or failure report, a success exactly when the pull worked |
| Manager.UpdateEach | internal/cloner/manager.go:176-185 | the update pass reports exactly two events per repository (partners: UpdateEachInOrder, UpdateEachReportsEach, UpdateEachAt, UpdateEachThreads) |
| Manager.UpdateEachInOrder | internal/cloner/manager.go:176-185 | the reports come in pairs, one pair per repository, in list order |
| Manager.UpdateEachReportsEach | internal/cloner/manager.go:176-185 | every repository is reported exactly once as a success or a failure |
| Manager.UpdateRepositories | internal/cloner/manager.go:166-189 | an unpreparable target directory is the only error, and then nothing changes; otherwise the events and filesystem are those of the update pass over the prepared directory |
| Manager.UpdateRepositoriesReports | internal/cloner/manager.go:176-186 | repository i is reported updated exactly when pulling it at its path, on the filesystem the earlier pulls left, returned no error |
| Manager.UpdateEachAt | internal/cloner/manager.go:176-186 | the outcome event of repository i is UpdateRepository's result at its path on the filesystem the earlier pulls left |
| Manager.UpdateEachThreads | internal/cloner/manager.go:176-186 | the filesystem after repository i is the one its pull left |
| Manager.UpdateRepositoriesCountsEach | internal/cloner/manager.go:174-187 | after a successful pass the tracker has counted every repository once |
| Config.DefaultConfig | internal/config/config.go:20-29 | five workers, ten minutes per clone, thirty seconds per API call, three attempts, base directory "." and the token from the environment |
| Config.LoadConfig | internal/config/config.go:32-56 | the worker count is always positive, becomes any positive MAX_CONCURRENCY that Atoi accepts and changes to nothing else; the timeout becomes any non-empty CLONE_TIMEOUT that parses and changes to nothing else; BASE_DIR replaces "." only when non-empty; attempts and API timeout never change |
| Config.LoadConfigEmptyEnvironment | internal/config/config.go:32-56 | an empty environment yields exactly the defaults |
| Config.MaxConcurrencyOverride | internal/config/config.go:39-43 | any positive decimal MAX_CONCURRENCY becomes the worker count |
| Config.ZeroConcurrencyIgnored | internal/config/config.go:39-43 | MAX_CONCURRENCY=0 keeps five workers |
| Prompt.PromptUsername | internal/ui/prompt.go:11-26 | a read error is passed on; a blank line is refused; otherwise the trimmed, non-blank line |
| Prompt.BlankUsernameRejected | internal/ui/prompt.go:20-23 | a line of white space only is refused |
| Prompt.PromptConfirmation | internal/ui/prompt.go:29-41 | yes if and only if the trimmed, lower-cased reply is "y" or "yes" |
| Prompt.ConfirmationDefaultsToNo | internal/ui/prompt.go:38-40 | an empty or blank reply answers no |
| Prompt.ConfirmationAcceptsYes | internal/ui/prompt.go:38-40 | "Y", "yes", "YES" and the like, with their newline, answer yes |
| Prompt.ConfirmationPrompt | internal/ui/prompt.go:30 | the message followed by " (y/N): " |
| Prompt.RetryMessageRoundTrip | internal/ui/prompt.go:44-46 | the retry question names exactly the operation it was built from |
| Prompt.PromptRetry | internal/ui/prompt.go:44-46 | the answer is read exactly as for a confirmation, and the question shown recovers the operation |

## Left out

- Concurrency: the worker pool of internal/cloner/worker.go, its channels,
  context cancellation and signal handling, and the goroutine plumbing of
  `CloneRepositories`. A round is sequential: `CloneEach` clones in list
  order and records success exactly when the clone returned no error. The
  retry loop takes any round function, so the real pool's order is not
  assumed.
- The GitHub HTTP client, JSON decoding, `cmd/git-clone/main.go` wiring and
  the statistics view: they are I/O or wiring with no statable logic.
- All rendering: styles, percentages and progress bars (floating point),
  elapsed times and sleeps, and the duration shown in a recent completion.
  Only the index arithmetic and truncations the views perform are modelled.
  Durations in clone results are always 0.
- The legacy `displayRepositories` of the line-mode selector, which only
  prints.
- Reading input: `bufio` reads become a given line or a read failure
  (`ReadOutcome`), and the text selector reads a finite list of lines. When
  the lines run out before "done", `Show` answers `StillPrompting`, where
  the program would keep prompting.
- TextSelector.RunLines: each element of `lines` stands for the word
  `fmt.Scanln` stored, not for the typed line. `Scanln` stops at the first
  space, so "1, 3" delivers "1," and the rest of the line is consumed by the
  ignored "expected newline" error. The model therefore also accepts
  strings that `Scanln` never delivers (ones with inner spaces), and the
  tokenising itself is not modelled.
- Tracker.MenuChoice: takes the integer `Scanln` produced; a reply that does
  not scan leaves 0 and therefore picks "all".
- `time.ParseDuration` is a parameter of `LoadConfig`, and durations are
  integer nanoseconds.
- Strings are sequences of bytes with ASCII semantics: `TrimSpace` and
  `ToLower` ignore Unicode white space and letters. The check and cross marks
  are their three UTF-8 bytes each.
- `filepath.Join` is modelled for the joins the program makes (a directory
  and one name), without `filepath.Clean`: "a/" and "b" join to "a//b" here,
  not "a/b".
- Git.MkdirAll: permission errors and partial creation are not modelled. A
  failure changes nothing, and its message names the whole path, where Go
  names the component that failed.
- Git.GetRepositoryInfo: every `os.Stat` failure counts as "not there"; the
  modification time is not kept.
- Git.UpdateRepository: Go refuses only when the `.git` lookup fails with
  "does not exist"; here any missing `.git` entry refuses, since the
  abstract filesystem has no other lookup failure.
- Git.CloneRepository: the clone timeout is part of the opaque git run.
- `CheckGitInstalled` is a boolean input of `CloneRepositories`.
- SelectorModel.ShowRepositorySelector and TextSelector.Show take the map
  walk as a function parameter. For a walk that enumerates the selection
  they state which repositories are returned and how many, but not their
  order, which is Go's map order. `Selection.SelectionOrderIrrelevant`
  states that two walks give the same repositories up to permutation.
- ProgressView.FailureLine: requires a failed result carrying an error. Go
  would panic on a failed result without one, and the worker never sends
  such a result.
- `SortRepositories` has an empty body in the source. It is modelled as
  returning its input, and no property is stated beyond that.
- `GetSelectedFilter`, `IsDone` and `IsConfirmed` are field reads, used
  directly.
