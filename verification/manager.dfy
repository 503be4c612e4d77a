/**
 * The cloning manager (internal/cloner/manager.go) as a sequential model: the
 * preconditions of a cloning round, the counting loop over its results, the
 * probe for repositories still missing, the bounded retry loop, and the
 * update pass.
 */
module Manager {
  import opened Results
  import opened Seqs
  import opened Models
  import Config
  import opened Git
  import opened Tracker

  /**
   * One cloning round without the worker pool: each repository is cloned in
   * turn, on the filesystem the earlier clones left, and its result records
   * success exactly when the clone returned no error (`CloneEachAt`).
   */
  function CloneEach(fs: FileSystem, repos: seq<Repository>, targetDir: string, git: GitClone)
    : (r: (seq<CloneResult>, FileSystem))
    ensures |r.0| == |repos|
    ensures forall i :: 0 <= i < |repos| ==> r.0[i].repository == repos[i] && r.0[i].Valid()
    decreases |repos|
  {
    if |repos| == 0 then ([], fs)
    else
      var (error, next) := CloneRepository(fs, repos[0].cloneUrl, repos[0].name, targetDir, git);
      var (rest, last) := CloneEach(next, repos[1..], targetDir, git);
      ([CloneResult(repos[0], error.None?, error, 0)] + rest, last)
  }

  /** The filesystem a round leaves after repository `i` is the one its clone left. */
  lemma {:induction false} CloneEachThreads(fs: FileSystem, repos: seq<Repository>, targetDir: string, git: GitClone, i: int)
    requires 0 <= i < |repos|
    ensures var before := CloneEach(fs, repos[..i], targetDir, git).1;
            CloneEach(fs, repos[..i + 1], targetDir, git).1 == CloneRepository(before, repos[i].cloneUrl, repos[i].name, targetDir, git).1
    decreases i
  {
    var next := CloneRepository(fs, repos[0].cloneUrl, repos[0].name, targetDir, git).1;
    var tail := repos[1..];
    if i == 0 {
      assert repos[..0] == [];
      assert repos[..1][1..] == [];
    } else {
      CloneEachThreads(next, tail, targetDir, git, i - 1);
      assert repos[..i][0] == repos[0] && repos[..i][1..] == tail[..i - 1];
      assert CloneEach(fs, repos[..i], targetDir, git).1 == CloneEach(next, tail[..i - 1], targetDir, git).1;
      assert repos[..i + 1][0] == repos[0] && repos[..i + 1][1..] == tail[..i];
      assert tail[i - 1] == repos[i];
    }
  }

  /**
   * Repository `i` is cloned on the filesystem the clones before it left, and
   * its result carries exactly the error `CloneRepository` returned there.
   */
  lemma {:induction false} CloneEachAt(fs: FileSystem, repos: seq<Repository>, targetDir: string, git: GitClone, i: int)
    requires 0 <= i < |repos|
    ensures var before := CloneEach(fs, repos[..i], targetDir, git).1;
            var error := CloneRepository(before, repos[i].cloneUrl, repos[i].name, targetDir, git).0;
            CloneEach(fs, repos, targetDir, git).0[i] == CloneResult(repos[i], error.None?, error, 0)
    decreases i
  {
    var next := CloneRepository(fs, repos[0].cloneUrl, repos[0].name, targetDir, git).1;
    var tail := repos[1..];
    if i == 0 {
      assert repos[..0] == [];
    } else {
      CloneEachAt(next, tail, targetDir, git, i - 1);
      assert CloneEach(fs, repos, targetDir, git).0[i] == CloneEach(next, tail, targetDir, git).0[i - 1];
      assert repos[..i][0] == repos[0] && repos[..i][1..] == tail[..i - 1];
      assert CloneEach(fs, repos[..i], targetDir, git).1 == CloneEach(next, tail[..i - 1], targetDir, git).1;
      assert tail[i - 1] == repos[i];
    }
  }

  /** Repositories whose paths are all taken are all refused, and the filesystem is left alone. */
  lemma {:induction false} CloneEachAllExisting(fs: FileSystem, repos: seq<Repository>, targetDir: string, git: GitClone)
    requires forall i :: 0 <= i < |repos| ==> Join(targetDir, repos[i].name) in fs
    ensures CloneEach(fs, repos, targetDir, git).1 == fs
    ensures forall i :: 0 <= i < |repos| ==> !CloneEach(fs, repos, targetDir, git).0[i].success
    decreases |repos|
  {
    if |repos| > 0 {
      CloneEachAllExisting(fs, repos[1..], targetDir, git);
      var rest := CloneEach(fs, repos[1..], targetDir, git).0;
      forall i | 0 < i < |repos|
        ensures !CloneEach(fs, repos, targetDir, git).0[i].success
      {
        assert CloneEach(fs, repos, targetDir, git).0[i] == rest[i - 1];
      }
    }
  }

  /**
   * `CloneRepositories`: refuse an empty list, a missing git, or a target
   * directory that cannot be made; otherwise clone every repository. Failures
   * of single clones are reported through the results, never as the error.
   */
  function CloneRepositories(repos: seq<Repository>, username: string, baseDir: string, gitInstalled: bool, fs: FileSystem, git: GitClone)
    : (r: Result<FileSystem, string>)
    ensures |repos| == 0 ==> r == Err("no repositories to clone")
    ensures |repos| > 0 && !gitInstalled ==> r == Err("git is not installed or not available in PATH")
    ensures r.Ok? <==> |repos| > 0 && gitInstalled && PrepareTargetDirectory(fs, username, baseDir).1.None?
    ensures r.Ok? ==> var (targetDir, _, prepared) := PrepareTargetDirectory(fs, username, baseDir);
                      r.value == CloneEach(prepared, repos, targetDir, git).1
  {
    if |repos| == 0 then Err("no repositories to clone")
    else if !gitInstalled then Err("git is not installed or not available in PATH")
    else
      var (targetDir, error, prepared) := PrepareTargetDirectory(fs, username, baseDir);
      if error.Some? then Err("failed to prepare target directory: " + error.value)
      else Ok(CloneEach(prepared, repos, targetDir, git).1)
  }

  /** How `%v` prints an error value: its message, or "<nil>". */
  function ErrorText(error: Option<string>): (text: string)
    ensures error.Some? ==> text == error.value
    ensures error.None? ==> text == "<nil>"
  {
    match error
    case Some(message) => message
    case None => "<nil>"
  }

  /**
   * `processResults`: report each result as a success or a failure, and stop
   * once as many results as the tracker's total have been read (at least one).
   */
  method ProcessResults(results: seq<CloneResult>, total: int) returns (p: ProgressTracker, consumed: nat)
    ensures consumed == if |results| == 0 then 0
                        else if total <= 1 then 1
                        else if |results| < total then |results| else total
    ensures p.total == total
    ensures p.completed == CountIf(results[..consumed], IsSuccess)
    ensures p.failed == CountIf(results[..consumed], IsFailure)
  {
    p := NewTracker(total);
    consumed := 0;
    while consumed < |results|
      invariant consumed <= |results|
      invariant consumed == 0 || consumed < total
      invariant p.total == total
      invariant p.completed == CountIf(results[..consumed], IsSuccess)
      invariant p.failed == CountIf(results[..consumed], IsFailure)
    {
      var result := results[consumed];
      if result.success {
        p := Success(p, result.repository.name);
      } else {
        p := Failure(p, result.repository.name, ErrorText(result.error));
      }
      assert results[..consumed + 1] == results[..consumed] + [result];
      CountIfAppend(results[..consumed], [result], IsSuccess);
      CountIfAppend(results[..consumed], [result], IsFailure);
      consumed := consumed + 1;
      if consumed >= Total(p) {
        break;
      }
    }
  }

  /** The probe's verdict on one repository: the lookup failed, nothing is there, or it is not a git checkout. */
  predicate NeedsClone(fs: FileSystem, targetDir: string, repo: Repository) {
    var (info, error) := GetRepositoryInfo(fs, SlashJoin(targetDir, repo.name));
    error.Some? || !info.present || !info.isGitRepo
  }

  function NeedsCloneFn(fs: FileSystem, targetDir: string): Repository -> bool {
    repo => NeedsClone(fs, targetDir, repo)
  }

  /**
   * `getFailedRepositories`: prepare the target directory again (ignoring its
   * error), then keep, in order, the repositories the probe reports as missing.
   */
  function GetFailedRepositories(repos: seq<Repository>, username: string, baseDir: string, fs: FileSystem)
    : (r: (seq<Repository>, FileSystem))
    ensures r.1 == PrepareTargetDirectory(fs, username, baseDir).2
    ensures IsSubsequence(r.0, repos)
    ensures forall x :: x in r.0 <==> x in repos && NeedsClone(r.1, PrepareTargetDirectory(fs, username, baseDir).0, x)
  {
    var (targetDir, _, prepared) := PrepareTargetDirectory(fs, username, baseDir);
    var failed := Keep(repos, NeedsCloneFn(prepared, targetDir));
    KeepIsSubsequence(repos, NeedsCloneFn(prepared, targetDir));
    assert forall x :: x in failed <==> x in repos && NeedsClone(prepared, targetDir, x) by {
      forall x {
        KeepMembership(repos, NeedsCloneFn(prepared, targetDir), x);
      }
    }
    (failed, prepared)
  }

  /** For a real user name the probe looks exactly where the clone wrote. */
  lemma ProbeLooksWhereCloneWrote(baseDir: string, username: string, name: string)
    requires username != "" && username != "."
    ensures SlashJoin(Join(baseDir, username), name) == Join(Join(baseDir, username), name)
  {
    var targetDir := Join(baseDir, username);
    assert targetDir != "" && targetDir != "." by {
      if baseDir != "" && baseDir != "." {
        assert |targetDir| > 1;
      }
    }
    JoinAgreesWithSlashJoin(targetDir, name);
  }

  /** One cloning round: the attempt number, the repositories, and the filesystem before it. */
  type Round = (nat, seq<Repository>, FileSystem) -> Result<FileSystem, string>

  /** The probe after a round: the repositories still to clone, and the filesystem it leaves. */
  type Probe = (seq<Repository>, FileSystem) -> (seq<Repository>, FileSystem)

  /** The probe the program runs: `getFailedRepositories` for this user and base directory. */
  function ProgramProbe(username: string, baseDir: string): Probe {
    (repos: seq<Repository>, fs: FileSystem) => GetFailedRepositories(repos, username, baseDir, fs)
  }

  /** What one round of the retry loop did, and the probe that followed it, if any. */
  datatype RoundRecord = RoundRecord(
    attempt: nat,
    cloned: seq<Repository>,
    before: FileSystem,
    outcome: Result<FileSystem, string>,
    probed: Option<seq<Repository>>)

  datatype RetryRun = RetryRun(error: Option<string>, fs: FileSystem, rounds: seq<RoundRecord>)

  /** The number of rounds left from `attempt` on, out of `maxRetries`. */
  function RoundsLeft(attempt: int, maxRetries: int): nat {
    if maxRetries < attempt then 0 else maxRetries - attempt + 1
  }

  /**
   * A record tells the truth about its round: the outcome is what the round
   * returned, and the probe ran exactly after a successful round before the
   * last, reporting what `getFailedRepositories` reports.
   */
  predicate RecordHolds(rec: RoundRecord, maxRetries: int, round: Round, probe: Probe) {
    && rec.outcome == round(rec.attempt, rec.cloned, rec.before)
    && (rec.probed.Some? <==> rec.outcome.Ok? && rec.attempt < maxRetries)
    && (rec.probed.Some? ==> rec.probed.value == probe(rec.cloned, rec.outcome.value).0)
  }

  /**
   * Round `next` is the retry of round `prev`: the next attempt number, on the
   * non-empty set the probe reported, starting from the filesystem the probe left.
   */
  predicate Follows(prev: RoundRecord, next: RoundRecord, probe: Probe) {
    && prev.outcome.Ok?
    && next.attempt == prev.attempt + 1
    && prev.probed == Some(next.cloned)
    && |next.cloned| > 0
    && next.before == probe(prev.cloned, prev.outcome.value).1
  }

  /**
   * The loop of `CloneRepositoriesWithRetry` from `attempt` on: the first
   * attempt clones `repos`, later ones the repositories the previous probe
   * reported (stopping when there are none); an error ends the loop; the
   * probe runs only after rounds before the last.
   */
  function RetryFrom(attempt: nat, maxRetries: int, repos: seq<Repository>, failed: seq<Repository>,
                     fs: FileSystem, round: Round, probe: Probe): (r: RetryRun)
    requires attempt >= 1
    ensures |r.rounds| <= RoundsLeft(attempt, maxRetries)
    ensures |r.rounds| > 0 ==> r.rounds[0].attempt == attempt
    ensures |r.rounds| > 0 ==> r.rounds[0].cloned == (if attempt > 1 then failed else repos) && r.rounds[0].before == fs
    ensures |r.rounds| > 0 && attempt > 1 ==> |failed| > 0
    ensures r.error.Some? <==> |r.rounds| > 0 && r.rounds[|r.rounds| - 1].outcome.Err?
    ensures r.error.Some? ==> r.error.value == r.rounds[|r.rounds| - 1].outcome.error
    decreases RoundsLeft(attempt, maxRetries)
  {
    if attempt > maxRetries then RetryRun(None, fs, [])
    else if attempt > 1 && |failed| == 0 then RetryRun(None, fs, [])
    else
      var toClone := if attempt > 1 then failed else repos;
      match round(attempt, toClone, fs)
      case Err(e) => RetryRun(Some(e), fs, [RoundRecord(attempt, toClone, fs, Err(e), None)])
      case Ok(after) =>
        if attempt < maxRetries then
          var (stillMissing, probedFs) := probe(toClone, after);
          var head := RoundRecord(attempt, toClone, fs, Ok(after), Some(stillMissing));
          var rest := RetryFrom(attempt + 1, maxRetries, repos, stillMissing, probedFs, round, probe);
          RetryRun(rest.error, rest.fs, [head] + rest.rounds)
        else RetryRun(None, after, [RoundRecord(attempt, toClone, fs, Ok(after), None)])
  }

  /** The first record of a run that cloned and probed, and the run that followed it. */
  lemma RetryFromUnfold(attempt: nat, maxRetries: int, repos: seq<Repository>, failed: seq<Repository>,
                        fs: FileSystem, round: Round, probe: Probe)
    returns (head: RoundRecord, rest: RetryRun)
    requires attempt >= 1 && attempt < maxRetries && (attempt == 1 || |failed| > 0)
    requires round(attempt, if attempt > 1 then failed else repos, fs).Ok?
    ensures var toClone := if attempt > 1 then failed else repos;
            var after := round(attempt, toClone, fs).value;
            var probed := probe(toClone, after);
            && head == RoundRecord(attempt, toClone, fs, Ok(after), Some(probed.0))
            && rest == RetryFrom(attempt + 1, maxRetries, repos, probed.0, probed.1, round, probe)
    ensures var r := RetryFrom(attempt, maxRetries, repos, failed, fs, round, probe);
            && r.rounds == [head] + rest.rounds
            && r.error == rest.error
  {
    var toClone := if attempt > 1 then failed else repos;
    var after := round(attempt, toClone, fs).value;
    var probed := probe(toClone, after);
    head := RoundRecord(attempt, toClone, fs, Ok(after), Some(probed.0));
    rest := RetryFrom(attempt + 1, maxRetries, repos, probed.0, probed.1, round, probe);
  }

  /** Record `i` of a run tells the truth about its round and the probe after it. */
  lemma {:induction false} RetryFromRecord(attempt: nat, maxRetries: int, repos: seq<Repository>, failed: seq<Repository>,
                                           fs: FileSystem, round: Round, probe: Probe, i: int)
    requires attempt >= 1
    requires 0 <= i < |RetryFrom(attempt, maxRetries, repos, failed, fs, round, probe).rounds|
    ensures RecordHolds(RetryFrom(attempt, maxRetries, repos, failed, fs, round, probe).rounds[i], maxRetries, round, probe)
    decreases i
  {
    var toClone := if attempt > 1 then failed else repos;
    if i == 0 {
      RetryFromFirstRecord(attempt, maxRetries, repos, failed, fs, round, probe);
    } else if attempt < maxRetries && (attempt == 1 || |failed| > 0) && round(attempt, toClone, fs).Ok? {
      var probed := probe(toClone, round(attempt, toClone, fs).value);
      var head, rest := RetryFromUnfold(attempt, maxRetries, repos, failed, fs, round, probe);
      RetryFromRecord(attempt + 1, maxRetries, repos, probed.0, probed.1, round, probe, i - 1);
      assert ([head] + rest.rounds)[i] == rest.rounds[i - 1];
    } else {
      RetryFromSingle(attempt, maxRetries, repos, failed, fs, round, probe);
    }
  }

  /** The first record of a run tells the truth about its round. */
  lemma RetryFromFirstRecord(attempt: nat, maxRetries: int, repos: seq<Repository>, failed: seq<Repository>,
                             fs: FileSystem, round: Round, probe: Probe)
    requires attempt >= 1
    requires |RetryFrom(attempt, maxRetries, repos, failed, fs, round, probe).rounds| > 0
    ensures RecordHolds(RetryFrom(attempt, maxRetries, repos, failed, fs, round, probe).rounds[0], maxRetries, round, probe)
  {
  }

  /** A run that does not go on to a probed retry has at most one round. */
  lemma RetryFromSingle(attempt: nat, maxRetries: int, repos: seq<Repository>, failed: seq<Repository>,
                        fs: FileSystem, round: Round, probe: Probe)
    requires attempt >= 1
    requires var toClone := if attempt > 1 then failed else repos;
             !(attempt < maxRetries && (attempt == 1 || |failed| > 0) && round(attempt, toClone, fs).Ok?)
    ensures |RetryFrom(attempt, maxRetries, repos, failed, fs, round, probe).rounds| <= 1
  {
  }

  /** Every record of a run tells the truth about its round and the probe after it. */
  lemma {:induction false} RetryFromRecords(attempt: nat, maxRetries: int, repos: seq<Repository>, failed: seq<Repository>,
                         fs: FileSystem, round: Round, probe: Probe)
    requires attempt >= 1
    ensures var r := RetryFrom(attempt, maxRetries, repos, failed, fs, round, probe);
            forall i :: 0 <= i < |r.rounds| ==> RecordHolds(r.rounds[i], maxRetries, round, probe)
  {
    var r := RetryFrom(attempt, maxRetries, repos, failed, fs, round, probe);
    forall i | 0 <= i < |r.rounds| ensures RecordHolds(r.rounds[i], maxRetries, round, probe) {
      RetryFromRecord(attempt, maxRetries, repos, failed, fs, round, probe, i);
    }
  }

  /** Each round after the first retries exactly what the probe after the previous one reported. */
  lemma {:induction false} RetryFromFollows(attempt: nat, maxRetries: int, repos: seq<Repository>, failed: seq<Repository>,
                                            fs: FileSystem, round: Round, probe: Probe)
    requires attempt >= 1
    ensures var r := RetryFrom(attempt, maxRetries, repos, failed, fs, round, probe);
            forall i :: 0 <= i < |r.rounds| - 1 ==> Follows(r.rounds[i], r.rounds[i + 1], probe)
    decreases RoundsLeft(attempt, maxRetries)
  {
    var toClone := if attempt > 1 then failed else repos;
    if attempt < maxRetries && (attempt == 1 || |failed| > 0) && round(attempt, toClone, fs).Ok? {
      var probed := probe(toClone, round(attempt, toClone, fs).value);
      var head, rest := RetryFromUnfold(attempt, maxRetries, repos, failed, fs, round, probe);
      RetryFromFollows(attempt + 1, maxRetries, repos, probed.0, probed.1, round, probe);
      var rounds := [head] + rest.rounds;
      forall i | 0 <= i < |rounds| - 1
        ensures Follows(rounds[i], rounds[i + 1], probe)
      {
        if i > 0 {
          assert rounds[i] == rest.rounds[i - 1] && rounds[i + 1] == rest.rounds[i];
        } else {
          assert rounds[1] == rest.rounds[0];
        }
      }
    }
  }

  /** `CloneRepositoriesWithRetry` for any round function. */
  function CloneRepositoriesWithRetry(repos: seq<Repository>, username: string, cfg: Config.Config, fs: FileSystem, round: Round)
    : (r: RetryRun)
    ensures |r.rounds| <= (if cfg.retryAttempts < 0 then 0 else cfg.retryAttempts)
    ensures cfg.retryAttempts <= 0 ==> r == RetryRun(None, fs, [])
    ensures cfg.retryAttempts > 0 ==> |r.rounds| > 0 && r.rounds[0].cloned == repos && r.rounds[0].attempt == 1
  {
    RetryFrom(1, cfg.retryAttempts, repos, [], fs, round, ProgramProbe(username, cfg.baseDir))
  }

  /** The program's probe only ever drops repositories, keeping the rest in order. */
  lemma ProgramProbeShrinks(username: string, baseDir: string, repos: seq<Repository>, fs: FileSystem)
    ensures IsSubsequence(ProgramProbe(username, baseDir)(repos, fs).0, repos)
  {
    assert ProgramProbe(username, baseDir)(repos, fs) == GetFailedRepositories(repos, username, baseDir, fs);
  }

  /**
   * The loop ends early only for a reason: an empty failed set on entry, a
   * round that failed, or a probe that found nothing left to clone. A probed
   * last round always found nothing.
   */
  lemma {:induction false} RetryFromStops(attempt: nat, maxRetries: int, repos: seq<Repository>, failed: seq<Repository>,
                                          fs: FileSystem, round: Round, probe: Probe)
    requires attempt >= 1
    ensures var rounds := RetryFrom(attempt, maxRetries, repos, failed, fs, round, probe).rounds;
            |rounds| > 0 && rounds[|rounds| - 1].probed.Some? ==> rounds[|rounds| - 1].probed.value == []
    ensures var rounds := RetryFrom(attempt, maxRetries, repos, failed, fs, round, probe).rounds;
            |rounds| < RoundsLeft(attempt, maxRetries) ==>
              (|rounds| == 0 && attempt > 1 && |failed| == 0)
              || (|rounds| > 0 && (rounds[|rounds| - 1].outcome.Err? || rounds[|rounds| - 1].probed == Some([])))
    decreases RoundsLeft(attempt, maxRetries)
  {
    var toClone := if attempt > 1 then failed else repos;
    if attempt < maxRetries && (attempt == 1 || |failed| > 0) && round(attempt, toClone, fs).Ok? {
      var probed := probe(toClone, round(attempt, toClone, fs).value);
      var head, rest := RetryFromUnfold(attempt, maxRetries, repos, failed, fs, round, probe);
      RetryFromStops(attempt + 1, maxRetries, repos, probed.0, probed.1, round, probe);
      var rounds := [head] + rest.rounds;
      if |rest.rounds| > 0 {
        assert rounds[|rounds| - 1] == rest.rounds[|rest.rounds| - 1];
      }
    }
  }

  /** With a probe that only drops repositories, each round clones a subsequence of the round before. */
  lemma RetryFromShrinks(attempt: nat, maxRetries: int, repos: seq<Repository>, failed: seq<Repository>,
                         fs: FileSystem, round: Round, probe: Probe, i: int)
    requires attempt >= 1
    requires forall rs, f :: IsSubsequence(probe(rs, f).0, rs)
    requires 0 < i < |RetryFrom(attempt, maxRetries, repos, failed, fs, round, probe).rounds|
    ensures var rounds := RetryFrom(attempt, maxRetries, repos, failed, fs, round, probe).rounds;
            IsSubsequence(rounds[i].cloned, rounds[i - 1].cloned)
  {
    var rounds := RetryFrom(attempt, maxRetries, repos, failed, fs, round, probe).rounds;
    RetryFromRecords(attempt, maxRetries, repos, failed, fs, round, probe);
    RetryFromFollows(attempt, maxRetries, repos, failed, fs, round, probe);
    var prev, cur := rounds[i - 1], rounds[i];
    assert Follows(prev, cur, probe);
    assert cur.cloned == probe(prev.cloned, prev.outcome.value).0;
  }

  /** Each retry round of the program clones a subsequence of what the round before it cloned. */
  lemma RetriesShrink(repos: seq<Repository>, username: string, cfg: Config.Config, fs: FileSystem, round: Round, i: int)
    ensures var rounds := CloneRepositoriesWithRetry(repos, username, cfg, fs, round).rounds;
            0 < i < |rounds| ==> IsSubsequence(rounds[i].cloned, rounds[i - 1].cloned)
  {
    var rounds := CloneRepositoriesWithRetry(repos, username, cfg, fs, round).rounds;
    if !(0 < i < |rounds|) {
      return;
    }
    var probe := ProgramProbe(username, cfg.baseDir);
    forall rs, f
      ensures IsSubsequence(probe(rs, f).0, rs)
    {
      ProgramProbeShrinks(username, cfg.baseDir, rs, f);
    }
    RetryFromShrinks(1, cfg.retryAttempts, repos, [], fs, round, probe, i);
  }

  /** The round the program runs: `CloneRepositories` with the configuration's base directory. */
  function ProgramRound(username: string, baseDir: string, gitInstalled: bool, git: GitClone): Round {
    (attempt: nat, repos: seq<Repository>, fs: FileSystem) => CloneRepositories(repos, username, baseDir, gitInstalled, fs, git)
  }

  /** Without git the first round fails and nothing is retried. */
  lemma {:induction false} MissingGitStopsAtFirstRound(repos: seq<Repository>, username: string, cfg: Config.Config, fs: FileSystem, git: GitClone)
    requires |repos| > 0 && cfg.retryAttempts > 0
    ensures var r := CloneRepositoriesWithRetry(repos, username, cfg, fs, ProgramRound(username, cfg.baseDir, false, git));
            |r.rounds| == 1 && r.error == Some("git is not installed or not available in PATH") && r.fs == fs
  {
  }

  /** An empty list fails the first round with "no repositories to clone". */
  lemma EmptyListFails(username: string, cfg: Config.Config, fs: FileSystem, gitInstalled: bool, git: GitClone)
    requires cfg.retryAttempts > 0
    ensures CloneRepositoriesWithRetry([], username, cfg, fs, ProgramRound(username, cfg.baseDir, gitInstalled, git)).error
            == Some("no repositories to clone")
  {
  }

  /** What the tracker is told about one repository during an update pass. */
  function UpdateEvents(repo: Repository, error: Option<string>): (events: seq<Event>)
    ensures |events| == 2 && events[0] == Updated("Updating " + repo.name + "...")
    ensures IsOutcome(events[1]) && events[1].name == repo.name
    ensures events[1].Succeeded? <==> error.None?
  {
    [Updated("Updating " + repo.name + "..."),
     if error.Some? then Failed(repo.name, error.value) else Succeeded(repo.name)]
  }

  /** Pull each repository in turn under `targetDir`, reporting each one. */
  function UpdateEach(fs: FileSystem, repos: seq<Repository>, targetDir: string, pull: GitPull): (r: (seq<Event>, FileSystem))
    ensures |r.0| == 2 * |repos|
    decreases |repos|
  {
    if |repos| == 0 then ([], fs)
    else
      var (error, next) := UpdateRepository(fs, SlashJoin(targetDir, repos[0].name), pull);
      var (rest, last) := UpdateEach(next, repos[1..], targetDir, pull);
      (UpdateEvents(repos[0], error) + rest, last)
  }

  /** The filesystem the update pass leaves after repository `i` is the one its pull left. */
  lemma {:induction false} UpdateEachThreads(fs: FileSystem, repos: seq<Repository>, targetDir: string, pull: GitPull, i: int)
    requires 0 <= i < |repos|
    ensures var before := UpdateEach(fs, repos[..i], targetDir, pull).1;
            UpdateEach(fs, repos[..i + 1], targetDir, pull).1 == UpdateRepository(before, SlashJoin(targetDir, repos[i].name), pull).1
    decreases i
  {
    var next := UpdateRepository(fs, SlashJoin(targetDir, repos[0].name), pull).1;
    var tail := repos[1..];
    if i == 0 {
      assert repos[..0] == [];
      assert repos[..1][1..] == [];
    } else {
      UpdateEachThreads(next, tail, targetDir, pull, i - 1);
      assert repos[..i][0] == repos[0] && repos[..i][1..] == tail[..i - 1];
      assert UpdateEach(fs, repos[..i], targetDir, pull).1 == UpdateEach(next, tail[..i - 1], targetDir, pull).1;
      assert repos[..i + 1][0] == repos[0] && repos[..i + 1][1..] == tail[..i];
      assert tail[i - 1] == repos[i];
    }
  }

  /**
   * Repository `i` is pulled at its own path on the filesystem the updates
   * before it left, and is reported as updated exactly when `UpdateRepository`
   * returned no error there.
   */
  lemma {:induction false} UpdateEachAt(fs: FileSystem, repos: seq<Repository>, targetDir: string, pull: GitPull, i: int)
    requires 0 <= i < |repos|
    ensures var before := UpdateEach(fs, repos[..i], targetDir, pull).1;
            var error := UpdateRepository(before, SlashJoin(targetDir, repos[i].name), pull).0;
            UpdateEach(fs, repos, targetDir, pull).0[2 * i + 1] == UpdateEvents(repos[i], error)[1]
    decreases i
  {
    var (error, next) := UpdateRepository(fs, SlashJoin(targetDir, repos[0].name), pull);
    var tail := repos[1..];
    var events := UpdateEach(fs, repos, targetDir, pull).0;
    var rest := UpdateEach(next, tail, targetDir, pull).0;
    assert events == UpdateEvents(repos[0], error) + rest;
    if i == 0 {
      assert repos[..0] == [];
    } else {
      UpdateEachAt(next, tail, targetDir, pull, i - 1);
      assert events[2 * i + 1] == rest[2 * (i - 1) + 1];
      assert repos[..i][0] == repos[0] && repos[..i][1..] == tail[..i - 1];
      assert UpdateEach(fs, repos[..i], targetDir, pull).1 == UpdateEach(next, tail[..i - 1], targetDir, pull).1;
      assert tail[i - 1] == repos[i];
    }
  }

  /** The events of an update pass come in pairs, one pair per repository, in list order. */
  lemma {:induction false} UpdateEachInOrder(fs: FileSystem, repos: seq<Repository>, targetDir: string, pull: GitPull, i: int)
    requires 0 <= i < |repos|
    ensures var events := UpdateEach(fs, repos, targetDir, pull).0;
            && events[2 * i] == Updated("Updating " + repos[i].name + "...")
            && IsOutcome(events[2 * i + 1]) && events[2 * i + 1].name == repos[i].name
    decreases |repos|
  {
    var (error, next) := UpdateRepository(fs, SlashJoin(targetDir, repos[0].name), pull);
    var rest := UpdateEach(next, repos[1..], targetDir, pull).0;
    var events := UpdateEach(fs, repos, targetDir, pull).0;
    assert events == UpdateEvents(repos[0], error) + rest;
    if i > 0 {
      UpdateEachInOrder(next, repos[1..], targetDir, pull, i - 1);
      assert events[2 * i] == rest[2 * (i - 1)];
      assert events[2 * i + 1] == rest[2 * (i - 1) + 1];
    }
  }

  /** Every repository of an update pass is reported exactly once as a success or a failure. */
  lemma {:induction false} UpdateEachReportsEach(fs: FileSystem, repos: seq<Repository>, targetDir: string, pull: GitPull)
    ensures CountIf(UpdateEach(fs, repos, targetDir, pull).0, IsOutcome) == |repos|
    decreases |repos|
  {
    if |repos| > 0 {
      var (error, next) := UpdateRepository(fs, SlashJoin(targetDir, repos[0].name), pull);
      UpdateEachReportsEach(next, repos[1..], targetDir, pull);
      var head := UpdateEvents(repos[0], error);
      CountIfAppend(head, UpdateEach(next, repos[1..], targetDir, pull).0, IsOutcome);
      assert head[1..][1..] == [];
    }
  }

  /**
   * `UpdateRepositories`: a target directory that cannot be made is the only
   * error; otherwise every repository is pulled and reported, and the pass
   * succeeds whatever the pulls did.
   */
  function UpdateRepositories(repos: seq<Repository>, username: string, baseDir: string, fs: FileSystem, pull: GitPull)
    : (r: (Option<string>, FileSystem, seq<Event>))
    ensures r.0.None? <==> PrepareTargetDirectory(fs, username, baseDir).1.None?
    ensures r.0.Some? ==> r.0 == PrepareTargetDirectory(fs, username, baseDir).1 && r.1 == fs && r.2 == []
    ensures r.0.None? ==> |r.2| == 2 * |repos|
    ensures r.0.None? ==> var (targetDir, _, prepared) := PrepareTargetDirectory(fs, username, baseDir);
                          (r.2, r.1) == UpdateEach(prepared, repos, targetDir, pull)
  {
    var (targetDir, error, prepared) := PrepareTargetDirectory(fs, username, baseDir);
    if error.Some? then (error, fs, [])
    else
      var (events, after) := UpdateEach(prepared, repos, targetDir, pull);
      (None, after, events)
  }

  /**
   * In a pass that could prepare its directory, repository `i`'s report is
   * the outcome of pulling it at `<target>/<name>` on the filesystem the
   * earlier pulls left: updated exactly when that pull returned no error.
   */
  lemma UpdateRepositoriesReports(repos: seq<Repository>, username: string, baseDir: string, fs: FileSystem, pull: GitPull, i: int)
    ensures var r := UpdateRepositories(repos, username, baseDir, fs, pull);
            var (targetDir, _, prepared) := PrepareTargetDirectory(fs, username, baseDir);
            r.0.None? && 0 <= i < |repos| ==>
              var before := UpdateEach(prepared, repos[..i], targetDir, pull).1;
              r.2[2 * i + 1] == UpdateEvents(repos[i], UpdateRepository(before, SlashJoin(targetDir, repos[i].name), pull).0)[1]
  {
    var (targetDir, _, prepared) := PrepareTargetDirectory(fs, username, baseDir);
    if UpdateRepositories(repos, username, baseDir, fs, pull).0.None? && 0 <= i < |repos| {
      UpdateEachAt(prepared, repos, targetDir, pull, i);
    }
  }

  /** After a successful update pass the tracker has counted every repository once. */
  lemma UpdateRepositoriesCountsEach(repos: seq<Repository>, username: string, baseDir: string, fs: FileSystem, pull: GitPull)
    ensures var r := UpdateRepositories(repos, username, baseDir, fs, pull);
            var p := ApplyAll(NewTracker(|repos|), r.2);
            r.0.None? ==> p.completed + p.failed == |repos| && p.total == |repos|
  {
    if UpdateRepositories(repos, username, baseDir, fs, pull).0.Some? {
      return;
    }
    var (targetDir, _, prepared) := PrepareTargetDirectory(fs, username, baseDir);
    UpdateEachReportsEach(prepared, repos, targetDir, pull);
    OutcomesCounted(|repos|, UpdateRepositories(repos, username, baseDir, fs, pull).2);
  }
}
