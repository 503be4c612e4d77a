/**
 * The git executor (internal/cloner/git.go) over an abstract filesystem: a
 * map from path to directory or file. What `git clone` or `git pull` does is
 * not modelled; each run is an opaque outcome supplied by the caller.
 */
module Git {
  import opened Results
  import opened Text

  datatype Entry = Dir | File

  /** Every path that exists, and what it is. */
  type FileSystem = map<string, Entry>

  /** What one git command did: its error, if any, and the filesystem it left. */
  datatype GitRun = GitRun(error: Option<string>, after: FileSystem)

  /** `git clone <url> <path>` run against the current filesystem. */
  type GitClone = (string, string, FileSystem) -> GitRun

  /** `git -C <path> pull --ff-only` run against the current filesystem. */
  type GitPull = (string, FileSystem) -> GitRun

  /**
   * `filepath.Join` of a directory and one name, for the inputs the program
   * builds: an empty or "." directory contributes nothing.
   */
  function Join(dir: string, name: string): (p: string)
    ensures dir != "" && dir != "." ==> p == dir + "/" + name
    ensures dir == "" || dir == "." ==> p == name
  {
    if dir == "" || dir == "." then name else dir + "/" + name
  }

  /** `fmt.Sprintf("%s/%s", dir, name)`, the other way the program builds a repository path. */
  function SlashJoin(dir: string, name: string): (p: string)
    ensures |p| == |dir| + 1 + |name| && p[|dir|] == '/'
    ensures p[..|dir|] == dir && p[|dir| + 1..] == name
  {
    dir + "/" + name
  }

  /** The two spellings agree except on an empty or "." directory. */
  lemma JoinAgreesWithSlashJoin(dir: string, name: string)
    ensures Join(dir, name) == SlashJoin(dir, name) <==> dir != "" && dir != "."
  {
    if dir == "" || dir == "." {
      assert |SlashJoin(dir, name)| > |name|;
    }
  }

  /** `p` lies strictly inside the directory `root`. */
  predicate Under(p: string, root: string) {
    |p| > |root| && p[|root|] == '/' && p[..|root|] == root
  }

  /** `p` is `root` itself or lies inside it. */
  predicate InTree(p: string, root: string) {
    p == root || Under(p, root)
  }

  /** `os.RemoveAll`: the path and everything beneath it disappear; nothing else changes. */
  function RemoveAll(fs: FileSystem, root: string): (r: FileSystem)
    ensures forall p :: p in r ==> !InTree(p, root)
    ensures forall p :: p in fs && !InTree(p, root) ==> p in r && r[p] == fs[p]
    ensures forall p :: p in r ==> p in fs
  {
    map p | p in fs && !InTree(p, root) :: fs[p]
  }

  /** Removing a tree that is not there changes nothing. */
  lemma RemoveAllAbsent(fs: FileSystem, root: string)
    requires forall p :: p in fs ==> !InTree(p, root)
    ensures RemoveAll(fs, root) == fs
  {
  }

  /** The positions where a path can be cut into a directory prefix: before each '/', and at its end. */
  predicate IsCut(p: string, k: int) {
    0 < k <= |p| && (k == |p| || p[k] == '/')
  }

  /** The directories `os.MkdirAll(p)` must find or create: every '/'-bounded prefix of `p`, `p` included. */
  function DirPrefixes(p: string): (r: set<string>)
    ensures p != "" ==> p in r
    ensures forall q :: q in r ==> 0 < |q| <= |p| && q == p[..|q|]
  {
    assert p != "" ==> IsCut(p, |p|) && p[..|p|] == p;
    set k | 0 <= k <= |p| && IsCut(p, k) :: p[..k]
  }

  /** No directory prefix of `p` is a file. */
  predicate PrefixesAreDirs(fs: FileSystem, p: string) {
    forall q :: q in DirPrefixes(p) && q in fs ==> fs[q] == Dir
  }

  /** Add each of `dirs` that is missing as a directory; existing entries are kept as they are. */
  function AddDirs(fs: FileSystem, dirs: set<string>): (r: FileSystem)
    ensures forall q :: q in fs ==> q in r && r[q] == fs[q]
    ensures forall q :: q in dirs && q !in fs ==> q in r && r[q] == Dir
    ensures forall q :: q in r ==> q in fs || q in dirs
  {
    map q | q in fs.Keys + dirs :: if q in fs then fs[q] else Dir
  }

  /**
   * `os.MkdirAll`: fails on an empty path or when some prefix is a file;
   * otherwise creates every missing prefix as a directory and keeps everything
   * that was there.
   */
  function MkdirAll(fs: FileSystem, p: string): (r: Result<FileSystem, string>)
    ensures r.Ok? <==> p != "" && PrefixesAreDirs(fs, p)
    ensures r.Ok? ==> p in r.value && r.value[p] == Dir
    ensures r.Ok? ==> forall q :: q in DirPrefixes(p) ==> q in r.value && r.value[q] == Dir
    ensures r.Ok? ==> forall q :: q in fs ==> q in r.value && r.value[q] == fs[q]
    ensures r.Ok? ==> forall q :: q in r.value ==> q in fs || q in DirPrefixes(p)
    ensures r.Err? ==> r.error == "mkdir " + p + ": " + (if p == "" then "no such file or directory" else "not a directory")
  {
    if p == "" || !PrefixesAreDirs(fs, p) then
      Err("mkdir " + p + ": " + (if p == "" then "no such file or directory" else "not a directory"))
    else Ok(AddDirs(fs, DirPrefixes(p)))
  }

  /** Creating a directory tree a second time changes nothing. */
  lemma MkdirAllIdempotent(fs: FileSystem, p: string)
    requires MkdirAll(fs, p).Ok?
    ensures MkdirAll(MkdirAll(fs, p).value, p) == MkdirAll(fs, p)
  {
    var f1 := MkdirAll(fs, p).value;
    assert PrefixesAreDirs(f1, p);
    var f2 := MkdirAll(f1, p).value;
    assert f2 == f1;
  }

  /**
   * `CloneRepository`: refuse a path that already exists; otherwise run the
   * clone and, when it fails, remove whatever it left at the path.
   */
  function CloneRepository(fs: FileSystem, url: string, name: string, targetDir: string, git: GitClone)
    : (r: (Option<string>, FileSystem))
    ensures var path := Join(targetDir, name);
            path in fs ==> r == (Some("directory already exists: " + path), fs)
    ensures var path := Join(targetDir, name);
            r.0.None? <==> path !in fs && git(url, path, fs).error.None?
    ensures var path := Join(targetDir, name);
            r.0.None? ==> r.1 == git(url, path, fs).after
    ensures var path := Join(targetDir, name);
            path !in fs && git(url, path, fs).error.Some? ==>
              r.0 == Some("git clone failed: " + git(url, path, fs).error.value)
              && forall p :: p in r.1 ==> !InTree(p, path)
  {
    var path := Join(targetDir, name);
    if path in fs then (Some("directory already exists: " + path), fs)
    else
      var run := git(url, path, fs);
      if run.error.Some? then (Some("git clone failed: " + run.error.value), RemoveAll(run.after, path))
      else (None, run.after)
  }

  /**
   * A failed clone that wrote only under its own path leaves the filesystem
   * exactly as it found it.
   */
  lemma FailedCloneRestores(fs: FileSystem, url: string, name: string, targetDir: string, git: GitClone)
    requires var path := Join(targetDir, name);
             && (forall p :: p in fs ==> !InTree(p, path))
             && git(url, path, fs).error.Some?
             && (forall p :: !InTree(p, path) ==> (p in git(url, path, fs).after <==> p in fs))
             && (forall p :: p in fs ==> git(url, path, fs).after[p] == fs[p])
    ensures CloneRepository(fs, url, name, targetDir, git).1 == fs
  {
    var path := Join(targetDir, name);
    var after := git(url, path, fs).after;
    assert path !in fs;
    assert RemoveAll(after, path) == fs;
  }

  /** `UpdateRepository`: refuse a path without `.git`; otherwise run the pull. */
  function UpdateRepository(fs: FileSystem, repoPath: string, pull: GitPull): (r: (Option<string>, FileSystem))
    ensures Join(repoPath, ".git") !in fs ==> r == (Some("not a git repository: " + repoPath), fs)
    ensures r.0.None? <==> Join(repoPath, ".git") in fs && pull(repoPath, fs).error.None?
    ensures Join(repoPath, ".git") in fs ==> r.1 == pull(repoPath, fs).after
    ensures Join(repoPath, ".git") in fs && pull(repoPath, fs).error.Some? ==>
              r.0 == Some("git pull failed: " + pull(repoPath, fs).error.value)
  {
    if Join(repoPath, ".git") !in fs then (Some("not a git repository: " + repoPath), fs)
    else
      var run := pull(repoPath, fs);
      if run.error.Some? then (Some("git pull failed: " + run.error.value), run.after)
      else (None, run.after)
  }

  /**
   * `PrepareTargetDirectory`: create `baseDir/username`; on success return that
   * path, otherwise "" and the wrapped error.
   */
  function PrepareTargetDirectory(fs: FileSystem, username: string, baseDir: string)
    : (r: (string, Option<string>, FileSystem))
    ensures r.1.None? <==> MkdirAll(fs, Join(baseDir, username)).Ok?
    ensures r.1.None? ==> r.0 == Join(baseDir, username) && r.0 in r.2 && r.2[r.0] == Dir
    ensures r.1.None? ==> forall q :: q in fs ==> q in r.2 && r.2[q] == fs[q]
    ensures r.1.Some? ==> r.0 == "" && r.2 == fs
    ensures r.1.Some? ==> r.1.value == "failed to create target directory: " + MkdirAll(fs, Join(baseDir, username)).error
  {
    var target := Join(baseDir, username);
    match MkdirAll(fs, target)
    case Err(e) => ("", Some("failed to create target directory: " + e), fs)
    case Ok(after) => (target, None, after)
  }

  /** Preparing the same directory twice returns the same path and changes nothing the second time. */
  lemma PrepareTargetDirectoryIdempotent(fs: FileSystem, username: string, baseDir: string)
    requires PrepareTargetDirectory(fs, username, baseDir).1.None?
    ensures var first := PrepareTargetDirectory(fs, username, baseDir);
            PrepareTargetDirectory(first.2, username, baseDir) == first
  {
    MkdirAllIdempotent(fs, Join(baseDir, username));
  }

  datatype LocalRepoInfo = LocalRepoInfo(path: string, present: bool, isGitRepo: bool)

  /** `GetRepositoryInfo`: never fails; reports whether the path is a directory and whether it holds `.git`. */
  function GetRepositoryInfo(fs: FileSystem, repoPath: string): (r: (LocalRepoInfo, Option<string>))
    ensures r.1.None? && r.0.path == repoPath
    ensures r.0.present <==> repoPath in fs && fs[repoPath] == Dir
    ensures r.0.isGitRepo ==> r.0.present
    ensures r.0.isGitRepo <==> r.0.present && Join(repoPath, ".git") in fs
  {
    var present := repoPath in fs && fs[repoPath] == Dir;
    (LocalRepoInfo(repoPath, present, present && Join(repoPath, ".git") in fs), None)
  }

  /** After a failed clone the probe finds nothing at the repository path. */
  lemma FailedCloneProbedMissing(fs: FileSystem, url: string, name: string, targetDir: string, git: GitClone)
    requires CloneRepository(fs, url, name, targetDir, git).0.Some?
    requires Join(targetDir, name) !in fs
    ensures !GetRepositoryInfo(CloneRepository(fs, url, name, targetDir, git).1, Join(targetDir, name)).0.present
  {
  }

  /** A clone whose git run left a directory with `.git` is probed as a git repository. */
  lemma SuccessfulCloneProbedPresent(fs: FileSystem, url: string, name: string, targetDir: string, git: GitClone)
    requires CloneRepository(fs, url, name, targetDir, git).0.None?
    requires var after := git(url, Join(targetDir, name), fs).after;
             var path := Join(targetDir, name);
             path in after && after[path] == Dir && Join(path, ".git") in after
    ensures GetRepositoryInfo(CloneRepository(fs, url, name, targetDir, git).1, Join(targetDir, name)).0.isGitRepo
  {
  }

  /** An existing repository directory is refused by a clone and accepted by an update's `.git` check. */
  lemma ExistingRepositoryNotRecloned(fs: FileSystem, url: string, name: string, targetDir: string, git: GitClone, pull: GitPull)
    requires GetRepositoryInfo(fs, Join(targetDir, name)).0.isGitRepo
    ensures CloneRepository(fs, url, name, targetDir, git).1 == fs
    ensures CloneRepository(fs, url, name, targetDir, git).0.Some?
    ensures UpdateRepository(fs, Join(targetDir, name), pull).0.None? <==> pull(Join(targetDir, name), fs).error.None?
  {
  }
}
