/**
 * The decision helpers of run.go that turn the saved configuration and the
 * command-line flags into the skills root, the project path and the install
 * mode: defaulting of blank settings, their resolution, the normalisation
 * of a repository name into a clone URL, and the precedence of flags.
 */
module Settings {
  import opened Wrappers
  import opened Text
  import Install

  /** The four settings of the configuration file. */
  datatype AppConfig = AppConfig(skillRepoPath: string, projectChoice: string, projectPath: string, installMode: string)

  const Bundled: string := "bundled"
  const Cwd: string := "cwd"
  const Skip: string := "skip"
  const Custom: string := "custom"

  /**
   * `withDefaultConfig`: a blank skills source becomes "bundled" when a
   * bundled root is known and "cwd" otherwise, a blank project choice
   * "skip", a blank install mode "symlink"; the project path is trimmed
   * unless the choice is "custom".
   */
  function WithDefaultConfig(cfg: AppConfig, defaultRoot: string): (r: AppConfig)
    ensures !IsBlank(cfg.skillRepoPath) ==> r.skillRepoPath == cfg.skillRepoPath
    ensures !IsBlank(cfg.projectChoice) ==> r.projectChoice == cfg.projectChoice
    ensures !IsBlank(cfg.installMode) ==> r.installMode == cfg.installMode
    ensures IsBlank(cfg.skillRepoPath) ==> r.skillRepoPath == (if defaultRoot != "" then Bundled else Cwd)
    ensures IsBlank(cfg.projectChoice) ==> r.projectChoice == Skip
    ensures IsBlank(cfg.installMode) ==> r.installMode == Install.ModeSymlink
    ensures r.projectChoice != Custom ==> r.projectPath == TrimSpace(cfg.projectPath)
    ensures r.projectChoice == Custom ==> r.projectPath == cfg.projectPath
    ensures !IsBlank(r.skillRepoPath) && !IsBlank(r.projectChoice) && !IsBlank(r.installMode)
    ensures r.projectChoice != Custom ==> Trimmed(r.projectPath)
  {
    TrimSpaceOfTrimmed(Bundled);
    TrimSpaceOfTrimmed(Cwd);
    TrimSpaceOfTrimmed(Skip);
    TrimSpaceOfTrimmed(Install.ModeSymlink);
    var repo := if IsBlank(cfg.skillRepoPath) then (if defaultRoot != "" then Bundled else Cwd) else cfg.skillRepoPath;
    var choice := if IsBlank(cfg.projectChoice) then Skip else cfg.projectChoice;
    var mode := if IsBlank(cfg.installMode) then Install.ModeSymlink else cfg.installMode;
    var path := if choice != Custom then TrimSpace(cfg.projectPath) else cfg.projectPath;
    AppConfig(repo, choice, path, mode)
  }

  /** Filling in defaults twice is filling them in once. */
  lemma WithDefaultConfigIdempotent(cfg: AppConfig, defaultRoot: string)
    ensures WithDefaultConfig(WithDefaultConfig(cfg, defaultRoot), defaultRoot) == WithDefaultConfig(cfg, defaultRoot)
  {
    var once := WithDefaultConfig(cfg, defaultRoot);
    if once.projectChoice != Custom {
      TrimSpaceOfTrimmed(once.projectPath);
    }
  }

  /** `resolveProjectPath`: the working directory, the trimmed custom path, or no project. */
  function ResolveProjectPath(cfg: AppConfig, cwd: string): (r: string)
    ensures cfg.projectChoice == Cwd ==> r == cwd
    ensures cfg.projectChoice != Cwd ==> Trimmed(r)
    ensures cfg.projectChoice == Custom ==> r == TrimSpace(cfg.projectPath)
    ensures cfg.projectChoice != Cwd && cfg.projectChoice != Custom ==> r == ""
  {
    if cfg.projectChoice == Cwd then cwd
    else if cfg.projectChoice == Custom then TrimSpace(cfg.projectPath)
    else ""
  }

  /** `resolveInstallMode`: copy exactly when the setting is "copy" in any letter case. */
  function ResolveInstallMode(cfg: AppConfig): (m: string)
    ensures m == Install.ModeCopy || m == Install.ModeSymlink
    ensures m == Install.ModeCopy <==> EqualFold(cfg.installMode, Install.ModeCopy)
  {
    if EqualFold(cfg.installMode, Install.ModeCopy) then Install.ModeCopy else Install.ModeSymlink
  }

  /** A configuration without settings installs by symlink and without a project. */
  lemma EmptyConfigDefaults(defaultRoot: string, cwd: string)
    ensures ResolveInstallMode(WithDefaultConfig(AppConfig("", "", "", ""), defaultRoot)) == Install.ModeSymlink
    ensures ResolveProjectPath(WithDefaultConfig(AppConfig("", "", "", ""), defaultRoot), cwd) == ""
  {
    var cfg := WithDefaultConfig(AppConfig("", "", "", ""), defaultRoot);
    assert cfg.installMode == Install.ModeSymlink;
    assert cfg.installMode[0] == 's';
    assert !EqualFold(cfg.installMode, Install.ModeCopy);
  }

  /** The letter case of "copy" does not matter. */
  lemma CopyModeIgnoresCase(p: string, q: string, path: string, mode: string)
    requires EqualFold(mode, Install.ModeCopy)
    ensures ResolveInstallMode(AppConfig(p, q, path, ToLower(mode))) == Install.ModeCopy
  {
    assert EqualFold(ToLower(mode), Install.ModeCopy) by {
      forall i | 0 <= i < |mode|
        ensures ToLowerAscii(ToLower(mode)[i]) == ToLowerAscii(Install.ModeCopy[i])
      {
        assert ToLowerAscii(ToLowerAscii(mode[i])) == ToLowerAscii(mode[i]);
      }
    }
  }

  /** Repository references that are already URLs. */
  predicate IsURL(repo: string) {
    HasPrefix(repo, "http://") || HasPrefix(repo, "https://") || HasPrefix(repo, "git@")
  }

  const GitHubHost: string := "github.com/"

  /**
   * `normalizeRepoURL`: URLs are kept, `github.com/owner/name` and
   * `owner/name` become an https clone URL ending in `.git`, and anything
   * else (such as a bare word) is kept.
   */
  function NormalizeRepoURL(repo: string): (url: string)
    ensures IsURL(repo) || '/' !in repo ==> url == repo
    ensures url == repo || IsCloneURL(url)
    ensures !IsURL(repo) && HasPrefix(repo, GitHubHost) ==> url == "https://" + repo + ".git"
    ensures !IsURL(repo) && !HasPrefix(repo, GitHubHost) && '/' in repo ==> url == "https://github.com/" + repo + ".git"
  {
    if IsURL(repo) then repo
    else if HasPrefix(repo, GitHubHost) then
      HostURL(repo);
      "https://" + repo + ".git"
    else if '/' in repo then
      ShortURL(repo);
      "https://github.com/" + repo + ".git"
    else repo
  }

  /** A clone URL: https on GitHub, ending in `.git`. */
  predicate IsCloneURL(url: string) {
    HasPrefix(url, "https://") && HasPrefix(url, "https://github.com/") && |url| >= 4 && url[|url| - 4..] == ".git"
  }

  lemma HostURL(repo: string)
    requires HasPrefix(repo, GitHubHost)
    ensures '/' in repo
    ensures IsCloneURL("https://" + repo + ".git")
  {
    assert repo[10] == GitHubHost[10] == '/';
    var url := "https://" + repo + ".git";
    assert url[8..19] == repo[..11] == GitHubHost;
    assert url[..19] == url[..8] + url[8..19];
    assert url[..8] == "https://";
    assert url[|url| - 4..] == ".git";
  }

  lemma ShortURL(repo: string)
    ensures IsCloneURL("https://github.com/" + repo + ".git")
  {
    var url := "https://github.com/" + repo + ".git";
    assert url[..8] == "https://" && url[..19] == "https://github.com/";
    assert url[|url| - 4..] == ".git";
  }

  /** A normalised reference is already normal. */
  lemma NormalizeIdempotent(repo: string)
    ensures NormalizeRepoURL(NormalizeRepoURL(repo)) == NormalizeRepoURL(repo)
  {
  }

  /** `owner/name` and `github.com/owner/name` name the same clone URL. */
  lemma ShorthandMatchesHost(repo: string)
    requires '/' in repo && !IsURL(repo) && !HasPrefix(repo, GitHubHost)
    ensures NormalizeRepoURL(GitHubHost + repo) == NormalizeRepoURL(repo)
  {
    var full := GitHubHost + repo;
    assert full[..|GitHubHost|] == GitHubHost;
    assert full[0] == 'g' && full[3] == 'h';
    assert !IsURL(full);
    assert '/' in full by {
      assert full[6] == '.';
      assert full[10] == '/';
    }
    assert "https://" + full + ".git" == "https://github.com/" + repo + ".git";
  }

  /** Where the skills come from: a local directory, or a temporary clone to clean up afterwards. */
  datatype RepoRoot = RepoRoot(path: string, temporary: bool)

  /** The keyword cases of `resolveSkillRepoPath` that return without looking at the file system. */
  predicate IsKeyword(value: string, defaultRoot: string, cwd: string) {
    var key := TrimSpace(value);
    ((key == "" || key == Bundled) && (defaultRoot != "" || cwd != "")) || (key == Cwd && cwd != "")
  }

  /**
   * `resolveSkillRepoPath`. The keywords "" and "bundled" pick the bundled
   * root, else the working directory; "cwd" picks the working directory.
   * Otherwise an empty value is an error, an existing directory is used as
   * it is, and anything else is cloned: `clone` stands for the git clone of
   * the normalised URL, giving the temporary checkout or an error.
   */
  function ResolveSkillRepoPath(value: string, defaultRoot: string, cwd: string,
                                existsDir: string -> bool, clone: string -> Result<string>): (r: Result<RepoRoot>)
    ensures var key := TrimSpace(value);
      (key == "" || key == Bundled) && defaultRoot != "" ==> r == Ok(RepoRoot(defaultRoot, false))
    ensures var key := TrimSpace(value);
      (key == "" || key == Bundled) && defaultRoot == "" && cwd != "" ==> r == Ok(RepoRoot(cwd, false))
    ensures TrimSpace(value) == Cwd && cwd != "" ==> r == Ok(RepoRoot(cwd, false))
    ensures !IsKeyword(value, defaultRoot, cwd) && value == "" ==> r == Err("empty skills repo path")
    ensures !IsKeyword(value, defaultRoot, cwd) && value != "" && existsDir(value) ==> r == Ok(RepoRoot(value, false))
    ensures !IsKeyword(value, defaultRoot, cwd) && value != "" && !existsDir(value) ==>
      match clone(NormalizeRepoURL(value))
      case Ok(dir) => r == Ok(RepoRoot(dir, true))
      case Err(e) => r == Err(e)
    ensures r.Ok? && r.value.temporary ==> clone(NormalizeRepoURL(value)) == Ok(r.value.path)
    ensures r.Err? ==> value == "" || clone(NormalizeRepoURL(value)).Err?
    ensures r.Ok? && !r.value.temporary && r.value.path != defaultRoot && r.value.path != cwd ==>
      r.value.path == value && existsDir(value)
  {
    var key := TrimSpace(value);
    if (key == "" || key == Bundled) && defaultRoot != "" then Ok(RepoRoot(defaultRoot, false))
    else if (key == "" || key == Bundled) && cwd != "" then Ok(RepoRoot(cwd, false))
    else if key == Cwd && cwd != "" then Ok(RepoRoot(cwd, false))
    else if value == "" then Err("empty skills repo path")
    else if existsDir(value) then Ok(RepoRoot(value, false))
    else
      match clone(NormalizeRepoURL(value))
      case Ok(dir) => Ok(RepoRoot(dir, true))
      case Err(e) => Err(e)
  }

  /** An unset skills source resolves without cloning: to the bundled root, or else the working directory. */
  lemma DefaultSourceIsLocal(cfg: AppConfig, defaultRoot: string, cwd: string,
                             existsDir: string -> bool, clone: string -> Result<string>)
    requires IsBlank(cfg.skillRepoPath) && cwd != ""
    ensures ResolveSkillRepoPath(WithDefaultConfig(cfg, defaultRoot).skillRepoPath, defaultRoot, cwd, existsDir, clone)
      == Ok(RepoRoot(if defaultRoot != "" then defaultRoot else cwd, false))
  {
    TrimSpaceOfTrimmed(Bundled);
    TrimSpaceOfTrimmed(Cwd);
  }

  /** A non-empty value naming an existing directory is used as it is and never cloned, whatever the clone would give. */
  lemma ExistingDirNotCloned(value: string, defaultRoot: string, cwd: string,
                             existsDir: string -> bool, clone: string -> Result<string>, clone': string -> Result<string>)
    requires !IsKeyword(value, defaultRoot, cwd) && value != "" && existsDir(value)
    ensures ResolveSkillRepoPath(value, defaultRoot, cwd, existsDir, clone) == Ok(RepoRoot(value, false))
    ensures ResolveSkillRepoPath(value, defaultRoot, cwd, existsDir, clone)
      == ResolveSkillRepoPath(value, defaultRoot, cwd, existsDir, clone')
  {
  }

  /** `owner/name` and `github.com/owner/name`, when neither is a local directory, clone the same URL. */
  lemma ShorthandClonesSame(repo: string, defaultRoot: string, cwd: string,
                            existsDir: string -> bool, clone: string -> Result<string>)
    requires '/' in repo && !IsURL(repo) && !HasPrefix(repo, GitHubHost)
    requires !IsKeyword(repo, defaultRoot, cwd) && !IsKeyword(GitHubHost + repo, defaultRoot, cwd)
    requires !existsDir(repo) && !existsDir(GitHubHost + repo)
    ensures ResolveSkillRepoPath(GitHubHost + repo, defaultRoot, cwd, existsDir, clone)
      == ResolveSkillRepoPath(repo, defaultRoot, cwd, existsDir, clone)
  {
    ShorthandMatchesHost(repo);
  }

  /**
   * The project path a run uses, from the saved configuration after
   * defaults: the working directory for "cwd", the trimmed custom path for
   * "custom" (trimmed once, whether or not the defaults trimmed it), and no
   * project for a blank or any other choice.
   */
  lemma ProjectFromConfig(cfg: AppConfig, defaultRoot: string, cwd: string)
    ensures var p := ResolveProjectPath(WithDefaultConfig(cfg, defaultRoot), cwd);
      && (cfg.projectChoice == Cwd ==> p == cwd)
      && (cfg.projectChoice == Custom ==> p == TrimSpace(cfg.projectPath))
      && (cfg.projectChoice != Cwd && cfg.projectChoice != Custom ==> p == "")
  {
    TrimSpaceOfTrimmed(Cwd);
    TrimSpaceOfTrimmed(Custom);
  }

  /** The command-line flags that bear on where and how to install. */
  datatype Flags = Flags(repo: string, project: string, copy: bool, symlink: bool)

  /** The skills root, the project path and the install mode of a run. */
  datatype Choice = Choice(root: string, project: string, mode: string)

  /** The mode the flags select before any configuration is read: `--symlink` beats `--copy`. */
  function FlagMode(f: Flags): (m: string)
    ensures m == Install.ModeCopy <==> f.copy && !f.symlink
    ensures m == Install.ModeCopy || m == Install.ModeSymlink
  {
    var mode := if f.copy then Install.ModeCopy else Install.ModeSymlink;
    if f.symlink then Install.ModeSymlink else mode
  }

  /**
   * The flags applied over a choice from the configuration or the prompts:
   * both mode flags at once is an error; a non-empty `--repo` or
   * `--project` and a mode flag win; an empty root falls back to the
   * bundled root and then to the working directory (`cwd` is the outcome of
   * asking the operating system for it).
   */
  function ApplyFlags(f: Flags, c: Choice, defaultRoot: string, cwd: Result<string>): (r: Result<Choice>)
    ensures f.copy && f.symlink ==> r == Err("choose only one of --copy or --symlink")
    ensures r.Ok? ==> !(f.copy && f.symlink)
    ensures r.Ok? && f.repo != "" ==> r.value.root == f.repo
    ensures r.Ok? && f.repo == "" && c.root != "" ==> r.value.root == c.root
    ensures r.Ok? && f.repo == "" && c.root == "" && defaultRoot != "" ==> r.value.root == defaultRoot
    ensures r.Ok? && f.repo == "" && c.root == "" && defaultRoot == "" ==> cwd == Ok(r.value.root)
    ensures r.Ok? ==> r.value.project == (if f.project != "" then f.project else c.project)
    ensures r.Ok? ==> r.value.mode == (if f.copy then Install.ModeCopy else if f.symlink then Install.ModeSymlink else c.mode)
    ensures r.Err? && !(f.copy && f.symlink) ==> f.repo == "" && c.root == "" && defaultRoot == "" && cwd.Err?
  {
    if f.copy && f.symlink then Err("choose only one of --copy or --symlink")
    else
      var root := if f.repo != "" then f.repo else c.root;
      var project := if f.project != "" then f.project else c.project;
      var mode := if f.copy then Install.ModeCopy else if f.symlink then Install.ModeSymlink else c.mode;
      var root' := if root == "" && defaultRoot != "" then defaultRoot else root;
      if root' == "" then
        match cwd
        case Ok(dir) => Ok(Choice(dir, project, mode))
        case Err(e) => Err("get working directory: " + e)
      else Ok(Choice(root', project, mode))
  }

  /** Applying the flags a second time changes nothing. */
  lemma ApplyFlagsIdempotent(f: Flags, c: Choice, defaultRoot: string, cwd: Result<string>)
    requires ApplyFlags(f, c, defaultRoot, cwd).Ok?
    requires cwd.Ok? ==> cwd.value != ""
    ensures ApplyFlags(f, ApplyFlags(f, c, defaultRoot, cwd).value, defaultRoot, cwd) == ApplyFlags(f, c, defaultRoot, cwd)
  {
  }

  /** Without a configuration, the flags alone decide the mode, and `--symlink` and `--copy` together are refused. */
  lemma FlagsAloneDecide(f: Flags, defaultRoot: string, cwd: Result<string>)
    requires !(f.copy && f.symlink)
    requires ApplyFlags(f, Choice(f.repo, f.project, FlagMode(f)), defaultRoot, cwd).Ok?
    ensures ApplyFlags(f, Choice(f.repo, f.project, FlagMode(f)), defaultRoot, cwd).value.mode == FlagMode(f)
    ensures ApplyFlags(f, Choice(f.repo, f.project, FlagMode(f)), defaultRoot, cwd).value.project == f.project
  {
  }
}
