/**
 * Skill and target discovery of installer.go: `DiscoverSkills` walks a
 * skills root in lexical order and records every directory that holds a
 * regular `SKILL.md`, without descending into it; `DiscoverTargets` lists the
 * harness skill directories in a fixed order.
 */
module Discovery {
  import opened Wrappers
  import opened Text
  import opened FileTree
  import opened Frontmatter

  datatype Skill = Skill(name: string, description: string, path: Path)

  const SkillFile: string := "SKILL.md"

  /** A directory whose `SKILL.md` entry is a regular file. */
  predicate IsSkillDir(n: Node) {
    n.Dir? && SkillFile in n.children && n.children[SkillFile].File?
  }

  /** The skill recorded for the skill directory `n` at `p`: the front matter name, or else the base name. */
  function SkillAt(n: Node, p: Path): Skill
    requires IsSkillDir(n)
  {
    var f := FrontmatterOf(ScanLines(n.children[SkillFile].data));
    Skill(if f.name == "" then Base(p) else f.name, f.description, p)
  }

  /** The skills the walk collects under `n`, found at `p`, in visiting order. */
  function Found(n: Node, p: Path): seq<Skill>
    decreases n, 1
  {
    if !n.Dir? then []
    else if IsSkillDir(n) then [SkillAt(n, p)]
    else FoundIn(n, SortedKeys(n.children.Keys), p)
  }

  /** The skills under the entries of `n` named in `keys`, one entry after the other. */
  function FoundIn(n: Node, keys: seq<string>, p: Path): seq<Skill>
    requires n.Dir?
    requires forall k :: k in keys ==> k in n.children
    decreases n, 0, |keys|
  {
    if keys == [] then []
    else
      var k := keys[|keys| - 1];
      FoundIn(n, keys[..|keys| - 1], p) + Found(n.children[k], p + [k])
  }

  /**
   * The relative path `q` leads from `n` to a skill directory through
   * directories none of which is a skill directory: where the walk records
   * a skill.
   */
  predicate Reported(n: Node, q: Path) {
    if q == [] then IsSkillDir(n)
    else n.Dir? && !IsSkillDir(n) && q[0] in n.children && Reported(n.children[q[0]], q[1..])
  }

  /** Lexicographic order on paths, component by component; a path comes before its descendants. */
  predicate PathLess(a: Path, b: Path) {
    if |b| == 0 then false
    else if |a| == 0 then true
    else if a[0] != b[0] then Less(a[0], b[0])
    else PathLess(a[1..], b[1..])
  }

  predicate PathsIncreasing(skills: seq<Skill>) {
    forall i, j :: 0 <= i < j < |skills| ==> PathLess(skills[i].path, skills[j].path)
  }

  /** Reads the front matter of the `SKILL.md` in `n`, falling back to the directory name. */
  method ReadSkill(n: Node, p: Path) returns (s: Skill)
    requires IsSkillDir(n)
    ensures s == SkillAt(n, p)
  {
    var name, desc := ParseFrontmatter(ScanLines(n.children[SkillFile].data));
    if name == "" {
      name := Base(p);
    }
    return Skill(name, desc, p);
  }

  /** The walk of `filepath.WalkDir` that `DiscoverSkills` runs, with `fs.SkipDir` after a skill. */
  method Walk(n: Node, p: Path, acc: seq<Skill>) returns (skills: seq<Skill>)
    ensures skills == acc + Found(n, p)
    decreases n, 1
  {
    if !n.Dir? {
      return acc;
    }
    if SkillFile in n.children && n.children[SkillFile].File? {
      var skill := ReadSkill(n, p);
      return acc + [skill];
    }
    skills := WalkEntries(n, SortedKeys(n.children.Keys), p, acc);
  }

  /** Visits the entries of the directory `n` named in `keys`, in that order. */
  method WalkEntries(n: Node, keys: seq<string>, p: Path, acc: seq<Skill>) returns (skills: seq<Skill>)
    requires n.Dir?
    requires forall k :: k in keys ==> k in n.children
    ensures skills == acc + FoundIn(n, keys, p)
    decreases n, 0
  {
    skills := acc;
    var i := 0;
    while i < |keys|
      invariant 0 <= i <= |keys|
      invariant skills == acc + FoundIn(n, keys[..i], p)
    {
      var k := keys[i];
      FoundInSnoc(n, keys, p, i);
      skills := Walk(n.children[k], p + [k], skills);
      SkillsRegroup(acc, FoundIn(n, keys[..i], p), Found(n.children[k], p + [k]));
      i := i + 1;
    }
    assert keys[..|keys|] == keys;
  }

  /** One more key: its subtree's skills come after those of the keys before it. */
  lemma FoundInSnoc(n: Node, keys: seq<string>, p: Path, i: nat)
    requires n.Dir? && i < |keys|
    requires forall k :: k in keys ==> k in n.children
    ensures FoundIn(n, keys[..i + 1], p) == FoundIn(n, keys[..i], p) + Found(n.children[keys[i]], p + [keys[i]])
  {
    assert keys[..i + 1][..i] == keys[..i];
  }

  lemma SkillsRegroup(a: seq<Skill>, b: seq<Skill>, c: seq<Skill>)
    ensures a + b + c == a + (b + c)
  {
  }

  /**
   * `DiscoverSkills`: a missing root and a root that is not a directory are
   * errors, and so is a walk that finds no skill at all.
   */
  method DiscoverSkills(fs: Node, root: Path) returns (r: Result<seq<Skill>>)
    ensures !Exists(fs, root) ==> r == Err("skills root not found")
    ensures Exists(fs, root) && !ExistsDir(fs, root) ==> r == Err("skills root is not a directory")
    ensures ExistsDir(fs, root) && Found(Lookup(fs, root).value, root) == [] ==> r == Err("no skills found")
    ensures ExistsDir(fs, root) && Found(Lookup(fs, root).value, root) != [] ==> r == Ok(Found(Lookup(fs, root).value, root))
  {
    var node := Lookup(fs, root);
    if node.None? {
      return Err("skills root not found");
    }
    if !node.value.Dir? {
      return Err("skills root is not a directory");
    }
    var skills := Walk(node.value, root, []);
    assert skills == Found(node.value, root);
    if |skills| == 0 {
      return Err("no skills found");
    }
    return Ok(skills);
  }

  /** The skill the walk records for the reported path `q` below `p`. */
  function ReportedSkill(n: Node, p: Path, q: Path): (s: Skill)
    requires Reported(n, q)
    ensures s.path == p + q
  {
    if q == [] then SkillAt(n, p)
    else
      assert p + [q[0]] + q[1..] == p + q;
      ReportedSkill(n.children[q[0]], p + [q[0]], q[1..])
  }

  /** A reported path leads to a skill directory, and its skill is the one read from that directory. */
  lemma {:induction false} ReportedLookup(n: Node, p: Path, q: Path)
    requires Reported(n, q)
    ensures Lookup(n, q).Some? && IsSkillDir(Lookup(n, q).value)
    ensures ReportedSkill(n, p, q) == SkillAt(Lookup(n, q).value, p + q)
  {
    if q != [] {
      var c := n.children[q[0]];
      ReportedLookup(c, p + [q[0]], q[1..]);
      assert Lookup(n, q) == Lookup(c, q[1..]);
      assert ReportedSkill(n, p, q) == ReportedSkill(c, p + [q[0]], q[1..]);
      assert p + [q[0]] + q[1..] == p + q;
    }
  }

  lemma {:induction false} FoundInHas(n: Node, keys: seq<string>, p: Path, j: nat, s: Skill)
    requires n.Dir?
    requires forall k :: k in keys ==> k in n.children
    requires j < |keys| && s in Found(n.children[keys[j]], p + [keys[j]])
    ensures s in FoundIn(n, keys, p)
    decreases |keys|
  {
    if j < |keys| - 1 {
      FoundInHas(n, keys[..|keys| - 1], p, j, s);
    }
  }

  lemma {:induction false} FoundInFrom(n: Node, keys: seq<string>, p: Path, s: Skill) returns (j: nat)
    requires n.Dir?
    requires forall k :: k in keys ==> k in n.children
    requires s in FoundIn(n, keys, p)
    ensures j < |keys| && s in Found(n.children[keys[j]], p + [keys[j]])
    decreases |keys|
  {
    var init := keys[..|keys| - 1];
    if s in FoundIn(n, init, p) {
      j := FoundInFrom(n, init, p, s);
      assert init[j] == keys[j];
    } else {
      j := |keys| - 1;
    }
  }

  /** Every skill the walk records is the skill of a reported path below `p`. */
  lemma {:induction false} FoundSound(n: Node, p: Path, s: Skill) returns (q: Path)
    requires s in Found(n, p)
    ensures Reported(n, q) && s == ReportedSkill(n, p, q)
    decreases n
  {
    if IsSkillDir(n) {
      q := [];
    } else {
      var keys := SortedKeys(n.children.Keys);
      var j := FoundInFrom(n, keys, p, s);
      var k := keys[j];
      var rest := FoundSound(n.children[k], p + [k], s);
      q := [k] + rest;
      assert q[0] == k && q[1..] == rest;
    }
  }

  /** Every reported path is recorded by the walk. */
  lemma {:induction false} FoundComplete(n: Node, p: Path, q: Path)
    requires Reported(n, q)
    ensures ReportedSkill(n, p, q) in Found(n, p)
    decreases n
  {
    if q != [] {
      var k := q[0];
      FoundComplete(n.children[k], p + [k], q[1..]);
      var keys := SortedKeys(n.children.Keys);
      assert k in keys;
      var j :| 0 <= j < |keys| && keys[j] == k;
      FoundInHas(n, keys, p, j, ReportedSkill(n, p, q));
    }
  }

  /** No reported skill path lies strictly inside another one: the walk skips a skill's subtree. */
  lemma {:induction false} ReportedNotNested(n: Node, q1: Path, q2: Path)
    requires Reported(n, q1) && Reported(n, q2)
    requires |q1| <= |q2| && q2[..|q1|] == q1
    ensures q1 == q2
  {
    if q1 != [] {
      assert q2[0] == q1[0];
      assert q2[1..][..|q1| - 1] == q1[1..];
      ReportedNotNested(n.children[q1[0]], q1[1..], q2[1..]);
    }
  }

  lemma {:induction false} PathLessIrreflexive(a: Path)
    ensures !PathLess(a, a)
  {
    if |a| > 0 {
      PathLessIrreflexive(a[1..]);
    }
  }

  /** Paths under a smaller name come before paths under a larger name. */
  lemma {:induction false} PathLessUnder(p: Path, k1: string, k2: string, x: Path, y: Path)
    requires Less(k1, k2)
    ensures PathLess(p + [k1] + x, p + [k2] + y)
  {
    if p == [] {
      assert (p + [k1] + x)[0] == k1 && (p + [k2] + y)[0] == k2;
    } else {
      assert (p + [k1] + x)[1..] == p[1..] + [k1] + x;
      assert (p + [k2] + y)[1..] == p[1..] + [k2] + y;
      PathLessUnder(p[1..], k1, k2, x, y);
    }
  }

  lemma {:induction false} FoundInUnder(n: Node, keys: seq<string>, p: Path, s: Skill) returns (k: string, q: Path)
    requires n.Dir?
    requires forall k :: k in keys ==> k in n.children
    requires s in FoundIn(n, keys, p)
    ensures k in keys && s.path == p + [k] + q
  {
    var j := FoundInFrom(n, keys, p, s);
    k := keys[j];
    q := FoundSound(n.children[k], p + [k], s);
  }

  /** The walk records skills in strictly increasing path order, as `WalkDir` visits them. */
  lemma {:induction false} FoundIncreasing(n: Node, p: Path)
    ensures PathsIncreasing(Found(n, p))
    decreases n, 1
  {
    if n.Dir? && !IsSkillDir(n) {
      FoundInIncreasing(n, SortedKeys(n.children.Keys), p);
    }
  }

  lemma {:induction false} FoundInIncreasing(n: Node, keys: seq<string>, p: Path)
    requires n.Dir?
    requires forall k :: k in keys ==> k in n.children
    requires StrictlyIncreasing(keys)
    ensures PathsIncreasing(FoundIn(n, keys, p))
    decreases n, 0, |keys|
  {
    if keys != [] {
      var init := keys[..|keys| - 1];
      var k := keys[|keys| - 1];
      var front, back := FoundIn(n, init, p), Found(n.children[k], p + [k]);
      FoundInIncreasing(n, init, p);
      FoundIncreasing(n.children[k], p + [k]);
      forall i, j | 0 <= i < |front| && 0 <= j < |back|
        ensures PathLess(front[i].path, back[j].path)
      {
        EarlierKeyFirst(n, keys, p, front[i], back[j]);
      }
      IncreasingConcat(front, back);
    }
  }

  /** A skill under an earlier key comes before a skill under the last key. */
  lemma EarlierKeyFirst(n: Node, keys: seq<string>, p: Path, a: Skill, b: Skill)
    requires n.Dir? && keys != []
    requires forall k :: k in keys ==> k in n.children
    requires StrictlyIncreasing(keys)
    requires a in FoundIn(n, keys[..|keys| - 1], p)
    requires b in Found(n.children[keys[|keys| - 1]], p + [keys[|keys| - 1]])
    ensures PathLess(a.path, b.path)
  {
    var init, k := keys[..|keys| - 1], keys[|keys| - 1];
    var ka, qa := FoundInUnder(n, init, p, a);
    var qb := FoundSound(n.children[k], p + [k], b);
    var m :| 0 <= m < |init| && init[m] == ka;
    assert Less(keys[m], keys[|keys| - 1]);
    PathLessUnder(p, ka, k, qa, qb);
  }

  lemma IncreasingConcat(front: seq<Skill>, back: seq<Skill>)
    requires PathsIncreasing(front) && PathsIncreasing(back)
    requires forall i, j :: 0 <= i < |front| && 0 <= j < |back| ==> PathLess(front[i].path, back[j].path)
    ensures PathsIncreasing(front + back)
  {
    var all := front + back;
    forall i, j | 0 <= i < j < |all|
      ensures PathLess(all[i].path, all[j].path)
    {
      if j < |front| {
        assert all[i] == front[i] && all[j] == front[j];
      } else if i >= |front| {
        assert all[i] == back[i - |front|] && all[j] == back[j - |front|];
      } else {
        assert all[i] == front[i] && all[j] == back[j - |front|];
      }
    }
  }

  /**
   * A tree with exactly one reported skill directory yields exactly that
   * one skill, however deep the other directories are.
   */
  lemma SingleSkill(n: Node, p: Path, q: Path)
    requires Reported(n, q)
    requires forall q' :: Reported(n, q') ==> q' == q
    ensures Found(n, p) == [ReportedSkill(n, p, q)]
  {
    var found := Found(n, p);
    var s := ReportedSkill(n, p, q);
    FoundComplete(n, p, q);
    FoundIncreasing(n, p);
    forall t | t in found
      ensures t == s
    {
      var q' := FoundSound(n, p, t);
    }
    OnlyOne(found, s);
  }

  /** A list with increasing paths whose every element is `s` is `[s]`. */
  lemma OnlyOne(found: seq<Skill>, s: Skill)
    requires PathsIncreasing(found) && s in found
    requires forall t :: t in found ==> t == s
    ensures found == [s]
  {
    if |found| > 1 {
      assert found[0] in found && found[1] in found;
      PathLessIrreflexive(s.path);
      assert false;
    }
  }

  datatype TargetType = CodexGlobal | ClaudeGlobal | ClaudeProject | CursorProject | CursorGlobal

  /** The position of each target type in the menu: the order `DiscoverTargets` appends them. */
  function Rank(t: TargetType): nat {
    match t
    case CodexGlobal => 0
    case ClaudeGlobal => 1
    case ClaudeProject => 2
    case CursorProject => 3
    case CursorGlobal => 4
  }

  function TypeName(t: TargetType): string {
    match t
    case CodexGlobal => "codex-global"
    case ClaudeGlobal => "claude-global"
    case ClaudeProject => "claude-project"
    case CursorProject => "cursor-project"
    case CursorGlobal => "cursor-global"
  }

  function Label(t: TargetType): string {
    match t
    case CodexGlobal => "Codex CLI (global)"
    case ClaudeGlobal => "Claude Code (global)"
    case ClaudeProject => "Claude Code (project)"
    case CursorProject => "Cursor (project)"
    case CursorGlobal => "Cursor (global)"
  }

  predicate IsProjectType(t: TargetType) {
    t == ClaudeProject || t == CursorProject
  }

  /** The harness folder of a target type: `.codex`, `.claude` or `.cursor`. */
  function HarnessDir(t: TargetType): string {
    match t
    case CodexGlobal => ".codex"
    case ClaudeGlobal => ".claude"
    case ClaudeProject => ".claude"
    case CursorProject => ".cursor"
    case CursorGlobal => ".cursor"
  }

  datatype Target = Target(kind: TargetType, title: string, path: Path, dirExists: bool)

  /** The skills directory of a target type: under the project for project types, under home otherwise. */
  function TargetPath(home: Path, project: Option<Path>, t: TargetType): Path {
    var base := if IsProjectType(t) && project.Some? then project.value else home;
    base + [HarnessDir(t), "skills"]
  }

  predicate HasType(targets: seq<Target>, t: TargetType) {
    exists i :: 0 <= i < |targets| && targets[i].kind == t
  }

  /** The menu entry for a target type. */
  function Entry(fs: Node, home: Path, project: Option<Path>, t: TargetType): Target {
    var path := TargetPath(home, project, t);
    Target(t, Label(t), path, ExistsDir(fs, path))
  }

  /** Project types are offered exactly when a project is given; global types when their directory exists. */
  predicate Offered(fs: Node, home: Path, project: Option<Path>, t: TargetType) {
    if IsProjectType(t) then project.Some? else ExistsDir(fs, TargetPath(home, project, t))
  }

  function Pick(fs: Node, home: Path, project: Option<Path>, t: TargetType): seq<Target> {
    if Offered(fs, home, project, t) then [Entry(fs, home, project, t)] else []
  }

  /** Every target type, in menu order. */
  const MenuOrder: seq<TargetType> := [CodexGlobal, ClaudeGlobal, ClaudeProject, CursorProject, CursorGlobal]

  /** The offered entries among `order`, in that order. */
  function Menu(fs: Node, home: Path, project: Option<Path>, order: seq<TargetType>): seq<Target> {
    if order == [] then []
    else Menu(fs, home, project, order[..|order| - 1]) + Pick(fs, home, project, order[|order| - 1])
  }

  /** `existsDir`: whether `p` names a directory. */
  method IsDirectory(fs: Node, p: Path) returns (b: bool)
    ensures b == ExistsDir(fs, p)
  {
    var node := Lookup(fs, p);
    return node.Some? && node.value.Dir?;
  }

  /**
   * `DiscoverTargets`: the global directories that exist and, when a
   * project path is given (`None` stands for an empty one), both project
   * directories, in menu order.
   */
  method DiscoverTargets(fs: Node, home: Path, project: Option<Path>) returns (targets: seq<Target>)
    ensures targets == Menu(fs, home, project, MenuOrder)
  {
    var codex := OfferGlobal(fs, home, project, CodexGlobal);
    var claude := OfferGlobal(fs, home, project, ClaudeGlobal);
    targets := codex + claude;
    ghost var globals := targets;
    if project.Some? {
      var claudeProject := ProjectEntry(fs, home, project, ClaudeProject);
      var cursorProject := ProjectEntry(fs, home, project, CursorProject);
      targets := targets + [claudeProject, cursorProject];
    }
    ProjectPicks(fs, home, project, globals, targets);
    var cursor := OfferGlobal(fs, home, project, CursorGlobal);
    targets := targets + cursor;
    MenuInOrder(fs, home, project);
  }

  /** The menu is the five picks one after the other. */
  lemma MenuInOrder(fs: Node, home: Path, project: Option<Path>)
    ensures Menu(fs, home, project, MenuOrder)
         == Pick(fs, home, project, CodexGlobal) + Pick(fs, home, project, ClaudeGlobal)
          + Pick(fs, home, project, ClaudeProject) + Pick(fs, home, project, CursorProject)
          + Pick(fs, home, project, CursorGlobal)
  {
    var p1, p2, p3, p4, p5 :=
      Pick(fs, home, project, CodexGlobal), Pick(fs, home, project, ClaudeGlobal),
      Pick(fs, home, project, ClaudeProject), Pick(fs, home, project, CursorProject),
      Pick(fs, home, project, CursorGlobal);
    var o1: seq<TargetType> := [CodexGlobal];
    var o2 := o1 + [ClaudeGlobal];
    var o3 := o2 + [ClaudeProject];
    var o4 := o3 + [CursorProject];
    var o5 := o4 + [CursorGlobal];
    MenuSnoc(fs, home, project, [], CodexGlobal);
    assert [] + [CodexGlobal] == o1;
    assert Menu(fs, home, project, o1) == p1;
    MenuSnoc(fs, home, project, o1, ClaudeGlobal);
    MenuSnoc(fs, home, project, o2, ClaudeProject);
    MenuSnoc(fs, home, project, o3, CursorProject);
    MenuSnoc(fs, home, project, o4, CursorGlobal);
    assert o5 == MenuOrder;
  }

  lemma MenuSnoc(fs: Node, home: Path, project: Option<Path>, order: seq<TargetType>, t: TargetType)
    ensures Menu(fs, home, project, order + [t]) == Menu(fs, home, project, order) + Pick(fs, home, project, t)
  {
    assert (order + [t])[..|order|] == order;
  }

  /** One global target: listed, as existing, only when its directory is there. */
  method OfferGlobal(fs: Node, home: Path, project: Option<Path>, t: TargetType) returns (entry: seq<Target>)
    requires !IsProjectType(t)
    ensures entry == Pick(fs, home, project, t)
  {
    var path := home + [HarnessDir(t), "skills"];
    var found := IsDirectory(fs, path);
    if found {
      return [Target(t, Label(t), path, true)];
    }
    return [];
  }

  /** One project target, listed whether or not its directory exists. */
  method ProjectEntry(fs: Node, home: Path, project: Option<Path>, t: TargetType) returns (entry: Target)
    requires IsProjectType(t) && project.Some?
    ensures entry == Entry(fs, home, project, t)
  {
    var path := project.value + [HarnessDir(t), "skills"];
    var found := IsDirectory(fs, path);
    return Target(t, Label(t), path, found);
  }

  lemma ProjectPicks(fs: Node, home: Path, project: Option<Path>, before: seq<Target>, after: seq<Target>)
    requires project.Some? ==> after == before + [Entry(fs, home, project, ClaudeProject), Entry(fs, home, project, CursorProject)]
    requires project.None? ==> after == before
    ensures after == before + Pick(fs, home, project, ClaudeProject) + Pick(fs, home, project, CursorProject)
  {
  }

  lemma {:induction false} MenuEntries(fs: Node, home: Path, project: Option<Path>, order: seq<TargetType>, i: nat)
    requires i < |Menu(fs, home, project, order)|
    ensures Menu(fs, home, project, order)[i] == Entry(fs, home, project, Menu(fs, home, project, order)[i].kind)
  {
    var init := Menu(fs, home, project, order[..|order| - 1]);
    if i < |init| {
      MenuEntries(fs, home, project, order[..|order| - 1], i);
    }
  }

  /** A type is in the menu exactly when it is among `order` and offered. */
  lemma {:induction false} MenuHasType(fs: Node, home: Path, project: Option<Path>, order: seq<TargetType>, t: TargetType)
    ensures HasType(Menu(fs, home, project, order), t) <==> t in order && Offered(fs, home, project, t)
  {
    if order != [] {
      var init, last := order[..|order| - 1], order[|order| - 1];
      MenuHasType(fs, home, project, init, t);
      HasTypeConcat(Menu(fs, home, project, init), Pick(fs, home, project, last), t);
      PickHasType(fs, home, project, last, t);
      assert order == init + [last];
    }
  }

  lemma HasTypeConcat(a: seq<Target>, b: seq<Target>, t: TargetType)
    ensures HasType(a + b, t) <==> HasType(a, t) || HasType(b, t)
  {
    var all := a + b;
    if HasType(a, t) {
      var i :| 0 <= i < |a| && a[i].kind == t;
      assert all[i] == a[i];
    }
    if HasType(b, t) {
      var i :| 0 <= i < |b| && b[i].kind == t;
      assert all[|a| + i] == b[i];
    }
    if HasType(all, t) {
      var i :| 0 <= i < |all| && all[i].kind == t;
      if i >= |a| {
        assert all[i] == b[i - |a|];
      } else {
        assert all[i] == a[i];
      }
    }
  }

  lemma PickHasType(fs: Node, home: Path, project: Option<Path>, u: TargetType, t: TargetType)
    ensures HasType(Pick(fs, home, project, u), t) <==> u == t && Offered(fs, home, project, t)
  {
    if u == t && Offered(fs, home, project, t) {
      assert Pick(fs, home, project, u)[0].kind == t;
    }
  }

  /** Entries of the menu follow their ranks when `order` does. */
  lemma {:induction false} MenuRanked(fs: Node, home: Path, project: Option<Path>, order: seq<TargetType>)
    requires forall i, j :: 0 <= i < j < |order| ==> Rank(order[i]) < Rank(order[j])
    ensures forall i, j :: 0 <= i < j < |Menu(fs, home, project, order)| ==>
      Rank(Menu(fs, home, project, order)[i].kind) < Rank(Menu(fs, home, project, order)[j].kind)
  {
    if order != [] {
      var init, last := order[..|order| - 1], order[|order| - 1];
      var front, back := Menu(fs, home, project, init), Pick(fs, home, project, last);
      var all := front + back;
      MenuRanked(fs, home, project, init);
      forall i, j | 0 <= i < j < |all|
        ensures Rank(all[i].kind) < Rank(all[j].kind)
      {
        if j >= |front| {
          assert all[j].kind == last;
          MenuHasType(fs, home, project, init, all[i].kind);
          assert all[i] == front[i];
          var m :| 0 <= m < |init| && init[m] == all[i].kind;
          assert order[m] == init[m];
        } else {
          assert all[i] == front[i] && all[j] == front[j];
        }
      }
    }
  }

  /**
   * The menu `DiscoverTargets` shows: entries in strictly increasing rank,
   * each with its label, path and existence flag; global types present
   * exactly when their directory exists, project types exactly when a
   * project is given.
   */
  lemma TargetsMenu(fs: Node, home: Path, project: Option<Path>)
    ensures forall i, j :: 0 <= i < j < |Menu(fs, home, project, MenuOrder)| ==>
      Rank(Menu(fs, home, project, MenuOrder)[i].kind) < Rank(Menu(fs, home, project, MenuOrder)[j].kind)
    ensures forall i :: 0 <= i < |Menu(fs, home, project, MenuOrder)| ==>
      var x := Menu(fs, home, project, MenuOrder)[i];
      x.title == Label(x.kind) && x.path == TargetPath(home, project, x.kind) && x.dirExists == ExistsDir(fs, x.path)
    ensures forall t :: !IsProjectType(t) ==>
      (HasType(Menu(fs, home, project, MenuOrder), t) <==> ExistsDir(fs, TargetPath(home, project, t)))
    ensures forall t :: IsProjectType(t) ==> (HasType(Menu(fs, home, project, MenuOrder), t) <==> project.Some?)
  {
    var menu := Menu(fs, home, project, MenuOrder);
    MenuRanked(fs, home, project, MenuOrder);
    forall i | 0 <= i < |menu|
      ensures menu[i] == Entry(fs, home, project, menu[i].kind)
    {
      MenuEntries(fs, home, project, MenuOrder, i);
    }
    forall t
      ensures HasType(menu, t) <==> Offered(fs, home, project, t)
    {
      MenuHasType(fs, home, project, MenuOrder, t);
      assert t in MenuOrder by {
        match t
        case CodexGlobal => assert MenuOrder[0] == t;
        case ClaudeGlobal => assert MenuOrder[1] == t;
        case ClaudeProject => assert MenuOrder[2] == t;
        case CursorProject => assert MenuOrder[3] == t;
        case CursorGlobal => assert MenuOrder[4] == t;
      }
    }
  }
}
