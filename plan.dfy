/**
 * The install loop at the end of `Run` in run.go: every selected target
 * with every selected skill, target by target, each skill going to
 * `<target path>/<base name of the skill directory>`. A destination that
 * already exists is skipped, or removed and installed again, depending on
 * how the run was started and what the user answers.
 */
module Plan {
  import opened Wrappers
  import opened Text
  import opened FileTree
  import opened Discovery
  import Install

  /** How overwrites are decided: once for the whole run in the terminal UI, or by a typed answer per destination. */
  datatype Prompting = Interactive(overwriteAll: bool) | LineMode(answers: seq<string>)

  /** What the loop does for one pair; `existed` means the destination is removed first. */
  datatype Step =
    | Installed(target: Target, skill: Skill, dest: Path, existed: bool)
    | Skipped(target: Target, skill: Skill, dest: Path)

  datatype Pair = Pair(target: Target, skill: Skill)

  /**
   * Where a skill goes in a target: `filepath.Join` of the target path and
   * the skill's base name. For a skill at the file-system root that base
   * name is "/", which Join cleans away, so the destination is the target
   * folder itself.
   */
  function Dest(p: Pair): Path {
    if p.skill.path == [] then p.target.path else p.target.path + [Base(p.skill.path)]
  }

  /**
   * A destination lies in its target folder: one more name, the skill's
   * base name, for a skill below the file-system root, and the target
   * folder itself exactly for the root.
   */
  lemma DestInTarget(p: Pair)
    ensures |p.target.path| <= |Dest(p)| && Dest(p)[..|p.target.path|] == p.target.path
    ensures Dest(p) == p.target.path <==> p.skill.path == []
    ensures p.skill.path != [] ==> |Dest(p)| == |p.target.path| + 1 && Dest(p)[|p.target.path|] == Base(p.skill.path)
  {
  }

  /** One target with every skill, in skill order. */
  function Row(t: Target, skills: seq<Skill>): (r: seq<Pair>)
    ensures |r| == |skills|
    ensures forall k :: 0 <= k < |skills| ==> r[k] == Pair(t, skills[k])
  {
    if skills == [] then [] else [Pair(t, skills[0])] + Row(t, skills[1..])
  }

  /** The pairs in loop order: target-major, skill-minor. */
  function Pairs(targets: seq<Target>, skills: seq<Skill>): seq<Pair> {
    if targets == [] then [] else Row(targets[0], skills) + Pairs(targets[1..], skills)
  }

  /** `confirm`: the answer, lower-cased and trimmed, is "y" or "yes". */
  predicate Confirms(answer: string) {
    var t := TrimSpace(ToLower(answer));
    t == "y" || t == "yes"
  }

  /** The step for one pair, with the destinations that exist and the answers left afterwards. */
  datatype Visited = Visited(step: Step, present: set<Path>, prompting: Prompting)

  /**
   * The loop body for one pair. A missing destination is installed (and
   * exists afterwards); an existing one is skipped unless overwriting was
   * chosen for the run or, in line mode, confirmed; running out of typed
   * answers reads as an empty answer.
   */
  function StepFor(p: Pair, present: set<Path>, prompting: Prompting): Visited {
    var dest := Dest(p);
    if dest !in present then Visited(Installed(p.target, p.skill, dest, false), present + {dest}, prompting)
    else
      match prompting
      case Interactive(all) =>
        Visited(if all then Installed(p.target, p.skill, dest, true) else Skipped(p.target, p.skill, dest), present, prompting)
      case LineMode(answers) =>
        var answer := if answers == [] then "" else answers[0];
        var later := LineMode(if answers == [] then [] else answers[1..]);
        Visited(if Confirms(answer) then Installed(p.target, p.skill, dest, true) else Skipped(p.target, p.skill, dest), present, later)
  }

  /** The steps for the pairs in order, given the destinations that exist at the start. */
  function PlanFrom(pairs: seq<Pair>, present: set<Path>, prompting: Prompting): seq<Step>
    decreases |pairs|
  {
    if pairs == [] then []
    else
      var v := StepFor(pairs[0], present, prompting);
      [v.step] + PlanFrom(pairs[1..], v.present, v.prompting)
  }

  /** The plan of a run over the selected targets and skills. */
  function InstallPlan(targets: seq<Target>, skills: seq<Skill>, present: set<Path>, prompting: Prompting): seq<Step> {
    PlanFrom(Pairs(targets, skills), present, prompting)
  }

  /** The destinations that exist and the answers left once the loop has gone through the pairs. */
  function After(pairs: seq<Pair>, present: set<Path>, prompting: Prompting): (set<Path>, Prompting)
    decreases |pairs|
  {
    if pairs == [] then (present, prompting)
    else
      var v := StepFor(pairs[0], present, prompting);
      After(pairs[1..], v.present, v.prompting)
  }

  /** Going through `a` and then `b` is going through `a + b`. */
  lemma {:induction false} PlanFromAppend(a: seq<Pair>, b: seq<Pair>, present: set<Path>, prompting: Prompting)
    ensures var (now, left) := After(a, present, prompting);
      PlanFrom(a + b, present, prompting) == PlanFrom(a, present, prompting) + PlanFrom(b, now, left)
      && After(a + b, present, prompting) == After(b, now, left)
    decreases |a|
  {
    if a == [] {
      assert a + b == b;
    } else {
      assert (a + b)[0] == a[0] && (a + b)[1..] == a[1..] + b;
      var v := StepFor(a[0], present, prompting);
      PlanFromAppend(a[1..], b, v.present, v.prompting);
    }
  }

  /** One pair of the loop body. */
  method Visit(p: Pair, present: set<Path>, prompting: Prompting) returns (step: Step, present': set<Path>, prompting': Prompting)
    ensures Visited(step, present', prompting') == StepFor(p, present, prompting)
  {
    var dest := Dest(p);
    if dest !in present {
      return Installed(p.target, p.skill, dest, false), present + {dest}, prompting;
    }
    match prompting
    case Interactive(all) =>
      if all {
        return Installed(p.target, p.skill, dest, true), present, prompting;
      }
      return Skipped(p.target, p.skill, dest), present, prompting;
    case LineMode(answers) =>
      var answer, later := "", LineMode([]);
      if answers != [] {
        answer, later := answers[0], LineMode(answers[1..]);
      }
      var text := TrimSpace(ToLower(answer));
      if text == "y" || text == "yes" {
        return Installed(p.target, p.skill, dest, true), present, later;
      }
      return Skipped(p.target, p.skill, dest), present, later;
  }

  /** The inner loop of `Run`: one target with every skill in order. */
  method VisitRow(t: Target, skills: seq<Skill>, present: set<Path>, prompting: Prompting)
    returns (steps: seq<Step>, present': set<Path>, prompting': Prompting)
    ensures steps == PlanFrom(Row(t, skills), present, prompting)
    ensures (present', prompting') == After(Row(t, skills), present, prompting)
  {
    steps, present', prompting' := [], present, prompting;
    var j := 0;
    while j < |skills|
      invariant 0 <= j <= |skills|
      invariant steps + PlanFrom(Row(t, skills[j..]), present', prompting') == PlanFrom(Row(t, skills), present, prompting)
      invariant After(Row(t, skills[j..]), present', prompting') == After(Row(t, skills), present, prompting)
    {
      var row := Row(t, skills[j..]);
      assert row[0] == Pair(t, skills[j]);
      assert row[1..] == Row(t, skills[j + 1..]) by {
        assert skills[j..][1..] == skills[j + 1..];
      }
      var step;
      step, present', prompting' := Visit(Pair(t, skills[j]), present', prompting');
      steps := steps + [step];
      j := j + 1;
    }
  }

  /** The nested loop of `Run`: targets in order, and for each target the skills in order. */
  method RunPlan(targets: seq<Target>, skills: seq<Skill>, present: set<Path>, prompting: Prompting) returns (steps: seq<Step>)
    ensures steps == InstallPlan(targets, skills, present, prompting)
  {
    steps := [];
    var now, answers := present, prompting;
    var i := 0;
    while i < |targets|
      invariant 0 <= i <= |targets|
      invariant steps + PlanFrom(Pairs(targets[i..], skills), now, answers) == InstallPlan(targets, skills, present, prompting)
    {
      var row, rest := Row(targets[i], skills), Pairs(targets[i + 1..], skills);
      PairsFrom(targets, skills, i);
      PlanFromAppend(row, rest, now, answers);
      ghost var before := steps;
      var rowSteps;
      rowSteps, now, answers := VisitRow(targets[i], skills, now, answers);
      steps := steps + rowSteps;
      StepsRegroup(before, rowSteps, PlanFrom(rest, now, answers));
      i := i + 1;
    }
    assert targets[i..] == [];
    assert steps + [] == steps;
  }

  lemma PairsFrom(targets: seq<Target>, skills: seq<Skill>, i: nat)
    requires i < |targets|
    ensures Pairs(targets[i..], skills) == Row(targets[i], skills) + Pairs(targets[i + 1..], skills)
  {
    assert targets[i..][1..] == targets[i + 1..];
  }

  lemma StepsRegroup(a: seq<Step>, b: seq<Step>, c: seq<Step>)
    ensures (a + b) + c == a + (b + c)
  {
  }

  /** Whether the destination of a step already existed when the loop reached it. */
  predicate Existed(s: Step) {
    s.Skipped? || s.existed
  }

  /** The destinations of some pairs. */
  function Dests(pairs: seq<Pair>): set<Path> {
    if pairs == [] then {} else {Dest(pairs[0])} + Dests(pairs[1..])
  }

  /**
   * Step `k` of a plan is about pair `k` and its destination, and that
   * destination counts as existing exactly when it existed at the start or
   * an earlier pair installed to it.
   */
  lemma {:induction false} PlanFromShape(pairs: seq<Pair>, present: set<Path>, prompting: Prompting)
    ensures |PlanFrom(pairs, present, prompting)| == |pairs|
    ensures forall k :: 0 <= k < |pairs| ==>
      var s := PlanFrom(pairs, present, prompting)[k];
      s.target == pairs[k].target && s.skill == pairs[k].skill && s.dest == Dest(pairs[k])
    ensures forall k :: 0 <= k < |pairs| ==>
      (Existed(PlanFrom(pairs, present, prompting)[k]) <==> Dest(pairs[k]) in present + Dests(pairs[..k]))
    decreases |pairs|
  {
    if pairs != [] {
      var v := StepFor(pairs[0], present, prompting);
      StepForShape(pairs[0], present, prompting);
      PlanFromShape(pairs[1..], v.present, v.prompting);
      var plan := PlanFrom(pairs, present, prompting);
      forall k | 0 < k < |pairs|
        ensures Existed(plan[k]) <==> Dest(pairs[k]) in present + Dests(pairs[..k])
      {
        assert plan[k] == PlanFrom(pairs[1..], v.present, v.prompting)[k - 1];
        assert pairs[1..][k - 1] == pairs[k];
        assert pairs[..k][1..] == pairs[1..][..k - 1];
        assert Dests(pairs[..k]) == {Dest(pairs[0])} + Dests(pairs[1..][..k - 1]);
      }
      assert pairs[..0] == [];
    }
  }

  /** One step is about its pair and its destination, which then exists. */
  lemma StepForShape(p: Pair, present: set<Path>, prompting: Prompting)
    ensures var v := StepFor(p, present, prompting);
      && v.step.target == p.target && v.step.skill == p.skill && v.step.dest == Dest(p)
      && (Existed(v.step) <==> Dest(p) in present)
      && v.present == present + {Dest(p)}
  {
  }

  lemma {:induction false} PairsLength(targets: seq<Target>, skills: seq<Skill>)
    ensures |Pairs(targets, skills)| == |targets| * |skills|
  {
    if targets != [] {
      PairsLength(targets[1..], skills);
      assert |targets| * |skills| == |skills| + |targets[1..]| * |skills|;
    }
  }

  /** `i * n` by repeated addition, so that the index proof below stays linear. */
  function Times(i: nat, n: nat): nat {
    if i == 0 then 0 else n + Times(i - 1, n)
  }

  lemma {:induction false} TimesIsProduct(i: nat, n: nat)
    ensures Times(i, n) == i * n
  {
    if i > 0 {
      TimesIsProduct(i - 1, n);
      assert i * n == (i - 1) * n + n;
    }
  }

  /** The pairs come target-major: pair `i * |skills| + j` is target `i` with skill `j`. */
  lemma PairsOrder(targets: seq<Target>, skills: seq<Skill>, i: nat, j: nat)
    requires i < |targets| && j < |skills|
    ensures |Pairs(targets, skills)| == |targets| * |skills|
    ensures i * |skills| + j < |Pairs(targets, skills)|
    ensures Pairs(targets, skills)[i * |skills| + j] == Pair(targets[i], skills[j])
  {
    var n := |skills|;
    PairsLength(targets, skills);
    PairAt(targets, skills, i, j);
    TimesIsProduct(i, n);
    assert Times(i, n) + j == i * n + j;
  }

  lemma {:induction false} PairAt(targets: seq<Target>, skills: seq<Skill>, i: nat, j: nat)
    requires i < |targets| && j < |skills|
    ensures Times(i, |skills|) + j < |Pairs(targets, skills)|
    ensures Pairs(targets, skills)[Times(i, |skills|) + j] == Pair(targets[i], skills[j])
  {
    var row, rest := Row(targets[0], skills), targets[1..];
    assert Pairs(targets, skills) == row + Pairs(rest, skills);
    if i == 0 {
      ConcatIndex(row, Pairs(rest, skills), j);
    } else {
      PairAt(rest, skills, i - 1, j);
      var m := Times(i - 1, |skills|) + j;
      assert |row| == |skills| && Times(i, |skills|) == |skills| + Times(i - 1, |skills|);
      ConcatIndex(row, Pairs(rest, skills), |row| + m);
      assert targets[i] == rest[i - 1];
      assert Pairs(targets, skills)[|row| + m] == Pairs(rest, skills)[m];
    }
  }

  lemma ConcatIndex(a: seq<Pair>, b: seq<Pair>, k: nat)
    requires k < |a| + |b|
    ensures k < |a| ==> (a + b)[k] == a[k]
    ensures |a| <= k ==> (a + b)[k] == b[k - |a|]
  {
  }

  /** In the terminal UI with overwriting declined, an existing destination is never replaced. */
  lemma {:induction false} KeepExistingNeverReplaces(pairs: seq<Pair>, present: set<Path>)
    ensures forall s :: s in PlanFrom(pairs, present, Interactive(false)) ==> (s.Installed? ==> !s.existed)
    decreases |pairs|
  {
    if pairs != [] {
      var v := StepFor(pairs[0], present, Interactive(false));
      KeepExistingNeverReplaces(pairs[1..], v.present);
    }
  }

  /** In the terminal UI with overwriting chosen, every pair is installed. */
  lemma {:induction false} OverwriteAllNeverSkips(pairs: seq<Pair>, present: set<Path>)
    ensures forall s :: s in PlanFrom(pairs, present, Interactive(true)) ==> s.Installed?
    decreases |pairs|
  {
    if pairs != [] {
      var v := StepFor(pairs[0], present, Interactive(true));
      OverwriteAllNeverSkips(pairs[1..], v.present);
    }
  }

  /** With no answers left to read, line mode declines every overwrite, as the terminal UI does when overwriting is declined. */
  lemma {:induction false} NoAnswersDecline(pairs: seq<Pair>, present: set<Path>)
    ensures PlanFrom(pairs, present, LineMode([])) == PlanFrom(pairs, present, Interactive(false))
    decreases |pairs|
  {
    if pairs != [] {
      assert !Confirms("") by {
        assert TrimSpace(ToLower("")) == "";
      }
      var v := StepFor(pairs[0], present, Interactive(false));
      NoAnswersDecline(pairs[1..], v.present);
    }
  }

  /**
   * Carrying out one step of the loop: nothing for a skipped pair; for an
   * installed one, remove the existing destination first and then install.
   * In copy mode, a skill that is gone by then (because the destination
   * removed was the skill itself, or held it) makes the install fail.
   */
  method Perform(fs: Install.FileSystem, step: Step, mode: string) returns (err: Option<Install.InstallError>)
    modifies fs
    ensures step.Skipped? ==> err.None? && fs.root == old(fs.root)
    ensures step.Installed? && mode == Install.ModeCopy ==>
      var before := if step.existed then RemoveAt(old(fs.root), step.dest) else old(fs.root);
      Exists(before, step.skill.path) ==>
        && (err.None? <==> Install.CopyOutcome(before, Lookup(before, step.skill.path).value, step.dest).Some?)
        && (err.None? ==> fs.root == Install.CopyOutcome(before, Lookup(before, step.skill.path).value, step.dest).value)
    ensures step.Installed? && mode == Install.ModeCopy ==>
      var before := if step.existed then RemoveAt(old(fs.root), step.dest) else old(fs.root);
      !Exists(before, step.skill.path) ==> err.Some? && fs.root == before
    ensures step.Installed? && mode != Install.ModeCopy && mode != Install.ModeSymlink ==>
      var before := if step.existed then RemoveAt(old(fs.root), step.dest) else old(fs.root);
      err == Some(Install.UnknownMode(mode)) && fs.root == before
    ensures step.Installed? && mode == Install.ModeSymlink ==>
      var before := if step.existed then RemoveAt(old(fs.root), step.dest) else old(fs.root);
      && (err.None? <==> Install.SymlinkOutcome(before, step.skill.path, step.dest).Some?)
      && (err.None? ==> fs.root == Install.SymlinkOutcome(before, step.skill.path, step.dest).value)
  {
    if step.Skipped? {
      return None;
    }
    if step.existed {
      fs.RemoveAll(step.dest);
    }
    err := fs.InstallSkill(step.skill.path, step.dest, mode);
  }

  /**
   * Replacing an existing destination in copy mode leaves an exact copy of
   * the skill there and the skill itself as it was.
   */
  lemma ReplaceMakesCopy(t: Node, src: Path, dest: Path)
    requires Exists(t, src) && |dest| > 0 && ExistsDir(t, Parent(dest))
    requires !IsPrefix(src, dest) && !IsPrefix(dest, src)
    ensures Lookup(RemoveAt(t, dest), src) == Lookup(t, src)
    ensures var t1 := RemoveAt(t, dest);
      && Install.CopyOutcome(t1, Lookup(t, src).value, dest).Some?
      && Lookup(Install.CopyOutcome(t1, Lookup(t, src).value, dest).value, dest) == Lookup(t, src)
      && Lookup(Install.CopyOutcome(t1, Lookup(t, src).value, dest).value, src) == Lookup(t, src)
  {
    LookupRemoveAtElsewhere(t, dest, src);
    LookupRemoveAt(t, dest);
    RemoveAtKeepsParent(t, dest);
    Install.CopyIsExact(RemoveAt(t, dest), src, dest);
  }
}
