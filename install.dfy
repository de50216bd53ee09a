/**
 * Installing a skill directory into a target (installer.go): as a symbolic
 * link to the source, or as a recursive copy that recreates directories,
 * symbolic links and regular files. The file system is a mutable tree that
 * the Go `os` calls update one entry at a time.
 */
module Install {
  import opened Wrappers
  import opened Text
  import opened FileTree

  /** Permission `0o755` for parent directories the installer creates. */
  const ParentPerm: FileMode := 493

  /** Permission `0o666` that `os.Create` gives a new file (before the umask). */
  const CreatePerm: FileMode := 438

  const ModeSymlink: string := "symlink"
  const ModeCopy: string := "copy"

  datatype InstallError =
    | UnknownMode(mode: string)
    | CreateParentDir
    | FileSystemError

  /** A path whose parent is a directory and that does not exist yet: where a new entry can be put. */
  predicate Vacant(t: Node, p: Path) {
    |p| > 0 && ExistsDir(t, Parent(p)) && !Exists(t, p)
  }

  /** What `os.Create` accepts: a parent directory, and no entry or a regular file at the path. */
  predicate Creatable(t: Node, p: Path) {
    |p| > 0 && ExistsDir(t, Parent(p)) && (!Exists(t, p) || Lookup(t, p).value.File?)
  }

  /**
   * Making the parent of `target`, removing whatever is at `target` and
   * linking it to `linkTarget`: the tree left, or `None` when a step fails.
   */
  function LinkOutcome(t: Node, target: Path, linkTarget: string): Option<Node> {
    match MkdirAllAt(t, DirOf(target), ParentPerm)
    case None => None
    case Some(t1) =>
      var t2 := RemoveAt(t1, target);
      if Vacant(t2, target) then Some(SetAt(t2, target, Link(linkTarget))) else None
  }

  /** The tree `installSymlink` leaves, or `None` when it fails. */
  function SymlinkOutcome(t: Node, src: Path, dest: Path): Option<Node> {
    LinkOutcome(t, dest, PathString(src))
  }

  /**
   * The tree the `copyDir` walk leaves after copying the node `n` to
   * `target` in the tree `t`, or `None` when a step fails: links are
   * recreated, files created and written, directories made with
   * `os.MkdirAll` (an existing directory keeps its mode and entries) and
   * then filled entry by entry in lexical order.
   */
  function CopyOutcome(t: Node, n: Node, target: Path): Option<Node>
    decreases n, 1
  {
    match n
    case Link(linkTarget) => LinkOutcome(t, target, linkTarget)
    case File(data, mode) =>
      (match MkdirAllAt(t, DirOf(target), ParentPerm)
       case None => None
       case Some(t1) => if Creatable(t1, target) then Some(SetAt(t1, target, File(data, mode))) else None)
    case Dir(mode, children) =>
      (match MkdirAllAt(t, target, mode)
       case None => None
       case Some(t1) => CopyEntries(t1, n, SortedKeys(children.Keys), target))
  }

  /** Copies the entries of the directory `n` named in `keys`, one after the other. */
  function CopyEntries(t: Node, n: Node, keys: seq<string>, target: Path): Option<Node>
    requires n.Dir?
    requires forall k :: k in keys ==> k in n.children
    decreases n, 0, |keys|
  {
    if keys == [] then Some(t)
    else
      var last := keys[|keys| - 1];
      match CopyEntries(t, n, keys[..|keys| - 1], target)
      case None => None
      case Some(t1) => CopyOutcome(t1, n.children[last], target + [last])
  }

  class FileSystem {
    var root: Node

    constructor (root: Node)
      ensures this.root == root
    {
      this.root := root;
    }

    /** `os.MkdirAll`. */
    method MkdirAll(p: Path, mode: FileMode) returns (ok: bool)
      modifies this
      ensures ok == MkdirAllAt(old(root), p, mode).Some?
      ensures ok ==> root == MkdirAllAt(old(root), p, mode).value
      ensures !ok ==> root == old(root)
    {
      var r := MkdirAllAt(root, p, mode);
      if r.None? {
        return false;
      }
      root := r.value;
      return true;
    }

    /** `os.RemoveAll`: a missing path is not an error. */
    method RemoveAll(p: Path)
      modifies this
      ensures root == RemoveAt(old(root), p)
    {
      root := RemoveAt(root, p);
    }

    /** `os.Symlink`: fails when the path exists or its parent is not a directory. */
    method Symlink(target: string, p: Path) returns (ok: bool)
      modifies this
      ensures ok == Vacant(old(root), p)
      ensures ok ==> root == SetAt(old(root), p, Link(target))
      ensures !ok ==> root == old(root)
    {
      if !Vacant(root, p) {
        return false;
      }
      root := SetAt(root, p, Link(target));
      return true;
    }

    /** `copyFile`: create (or truncate), write the bytes, then set the permission. */
    method CopyFile(data: seq<byte>, dest: Path, mode: FileMode) returns (ok: bool)
      modifies this
      ensures ok == Creatable(old(root), dest)
      ensures ok ==> root == SetAt(old(root), dest, File(data, mode))
      ensures !ok ==> root == old(root)
    {
      if !Creatable(root, dest) {
        return false;
      }
      var existing := Lookup(root, dest);
      var perm := if existing.Some? then existing.value.mode else CreatePerm;
      root := SetAt(root, dest, File([], perm));
      root := SetAt(root, dest, File(data, perm));
      root := SetAt(root, dest, File(data, mode));
      SetAtTwice(old(root), dest, File([], perm), File(data, perm));
      SetAtTwice(old(root), dest, File(data, perm), File(data, mode));
      return true;
    }

    /** Make the parent, remove what is at `target`, and link it. */
    method PlaceLink(linkTarget: string, target: Path) returns (ok: bool)
      modifies this
      ensures ok == LinkOutcome(old(root), target, linkTarget).Some?
      ensures ok ==> root == LinkOutcome(old(root), target, linkTarget).value
    {
      ok := MkdirAll(DirOf(target), ParentPerm);
      if !ok {
        return;
      }
      RemoveAll(target);
      ok := Symlink(linkTarget, target);
    }

    /**
     * The `copyDir` walk callback for `n` and, for a directory, its entries
     * in lexical order. What is left after a failed step is not described.
     */
    method CopyNode(n: Node, target: Path) returns (ok: bool)
      modifies this
      ensures ok == CopyOutcome(old(root), n, target).Some?
      ensures ok ==> root == CopyOutcome(old(root), n, target).value
      decreases n, 1
    {
      match n
      case Link(linkTarget) =>
        ok := PlaceLink(linkTarget, target);
      case File(data, mode) =>
        ok := MkdirAll(DirOf(target), ParentPerm);
        if !ok {
          return;
        }
        ok := CopyFile(data, target, mode);
      case Dir(mode, children) =>
        ok := MkdirAll(target, mode);
        if !ok {
          return;
        }
        var keys := SortedKeys(children.Keys);
        ok := CopyChildren(n, keys, target);
    }

    /** The entries of the directory `n` named in `keys`, copied one after the other under `target`. */
    method CopyChildren(n: Node, keys: seq<string>, target: Path) returns (ok: bool)
      requires n.Dir? && forall k :: k in keys ==> k in n.children
      modifies this
      ensures ok == CopyEntries(old(root), n, keys, target).Some?
      ensures ok ==> root == CopyEntries(old(root), n, keys, target).value
      decreases n, 0
    {
      ghost var made := root;
      var i := 0;
      while i < |keys|
        invariant 0 <= i <= |keys|
        invariant CopyEntries(made, n, keys[..i], target) == Some(root)
      {
        var k := keys[i];
        assert keys[..i + 1][..i] == keys[..i] && keys[..i + 1][i] == k;
        ok := CopyNode(n.children[k], target + [k]);
        if !ok {
          EntriesFail(made, n, keys, i + 1, target);
          return;
        }
        i := i + 1;
      }
      assert keys[..|keys|] == keys;
      return true;
    }

    /** `copyDir`: walks the source and recreates it at the destination. */
    method CopyDir(src: Path, dest: Path) returns (ok: bool)
      modifies this
      ensures !Exists(old(root), src) ==> !ok && root == old(root)
      ensures Exists(old(root), src) ==> ok == CopyOutcome(old(root), Lookup(old(root), src).value, dest).Some?
      ensures Exists(old(root), src) && ok ==> root == CopyOutcome(old(root), Lookup(old(root), src).value, dest).value
    {
      var node := Lookup(root, src);
      if node.None? {
        return false;
      }
      ok := CopyNode(node.value, dest);
    }

    /** `installSymlink`: make the parent, remove what is there, link to the source. */
    method InstallSymlink(src: Path, dest: Path) returns (err: Option<InstallError>)
      modifies this
      ensures MkdirAllAt(old(root), DirOf(dest), ParentPerm).None? ==> err == Some(CreateParentDir) && root == old(root)
      ensures err.None? <==> SymlinkOutcome(old(root), src, dest).Some?
      ensures err.None? ==> root == SymlinkOutcome(old(root), src, dest).value
    {
      var made := MkdirAll(DirOf(dest), ParentPerm);
      if !made {
        return Some(CreateParentDir);
      }
      RemoveAll(dest);
      var linked := Symlink(PathString(src), dest);
      if !linked {
        return Some(FileSystemError);
      }
      return None;
    }

    /** `InstallSkill`: dispatches on the install mode. */
    method InstallSkill(src: Path, dest: Path, mode: string) returns (err: Option<InstallError>)
      modifies this
      ensures mode != ModeSymlink && mode != ModeCopy ==> err == Some(UnknownMode(mode)) && root == old(root)
      ensures mode == ModeSymlink ==> (err.None? <==> SymlinkOutcome(old(root), src, dest).Some?)
      ensures mode == ModeSymlink && err.None? ==> root == SymlinkOutcome(old(root), src, dest).value
      ensures mode == ModeCopy && !Exists(old(root), src) ==> err.Some? && root == old(root)
      ensures mode == ModeCopy && Exists(old(root), src) ==>
        (err.None? <==> CopyOutcome(old(root), Lookup(old(root), src).value, dest).Some?)
      ensures mode == ModeCopy && Exists(old(root), src) && err.None? ==>
        root == CopyOutcome(old(root), Lookup(old(root), src).value, dest).value
    {
      if mode == ModeSymlink {
        err := InstallSymlink(src, dest);
      } else if mode == ModeCopy {
        var ok := CopyDir(src, dest);
        err := if ok then None else Some(FileSystemError);
      } else {
        err := Some(UnknownMode(mode));
      }
    }
  }

  /** Once an entry fails, the whole directory copy fails. */
  lemma {:induction false} EntriesFail(t: Node, n: Node, keys: seq<string>, j: nat, target: Path)
    requires n.Dir? && forall k :: k in keys ==> k in n.children
    requires j <= |keys| && CopyEntries(t, n, keys[..j], target).None?
    ensures CopyEntries(t, n, keys, target).None?
    decreases |keys| - j
  {
    if j < |keys| {
      assert keys[..j + 1][..j] == keys[..j];
      EntriesFail(t, n, keys, j + 1, target);
    } else {
      assert keys[..j] == keys;
    }
  }

  /** The entries of `m` named in `ks`. */
  function Restrict(m: map<string, Node>, ks: seq<string>): (r: map<string, Node>)
    requires forall k :: k in ks ==> k in m
    ensures forall k :: k in r <==> k in ks
  {
    if ks == [] then map[]
    else Restrict(m, ks[..|ks| - 1])[ks[|ks| - 1] := m[ks[|ks| - 1]]]
  }

  lemma {:induction false} RestrictAll(m: map<string, Node>, ks: seq<string>)
    requires forall k :: k in ks <==> k in m
    ensures Restrict(m, ks) == m
  {
    var r := Restrict(m, ks);
    forall k | k in ks
      ensures r[k] == m[k]
    {
      RestrictValue(m, ks, k);
    }
  }

  lemma {:induction false} RestrictValue(m: map<string, Node>, ks: seq<string>, k: string)
    requires forall k :: k in ks ==> k in m
    requires k in ks
    ensures Restrict(m, ks)[k] == m[k]
  {
    if ks[|ks| - 1] != k {
      assert k in ks[..|ks| - 1];
      RestrictValue(m, ks[..|ks| - 1], k);
    }
  }

  /** An entry not yet copied into a freshly made directory is vacant. */
  lemma EntryVacant(t: Node, target: Path, mode: FileMode, done: map<string, Node>, k: string)
    requires Vacant(t, target) && k !in done
    ensures Vacant(SetAt(t, target, Dir(mode, done)), target + [k])
  {
    var t1 := SetAt(t, target, Dir(mode, done));
    LookupSetAt(t, target, Dir(mode, done));
    LookupAppend(t1, target, [k]);
    assert Parent(target + [k]) == target;
  }

  /**
   * Copying into a vacant path puts a node there identical to the source:
   * the same directory modes and entries, file bytes and modes, and link
   * targets.
   */
  lemma {:induction false} CopyVacant(t: Node, n: Node, target: Path)
    requires Vacant(t, target)
    ensures CopyOutcome(t, n, target) == Some(SetAt(t, target, n))
    decreases n, 1
  {
    match n
    case Link(_) =>
      MkdirAllExisting(t, Parent(target), ParentPerm);
      RemoveAtAbsent(t, target);
    case File(_, _) =>
      MkdirAllExisting(t, Parent(target), ParentPerm);
    case Dir(mode, children) =>
      MkdirAllFresh(t, target, mode);
      var keys := SortedKeys(children.Keys);
      CopyEntriesVacant(t, n, keys, target);
      RestrictAll(children, keys);
  }

  lemma {:induction false} CopyEntriesVacant(t: Node, n: Node, keys: seq<string>, target: Path)
    requires n.Dir? && Vacant(t, target)
    requires forall k :: k in keys ==> k in n.children
    requires StrictlyIncreasing(keys)
    ensures CopyEntries(SetAt(t, target, Dir(n.mode, map[])), n, keys, target)
         == Some(SetAt(t, target, Dir(n.mode, Restrict(n.children, keys))))
    decreases n, 0, |keys|
  {
    if keys != [] {
      var init, last := keys[..|keys| - 1], keys[|keys| - 1];
      CopyEntriesVacant(t, n, init, target);
      var done := Restrict(n.children, init);
      forall j | 0 <= j < |init|
        ensures init[j] != last
      {
        assert Less(keys[j], keys[|keys| - 1]);
      }
      assert last !in done;
      EntryVacant(t, target, n.mode, done, last);
      CopyVacant(SetAt(t, target, Dir(n.mode, done)), n.children[last], target + [last]);
      SetAtNested(t, target, Dir(n.mode, done), last, n.children[last]);
    }
  }

  /**
   * A symbolic-link install succeeds exactly when the parent directory can be
   * made (and the destination is not the root), and leaves a link whose target
   * reads back as the source path.
   */
  lemma SymlinkLinks(t: Node, src: Path, dest: Path)
    requires ValidPath(src)
    ensures SymlinkOutcome(t, src, dest).Some? <==> |dest| > 0 && MkdirAllAt(t, DirOf(dest), ParentPerm).Some?
    ensures SymlinkOutcome(t, src, dest).Some? ==>
      && Lookup(SymlinkOutcome(t, src, dest).value, dest) == Some(Link(PathString(src)))
      && ToPath(PathString(src)) == src
  {
    PathStringRoundTrip(src);
    var made := MkdirAllAt(t, DirOf(dest), ParentPerm);
    if |dest| > 0 && made.Some? {
      MkdirAllMakesDir(t, DirOf(dest), ParentPerm);
      RemoveAtKeepsParent(made.value, dest);
      LookupRemoveAt(made.value, dest);
      LookupSetAt(RemoveAt(made.value, dest), dest, Link(PathString(src)));
    }
  }

  /** Installing the same link twice leaves the same tree as installing it once. */
  lemma SymlinkIdempotent(t: Node, src: Path, dest: Path)
    requires SymlinkOutcome(t, src, dest).Some?
    ensures SymlinkOutcome(SymlinkOutcome(t, src, dest).value, src, dest) == SymlinkOutcome(t, src, dest)
  {
    var t1 := MkdirAllAt(t, DirOf(dest), ParentPerm).value;
    var t2 := RemoveAt(t1, dest);
    var t3 := SetAt(t2, dest, Link(PathString(src)));
    MkdirAllMakesDir(t, DirOf(dest), ParentPerm);
    RemoveAtKeepsParent(t1, dest);
    SetAtKeepsParent(t2, dest, Link(PathString(src)));
    MkdirAllExisting(t3, DirOf(dest), ParentPerm);
    RemoveAtSetAt(t2, dest, Link(PathString(src)));
  }

  /**
   * A copy-mode install into a vacant destination leaves an identical copy
   * of the source there and the source as it was.
   */
  lemma CopyIsExact(t: Node, src: Path, dest: Path)
    requires Exists(t, src) && Vacant(t, dest)
    requires !IsPrefix(src, dest)
    ensures CopyOutcome(t, Lookup(t, src).value, dest).Some?
    ensures Lookup(CopyOutcome(t, Lookup(t, src).value, dest).value, dest) == Lookup(t, src)
    ensures Lookup(CopyOutcome(t, Lookup(t, src).value, dest).value, src) == Lookup(t, src)
  {
    CopyVacant(t, Lookup(t, src).value, dest);
    LookupSetAt(t, dest, Lookup(t, src).value);
    if IsPrefix(dest, src) {
      assert src == dest + src[|dest|..];
      LookupAppend(t, dest, src[|dest|..]);
      assert false;
    }
    LookupSetAtElsewhere(t, dest, Lookup(t, src).value, src);
  }
}
