/**
 * An in-memory file system: a tree of directories, regular files and
 * symbolic links, addressed by paths made of name components. Each
 * directory maps the names of its entries to their nodes; the walk order is
 * the increasing order of those names, as Go's `filepath.WalkDir` uses.
 */
module FileTree {
  import opened Wrappers
  import opened Text

  newtype byte = x: int | 0 <= x < 256

  /** Permission bits of a file or directory. */
  type FileMode = nat

  /** An absolute path, one name per component; `[]` is the root directory. */
  type Path = seq<string>

  datatype Node =
    | Dir(mode: FileMode, children: map<string, Node>)
    | File(data: seq<byte>, mode: FileMode)
    | Link(target: string)

  /** The node at `p`, without following symbolic links (as `os.Lstat` sees it). */
  function Lookup(n: Node, p: Path): Option<Node>
  {
    if p == [] then Some(n)
    else if n.Dir? && p[0] in n.children then Lookup(n.children[p[0]], p[1..])
    else None
  }

  predicate Exists(n: Node, p: Path) {
    Lookup(n, p).Some?
  }

  predicate ExistsDir(n: Node, p: Path) {
    Lookup(n, p).Some? && Lookup(n, p).value.Dir?
  }

  predicate IsPrefix(p: Path, q: Path) {
    |p| <= |q| && q[..|p|] == p
  }

  function Parent(p: Path): Path
    requires |p| > 0
  {
    p[..|p| - 1]
  }

  /** `filepath.Base`: the last component, or "/" for the root. */
  function Base(p: Path): string {
    if p == [] then "/" else p[|p| - 1]
  }

  /** `filepath.Dir`: the parent directory; the root is its own parent. */
  function DirOf(p: Path): Path {
    if p == [] then [] else Parent(p)
  }

  /** Puts `x` at `p` when the parent of `p` is a directory; otherwise changes nothing. */
  function SetAt(n: Node, p: Path, x: Node): Node
  {
    if p == [] then x
    else if !n.Dir? then n
    else if |p| == 1 then n.(children := n.children[p[0] := x])
    else if p[0] in n.children then n.(children := n.children[p[0] := SetAt(n.children[p[0]], p[1..], x)])
    else n
  }

  /** Removes the entry at `p` and everything under it; the root is never removed. */
  function RemoveAt(n: Node, p: Path): Node
  {
    if p == [] || !n.Dir? then n
    else if |p| == 1 then n.(children := n.children - {p[0]})
    else if p[0] in n.children then n.(children := n.children[p[0] := RemoveAt(n.children[p[0]], p[1..])])
    else n
  }

  /** A chain of empty directories along `p`, all with permission `mode`. */
  function DirChain(p: Path, mode: FileMode): Node
  {
    if p == [] then Dir(mode, map[]) else Dir(mode, map[p[0] := DirChain(p[1..], mode)])
  }

  /**
   * `os.MkdirAll`: existing directories are kept as they are, missing ones
   * are created with `mode`, and an entry on the way that is not a
   * directory is an error.
   */
  function MkdirAllAt(n: Node, p: Path, mode: FileMode): Option<Node>
  {
    if p == [] then (if n.Dir? then Some(n) else None)
    else if !n.Dir? then None
    else if p[0] in n.children then
      match MkdirAllAt(n.children[p[0]], p[1..], mode)
      case None => None
      case Some(c) => Some(n.(children := n.children[p[0] := c]))
    else Some(n.(children := n.children[p[0] := DirChain(p[1..], mode)]))
  }

  /** A path component as the file system allows it: not empty, no separator. */
  predicate ValidName(s: string) {
    s != [] && '/' !in s
  }

  predicate ValidPath(p: Path) {
    forall i :: 0 <= i < |p| ==> ValidName(p[i])
  }

  /** The path as a string, as the Go code passes it to `os.Symlink`. */
  function PathString(p: Path): string {
    if p == [] then "/" else Join([""] + p, '/')
  }

  function NonEmpty(parts: seq<string>): (r: seq<string>)
    ensures forall i :: 0 <= i < |r| ==> r[i] != []
  {
    if parts == [] then []
    else if parts[0] == [] then NonEmpty(parts[1..])
    else [parts[0]] + NonEmpty(parts[1..])
  }

  /** Reads an absolute path string back into components. */
  function ToPath(s: string): Path {
    NonEmpty(Split(s, '/'))
  }

  lemma {:induction false} NonEmptyKeeps(parts: seq<string>)
    requires forall i :: 0 <= i < |parts| ==> parts[i] != []
    ensures NonEmpty(parts) == parts
  {
    if parts != [] {
      NonEmptyKeeps(parts[1..]);
    }
  }

  /** A symbolic link made from `PathString(p)` leads back to exactly `p`. */
  lemma PathStringRoundTrip(p: Path)
    requires ValidPath(p)
    ensures ToPath(PathString(p)) == p
  {
    if p == [] {
      assert Split("/", '/') == ["", ""] by {
        assert IndexOf("/", '/') == 0;
        assert ("/")[1..] == "";
      }
    } else {
      var parts := [""] + p;
      SplitJoin(parts, '/');
      assert NonEmpty(parts) == NonEmpty(p);
      NonEmptyKeeps(p);
    }
  }

  lemma LookupChild(n: Node, k: string)
    requires n.Dir? && k in n.children
    ensures Lookup(n, [k]) == Some(n.children[k])
  {
    assert [k][1..] == [];
  }

  lemma {:induction false} LookupSetAt(n: Node, p: Path, x: Node)
    requires |p| > 0 ==> ExistsDir(n, Parent(p))
    ensures Lookup(SetAt(n, p, x), p) == Some(x)
  {
    if |p| > 1 {
      assert Parent(p)[1..] == Parent(p[1..]);
      LookupSetAt(n.children[p[0]], p[1..], x);
    }
  }

  /** Setting one path leaves every path that is not above or below it as it was. */
  lemma {:induction false} LookupSetAtElsewhere(n: Node, p: Path, x: Node, q: Path)
    requires !IsPrefix(p, q) && !IsPrefix(q, p)
    ensures Lookup(SetAt(n, p, x), q) == Lookup(n, q)
  {
    if n.Dir? && |p| > 1 && p[0] in n.children && |q| > 0 && q[0] == p[0] {
      assert !IsPrefix(p[1..], q[1..]) && !IsPrefix(q[1..], p[1..]);
      LookupSetAtElsewhere(n.children[p[0]], p[1..], x, q[1..]);
    } else if n.Dir? && |p| == 1 && |q| > 0 {
      assert q[0] != p[0];
    }
  }

  lemma {:induction false} SetAtTwice(n: Node, p: Path, x: Node, y: Node)
    ensures SetAt(SetAt(n, p, x), p, y) == SetAt(n, p, y)
  {
    if n.Dir? && |p| > 1 && p[0] in n.children {
      SetAtTwice(n.children[p[0]], p[1..], x, y);
    }
  }

  /** Adding an entry below a directory just placed at `d` is placing the larger directory. */
  lemma {:induction false} SetAtNested(n: Node, d: Path, dir: Node, k: string, c: Node)
    requires dir.Dir?
    requires |d| > 0 ==> ExistsDir(n, Parent(d))
    ensures SetAt(SetAt(n, d, dir), d + [k], c) == SetAt(n, d, dir.(children := dir.children[k := c]))
  {
    if |d| > 0 {
      assert (d + [k])[0] == d[0] && (d + [k])[1..] == d[1..] + [k];
      if |d| == 1 {
        assert d[1..] + [k] == [k];
        assert SetAt(dir, [k], c) == dir.(children := dir.children[k := c]);
      } else {
        assert Parent(d)[1..] == Parent(d[1..]);
        var child := n.children[d[0]];
        SetAtNested(child, d[1..], dir, k, c);
        var m := SetAt(n, d, dir);
        assert m == n.(children := n.children[d[0] := SetAt(child, d[1..], dir)]);
        assert m.children[d[0]] == SetAt(child, d[1..], dir);
      }
    }
  }

  lemma {:induction false} RemoveAtAbsent(n: Node, p: Path)
    requires !Exists(n, p)
    ensures RemoveAt(n, p) == n
  {
    if n.Dir? && |p| == 1 {
      assert p == [p[0]];
      if p[0] in n.children {
        LookupChild(n, p[0]);
      }
      assert n.children - {p[0]} == n.children;
    } else if n.Dir? && |p| > 1 && p[0] in n.children {
      RemoveAtAbsent(n.children[p[0]], p[1..]);
      assert n.children[p[0] := n.children[p[0]]] == n.children;
    }
  }

  lemma {:induction false} LookupRemoveAt(n: Node, p: Path)
    requires |p| > 0
    ensures !Exists(RemoveAt(n, p), p)
  {
    if n.Dir? && |p| > 1 && p[0] in n.children {
      LookupRemoveAt(n.children[p[0]], p[1..]);
    }
  }

  /** Removing what was just placed at a fresh path restores the tree. */
  lemma {:induction false} RemoveAtSetAt(n: Node, p: Path, x: Node)
    requires |p| > 0 && ExistsDir(n, Parent(p)) && !Exists(n, p)
    ensures RemoveAt(SetAt(n, p, x), p) == n
  {
    if |p| == 1 {
      assert Lookup(n, []) == Some(n);
      assert p == [p[0]];
      if p[0] in n.children {
        LookupChild(n, p[0]);
      }
      assert n.children[p[0] := x] - {p[0]} == n.children;
    } else {
      assert Parent(p)[1..] == Parent(p[1..]);
      RemoveAtSetAt(n.children[p[0]], p[1..], x);
      assert n.children[p[0] := n.children[p[0]]] == n.children;
    }
  }

  lemma {:induction false} MkdirAllExisting(n: Node, p: Path, mode: FileMode)
    requires ExistsDir(n, p)
    ensures MkdirAllAt(n, p, mode) == Some(n)
  {
    if p != [] {
      MkdirAllExisting(n.children[p[0]], p[1..], mode);
      assert n.children[p[0] := n.children[p[0]]] == n.children;
    }
  }

  lemma {:induction false} MkdirAllFresh(n: Node, p: Path, mode: FileMode)
    requires |p| > 0 && ExistsDir(n, Parent(p)) && !Exists(n, p)
    ensures MkdirAllAt(n, p, mode) == Some(SetAt(n, p, Dir(mode, map[])))
  {
    if |p| > 1 {
      assert Parent(p)[1..] == Parent(p[1..]);
      MkdirAllFresh(n.children[p[0]], p[1..], mode);
    } else {
      assert Lookup(n, []) == Some(n);
      assert p == [p[0]];
      if p[0] in n.children {
        LookupChild(n, p[0]);
      }
      assert p[1..] == [];
    }
  }

  lemma {:induction false} DirChainHoldsDir(p: Path, mode: FileMode)
    ensures ExistsDir(DirChain(p, mode), p)
  {
    if p != [] {
      DirChainHoldsDir(p[1..], mode);
    }
  }

  /** When `os.MkdirAll` succeeds, the path is a directory. */
  lemma {:induction false} MkdirAllMakesDir(n: Node, p: Path, mode: FileMode)
    requires MkdirAllAt(n, p, mode).Some?
    ensures ExistsDir(MkdirAllAt(n, p, mode).value, p)
  {
    if p != [] {
      if p[0] in n.children {
        MkdirAllMakesDir(n.children[p[0]], p[1..], mode);
      } else {
        DirChainHoldsDir(p[1..], mode);
      }
    }
  }

  /** Looking up a longer path is looking up the rest of it from the node at the prefix. */
  lemma {:induction false} LookupAppend(n: Node, p: Path, q: Path)
    ensures Lookup(n, p + q) == (if Lookup(n, p).Some? then Lookup(Lookup(n, p).value, q) else None)
  {
    if p == [] {
      assert p + q == q;
    } else {
      assert (p + q)[0] == p[0] && (p + q)[1..] == p[1..] + q;
      if n.Dir? && p[0] in n.children {
        LookupAppend(n.children[p[0]], p[1..], q);
      }
    }
  }

  /** Removing one path leaves every path that is not above or below it as it was. */
  lemma {:induction false} LookupRemoveAtElsewhere(n: Node, p: Path, q: Path)
    requires !IsPrefix(p, q) && !IsPrefix(q, p)
    ensures Lookup(RemoveAt(n, p), q) == Lookup(n, q)
  {
    if p != [] && n.Dir? && |q| > 0 {
      if |p| == 1 {
        assert q[0] != p[0];
      } else if p[0] in n.children && q[0] == p[0] {
        assert !IsPrefix(p[1..], q[1..]) && !IsPrefix(q[1..], p[1..]);
        LookupRemoveAtElsewhere(n.children[p[0]], p[1..], q[1..]);
      }
    }
  }

  /** Removing an entry leaves its parent a directory. */
  lemma {:induction false} RemoveAtKeepsParent(n: Node, p: Path)
    requires |p| > 0 && ExistsDir(n, Parent(p))
    ensures ExistsDir(RemoveAt(n, p), Parent(p))
  {
    if |p| > 1 {
      assert Parent(p)[1..] == Parent(p[1..]);
      RemoveAtKeepsParent(n.children[p[0]], p[1..]);
    }
  }

  /** Placing an entry leaves its parent a directory. */
  lemma {:induction false} SetAtKeepsParent(n: Node, p: Path, x: Node)
    requires |p| > 0 && ExistsDir(n, Parent(p))
    ensures ExistsDir(SetAt(n, p, x), Parent(p))
  {
    if |p| > 1 {
      assert Parent(p)[1..] == Parent(p[1..]);
      SetAtKeepsParent(n.children[p[0]], p[1..], x);
    }
  }
}
