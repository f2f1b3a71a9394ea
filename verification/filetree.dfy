/** A file system tree, the operations the agent performs on it, and the places where they can fail. */
module FileTree {
  import opened Paths
  import opened Wrappers

  type Bytes = seq<bv8>

  /** A node as Lstat sees it. Special stands for sockets, pipes and devices. */
  datatype Node =
    | Dir
    | File(data: Bytes, perm: nat, mtime: int)
    | Symlink(target: string)
    | Special

  type Tree = map<Path, Node>

  function Get(t: Tree, p: Path): Option<Node> {
    if p in t then Some(t[p]) else None
  }

  predicate IsDir(t: Tree, p: Path) {
    p in t && t[p].Dir?
  }

  function Parent(p: Path): Path
    requires p != []
  {
    p[..|p| - 1]
  }

  /** Every node has a clean name and lies in a real directory; the root is one. */
  ghost predicate WellFormed(t: Tree) {
    && IsDir(t, [])
    && (forall p {:trigger CleanPath(p)} | p in t :: CleanPath(p))
    && (forall p {:trigger Parent(p)} | p in t && p != [] :: IsDir(t, Parent(p)))
  }

  /** Whatever is there on the way to p is a real directory. */
  ghost predicate RealWay(t: Tree, p: Path) {
    forall q | q < p && q in t :: t[q].Dir?
  }

  /** The names directly inside a directory. */
  ghost predicate IsChild(t: Tree, p: Path, n: Name) {
    p + [n] in t
  }

  /** The tree after rename(2) moved the node at `from`, with all below it, to the free place `to`. */
  function Moved(t: Tree, from: Path, to: Path): Tree {
    (map p | p in t && !(from <= p) :: t[p]) + Relocated(t, from, to)
  }

  function Relocated(t: Tree, from: Path, to: Path): Tree {
    var images := set p | p in t && from <= p :: to + p[|from|..];
    assert forall q <- images :: from + q[|to|..] in t by {
      forall q <- images
        ensures from + q[|to|..] in t
      {
        var p :| p in t && from <= p && q == to + p[|from|..];
        assert from + q[|to|..] == p;
      }
    }
    map q | q in images :: t[from + q[|to|..]]
  }

  /** What Moved means, place by place. */
  ghost predicate IsMoved(t: Tree, after: Tree, from: Path, to: Path) {
    forall q :: Get(after, q) == MovedNode(t, from, to, q)
  }

  ghost function MovedNode(t: Tree, from: Path, to: Path, q: Path): Option<Node> {
    if to <= q && from + q[|to|..] in t then Get(t, from + q[|to|..])
    else if from <= q then None
    else Get(t, q)
  }

  lemma MovedAt(t: Tree, from: Path, to: Path, q: Path)
    requires !(from <= to)
    ensures Get(Moved(t, from, to), q) == MovedNode(t, from, to, q)
  {
    var images := set p | p in t && from <= p :: to + p[|from|..];
    forall p | p in t && from <= p && q == to + p[|from|..]
      ensures to <= q && from + q[|to|..] == p
    {
    }
    if to <= q && from + q[|to|..] in t {
      var p := from + q[|to|..];
      assert from <= p && q == to + p[|from|..];
      assert q in images;
    }
  }

  /** Two prefixes of one path are comparable. */
  lemma PrefixesCompare(a: Path, b: Path, p: Path)
    requires a <= p && b <= p
    ensures a <= b || b <= a
  {
    assert a == p[..|a|] && b == p[..|b|];
    if |a| <= |b| {
      assert b[..|a|] == a;
    } else {
      assert a[..|b|] == b;
    }
  }

  lemma {:induction false} AncestorIsDir(t: Tree, p: Path, q: Path)
    requires WellFormed(t) && p in t && q < p
    ensures IsDir(t, q)
    decreases |p|
  {
    if |q| < |p| - 1 {
      AncestorIsDir(t, Parent(p), q);
    } else {
      assert q == Parent(p);
    }
  }

  lemma RealWayInDir(t: Tree, p: Path)
    requires WellFormed(t) && p != [] && IsDir(t, Parent(p))
    ensures RealWay(t, p)
  {
    forall q | q < p && q in t
      ensures t[q].Dir?
    {
      if q != Parent(p) {
        assert q < Parent(p);
        AncestorIsDir(t, Parent(p), q);
      }
    }
  }

  /** Nothing lies below a free place or below a node that is not a directory. */
  lemma NothingBelow(t: Tree, p: Path, q: Path)
    requires WellFormed(t) && !IsDir(t, p) && p < q
    ensures q !in t
  {
    if q in t {
      AncestorIsDir(t, q, p);
    }
  }

  /** Rename keeps the tree well formed. */
  lemma MovedWellFormed(t: Tree, from: Path, to: Path)
    requires WellFormed(t) && from in t && to !in t && to != [] && !(from <= to)
    requires IsDir(t, Parent(to)) && CleanPath(to)
    ensures WellFormed(Moved(t, from, to))
  {
    var u := Moved(t, from, to);
    forall p
      ensures p in u ==> CleanPath(p)
      ensures p in u && p != [] ==> IsDir(u, Parent(p))
      ensures p == [] ==> IsDir(u, p)
    {
      MovedAt(t, from, to, p);
      if to <= p && from + p[|to|..] in t {
        var source := from + p[|to|..];
        assert CleanPath(source);
        assert p == to + p[|to|..];
        assert forall n <- p[|to|..] :: n in source;
        MovedAt(t, from, to, Parent(p));
        if p == to {
          assert !(from <= Parent(to));
        } else {
          assert Parent(source) == from + Parent(p)[|to|..];
        }
      } else if p in u && p != [] {
        assert CleanPath(p);
        MovedAt(t, from, to, Parent(p));
        assert from <= Parent(p) ==> from <= p;
        if to <= Parent(p) {
          assert to < p;
          NothingBelow(t, to, p);
        }
      }
    }
  }

  datatype Stat = Missing | Found(node: Node) | StatFailed

  /**
   * The file system as a process of the agent sees it. The n-th operation of the process fails when `fails(n)` says so:
   * one operation for an I/O error, every one from some n on for a process that ends there.
   *
   * Every operation demands that the directory holding its path is a real one, so a caller that verifies never
   * works through a symlink.
   */
  class FileSystem {
    var nodes: Tree
    const fails: nat -> bool
    var ops: nat

    ghost predicate Valid()
      reads this
    {
      WellFormed(nodes)
    }

    /** No operation fails. */
    ghost predicate Sound() {
      forall n {:trigger fails(n)} :: !fails(n)
    }

    /** How many of the first n operations fail. */
    ghost function FaultsAmong(n: nat): (f: nat)
      ensures Sound() ==> f == 0
    {
      if n == 0 then 0 else FaultsAmong(n - 1) + if fails(n - 1) then 1 else 0
    }

    /** How many operations have failed: only these excuse a call. */
    ghost function Faults(): (f: nat)
      reads this`ops
      ensures Sound() ==> f == 0
    {
      FaultsAmong(ops)
    }

    constructor (t: Tree, fails: nat -> bool)
      requires WellFormed(t)
      ensures Valid() && nodes == t && this.fails == fails
    {
      nodes, ops := t, 0;
      this.fails := fails;
    }

    method Try() returns (ok: bool)
      modifies this`ops
      ensures Faults() == old(Faults()) + if ok then 0 else 1
    {
      ok := !fails(ops);
      ops := ops + 1;
    }

    method Lstat(p: Path) returns (s: Stat)
      requires Valid() && RealWay(nodes, p)
      modifies this`ops
      ensures s.StatFailed? || s == if p in nodes then Found(nodes[p]) else Missing
      ensures Faults() == old(Faults()) + if s.StatFailed? then 1 else 0
    {
      var ok := Try();
      s := if !ok then StatFailed else if p in nodes then Found(nodes[p]) else Missing;
    }

    /** The names in a directory, each once, in some order. */
    method ReadDir(p: Path) returns (ok: bool, names: seq<Name>)
      requires Valid() && IsDir(nodes, p)
      modifies this`ops
      ensures ok ==> forall n :: n in names <==> IsChild(nodes, p, n)
      ensures forall i, j | 0 <= i < j < |names| :: names[i] != names[j]
      ensures Faults() == old(Faults()) + if ok then 0 else 1
    {
      names := [];
      ok := Try();
      if !ok {
        return;
      }
      var left := set q | q in nodes && q != [] && Parent(q) == p :: q[|q| - 1];
      assert forall n :: n in left <==> IsChild(nodes, p, n) by {
        forall n
          ensures n in left <==> IsChild(nodes, p, n)
        {
          assert Parent(p + [n]) == p;
          if n in left {
            var q :| q in nodes && q != [] && Parent(q) == p && q[|q| - 1] == n;
            assert q == p + [n];
          }
        }
      }
      while left != {}
        invariant forall n :: n in left || n in names <==> IsChild(nodes, p, n)
        invariant forall n <- names :: n !in left
        invariant forall i, j | 0 <= i < j < |names| :: names[i] != names[j]
        decreases |left|
      {
        var n :| n in left;
        names := names + [n];
        left := left - {n};
      }
    }

    method Mkdir(p: Path) returns (ok: bool)
      requires Valid() && p != [] && CleanPath(p) && IsDir(nodes, Parent(p)) && p !in nodes
      modifies this
      ensures Valid()
      ensures nodes == if ok then old(nodes)[p := Dir] else old(nodes)
      ensures Faults() == old(Faults()) + if ok then 0 else 1
    {
      ok := Try();
      if ok {
        nodes := nodes[p := Dir];
      }
    }

    /** Remove of a node that is not a directory. */
    method Remove(p: Path) returns (ok: bool)
      requires Valid() && p in nodes && !nodes[p].Dir?
      modifies this
      ensures Valid()
      ensures nodes == if ok then old(nodes) - {p} else old(nodes)
      ensures Faults() == old(Faults()) + if ok then 0 else 1
    {
      ok := Try();
      if ok {
        nodes := nodes - {p};
      }
    }

    /** Create a file or a symlink in a free place (O_EXCL, symlink). */
    method Create(p: Path, node: Node) returns (ok: bool)
      requires Valid() && p != [] && CleanPath(p) && IsDir(nodes, Parent(p)) && p !in nodes
      requires !node.Dir?
      modifies this
      ensures Valid()
      ensures nodes == if ok then old(nodes)[p := node] else old(nodes)
      ensures Faults() == old(Faults()) + if ok then 0 else 1
    {
      ok := Try();
      if ok {
        nodes := nodes[p := node];
      }
    }

    /** Replace what an open file holds, or its times. A write that fails leaves the file with some of its data. */
    method Update(p: Path, node: Node) returns (ok: bool)
      requires Valid() && p in nodes && nodes[p].File? && node.File?
      modifies this
      ensures Valid()
      ensures ok ==> nodes == old(nodes)[p := node]
      ensures !ok ==> p in nodes && nodes[p].File? && nodes == old(nodes)[p := nodes[p]]
      ensures Faults() == old(Faults()) + if ok then 0 else 1
    {
      ok := Try();
      if ok {
        nodes := nodes[p := node];
      } else if * {
        var written: nat :| written <= |node.data|;
        nodes := nodes[p := node.(data := node.data[..written])];
      }
    }

    method Rename(from: Path, to: Path) returns (ok: bool)
      requires Valid() && from in nodes && to !in nodes && to != [] && !(from <= to)
      requires IsDir(nodes, Parent(to)) && CleanPath(to)
      modifies this
      ensures Valid()
      ensures if ok then IsMoved(old(nodes), nodes, from, to) else nodes == old(nodes)
      ensures Faults() == old(Faults()) + if ok then 0 else 1
    {
      ok := Try();
      if ok {
        MovedWellFormed(nodes, from, to);
        forall q {
          MovedAt(nodes, from, to, q);
        }
        nodes := Moved(nodes, from, to);
      }
    }

    /**
     * RemoveAll takes a tree apart from its leaves up, so it can stop with part of it left. A missing path is no error;
     * a path that runs through something other than a directory is.
     */
    method RemoveAll(p: Path) returns (ok: bool)
      requires Valid() && p != []
      requires forall q | q < p && q in nodes :: !nodes[q].Symlink?
      modifies this
      ensures Valid()
      ensures Trimmed(old(nodes), nodes, p)
      ensures ok ==> forall q | p <= q :: q !in nodes
      ensures ok ==> forall q | q < p && q in nodes :: nodes[q].Dir?
      ensures Faults() >= old(Faults())
      ensures !ok ==> Faults() > old(Faults()) || exists q :: q < p && q in nodes && !nodes[q].Dir?
    {
      ok := Try();
      if !ok {
        return;
      }
      if exists k | 0 <= k < |p| :: p[..k] in nodes && !nodes[p[..k]].Dir? {
        return false;
      }
      assert forall q | q < p && q in nodes :: nodes[q].Dir? by {
        assert forall q | q < p :: q == p[..|q|];
      }
      ok := TakeApart(p);
    }

    /** What cannot be removed stays, with the directories above it; the rest goes all the same. */
    method TakeApart(p: Path) returns (ok: bool)
      requires Valid() && p != []
      modifies this
      ensures Valid()
      ensures Trimmed(old(nodes), nodes, p)
      ensures ok ==> forall q | p <= q :: q !in nodes
      ensures Faults() >= old(Faults()) && (!ok ==> Faults() > old(Faults()))
    {
      ok := true;
      var left := set q | q in nodes && p <= q;
      while left != {}
        invariant Valid()
        invariant forall q <- left :: q in nodes && p <= q
        invariant ok ==> forall q | q in nodes && p <= q :: q in left
        invariant Faults() >= old(Faults()) && (!ok ==> Faults() > old(Faults()))
        invariant Trimmed(old(nodes), nodes, p)
        decreases |left|
      {
        var q := Deepest(left);
        assert ok ==> !HasChild(nodes, q) by {
          NothingDeeper(nodes, p, q, left, ok);
        }
        if HasChild(nodes, q) {
          ok := false;
        } else {
          RemoveChildless(nodes, q);
          var removed := Try();
          if removed {
            nodes := nodes - {q};
          } else {
            ok := false;
          }
        }
        left := left - {q};
      }
    }
  }

  /** The directory is not empty. */
  predicate HasChild(t: Tree, p: Path) {
    exists q | q in t :: q != [] && Parent(q) == p
  }

  lemma NothingDeeper(t: Tree, p: Path, q: Path, left: set<Path>, all: bool)
    requires all ==> forall r | r in t && p <= r :: r in left
    requires p <= q && forall r <- left :: |r| <= |q|
    ensures all ==> !HasChild(t, q)
  {
    forall r | r in t && r != [] && Parent(r) == q
      ensures !all
    {
      assert p <= q <= r && |r| == |q| + 1;
    }
  }

  /** After is before with some of the nodes at or below p gone. */
  ghost predicate Trimmed(before: Tree, after: Tree, p: Path) {
    && (forall q | q in after :: q in before && after[q] == before[q])
    && (forall q | q in before && !(p <= q) :: q in after)
  }

  lemma RemoveChildless(t: Tree, q: Path)
    requires WellFormed(t) && q != [] && !HasChild(t, q)
    ensures WellFormed(t - {q})
  {
    forall r | r in t && r != []
      ensures Parent(r) != q
    {
    }
  }

  /** A longest path of a finite set. */
  method Deepest(paths: set<Path>) returns (p: Path)
    requires paths != {}
    ensures p in paths && forall q <- paths :: |q| <= |p|
  {
    p :| p in paths;
    var left := paths - {p};
    while left != {}
      invariant p in paths && left <= paths
      invariant forall q <- paths - left :: |q| <= |p|
      decreases |left|
    {
      var q :| q in left;
      left := left - {q};
      if |q| > |p| {
        p := q;
      }
    }
  }

  /** A bound on the length of the paths of a tree. */
  ghost function HeightOf(t: Tree): (h: nat)
    ensures forall p <- t :: |p| <= h
  {
    Longest(t.Keys)
  }

  ghost function Longest(paths: set<Path>): (h: nat)
    ensures forall p <- paths :: |p| <= h
  {
    if paths == {} then 0
    else
      var p :| p in paths;
      var rest := Longest(paths - {p});
      if |p| > rest then |p| else rest
  }

  lemma StartHeight(t: Tree, start: Path)
    ensures forall p :: start + p in t ==> |p| <= HeightOf(t)
  {
    assert forall p :: |start + p| >= |p|;
  }
}
