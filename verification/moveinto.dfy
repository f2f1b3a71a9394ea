/** Moving a staged tree into place, one rename at a time (moveInto). */
module MoveInto {
  import opened Paths
  import opened FileTree
  import opened Wrappers

  datatype Outcome = Done | Conflict | IOFailed

  ghost const EVERY_NAME: iset<Name> := iset n: Name | true

  /** Something lies at p below src. */
  ghost predicate Staged(t: Tree, src: Path, p: Path) {
    p != [] && src + p in t
  }

  /** What is staged at p would land on a directory without being one. */
  ghost predicate Clashes(t: Tree, src: Path, dst: Path, p: Path) {
    Staged(t, src, p) && !t[src + p].Dir? && IsDir(t, dst + p)
  }

  ghost predicate HasClash(t: Tree, src: Path, dst: Path) {
    exists p :: Clashes(t, src, dst, p)
  }

  /** Source and destination do not overlap, whatever is staged. */
  ghost predicate Apart(t: Tree, src: Path, dst: Path) {
    && !(src <= dst)
    && forall n | src + [n] in t :: Incomparable(src, dst + [n])
  }

  ghost predicate Incomparable(a: Path, b: Path) {
    !(a <= b) && !(b <= a)
  }

  /**
   * How far p can have come between the trees before and after. It waits at the source, the destination untouched or
   * freed of an old node that was no directory; or it has left the source and is the only thing at the destination,
   * which held no directory.
   */
  ghost predicate Progress(before: Tree, after: Tree, src: Path, dst: Path, p: Path) {
    || (&& Get(after, src + p) == Get(before, src + p)
        && (|| Get(after, dst + p) == Get(before, dst + p)
            || (dst + p in before && !before[dst + p].Dir? && dst + p !in after)))
    || (&& src + p !in after
        && Get(after, dst + p) == Get(before, src + p)
        && !IsDir(before, dst + p))
  }

  /** p is at the destination, and at the source only if it is a directory that was there too. */
  ghost predicate Arrived(before: Tree, after: Tree, src: Path, dst: Path, p: Path) {
    && Get(after, dst + p) == Get(before, src + p)
    && (src + p in after ==> IsDir(before, src + p) && IsDir(before, dst + p))
  }

  /** Moving the top-level names in `names` reads or writes q. */
  ghost predicate Touched(t: Tree, src: Path, dst: Path, names: iset<Name>, q: Path) {
    || (src < q && q[|src|] in names && q in t)
    || (dst < q && q[|dst|] in names && src + q[|dst|..] in t)
  }

  ghost predicate Partial(before: Tree, after: Tree, src: Path, dst: Path, names: iset<Name>) {
    && (forall p | Staged(before, src, p) && p[0] in names :: Progress(before, after, src, dst, p))
    && (forall q | !Touched(before, src, dst, names, q) :: Get(after, q) == Get(before, q))
  }

  ghost predicate Complete(before: Tree, after: Tree, src: Path, dst: Path, names: iset<Name>) {
    forall p | Staged(before, src, p) && p[0] in names :: Arrived(before, after, src, dst, p)
  }

  // ----- names do not get in each other's way -----

  lemma UnderName(base: Path, n: Name, q: Path)
    ensures base + [n] <= q <==> base < q && q[|base|] == n
    ensures base + [n] <= q ==> q[|base|..] == [n] + q[|base| + 1..] && q == base + [n] + q[|base| + 1..]
  {
    if base < q && q[|base|] == n {
      assert q[..|base| + 1] == base + [n];
    }
  }

  lemma BelowName(base: Path, p: Path)
    requires p != []
    ensures base + p == base + [p[0]] + p[1..]
    ensures base + [p[0]] <= base + p
  {
    assert p == [p[0]] + p[1..];
  }

  /** Nothing lies both below the source and below the destination of a staged name. */
  lemma PlacesDisjoint(t: Tree, src: Path, dst: Path, n: Name, q: Path)
    requires Apart(t, src, dst) && src + [n] in t
    ensures !(src <= q && dst + [n] <= q)
  {
    if src <= q && dst + [n] <= q {
      PrefixesCompare(src, dst + [n], q);
    }
  }

  /** A path below the source is not also a destination. */
  lemma NotADestination(before: Tree, now: Tree, src: Path, dst: Path, n: Name, q: Path)
    requires WellFormed(now) && Apart(before, src, dst)
    requires src + [n] in now ==> src + [n] in before
    requires src <= q && dst < q && q[|dst|] == n
    ensures src + q[|dst|..] !in now
  {
    if src + q[|dst|..] in now {
      StagedUnderName(now, src, q[|dst|..]);
      PlacesDisjoint(before, src, dst, n, q);
      UnderName(dst, n, q);
    }
  }

  /** A staged path, at either end, is untouched while other names move. */
  lemma Unaffected(before: Tree, now: Tree, src: Path, dst: Path, names: iset<Name>, p: Path)
    requires WellFormed(before) && WellFormed(now) && Apart(before, src, dst) && p != [] && p[0] !in names
    requires forall n | n in names && src + [n] in now :: src + [n] in before
    ensures !Touched(now, src, dst, names, src + p)
    ensures src + [p[0]] in before ==> !Touched(now, src, dst, names, dst + p)
  {
    var q := src + p;
    if dst < q && q[|dst|] in names {
      NotADestination(before, now, src, dst, q[|dst|], q);
    }
    if src + [p[0]] in before {
      BelowName(dst, p);
      PlacesDisjoint(before, src, dst, p[0], dst + p);
    }
  }

  /** Moving one more name after others extends what has been moved. */
  lemma OneMoreName(t0: Tree, t1: Tree, t2: Tree, src: Path, dst: Path, names: iset<Name>, n: Name)
    requires WellFormed(t0) && WellFormed(t1) && Apart(t0, src, dst) && n !in names && src + [n] in t0
    requires Partial(t0, t1, src, dst, names) && Partial(t1, t2, src, dst, iset{n})
    ensures Partial(t0, t2, src, dst, names + iset{n})
    ensures Complete(t0, t1, src, dst, names) && Complete(t1, t2, src, dst, iset{n}) ==>
              Complete(t0, t2, src, dst, names + iset{n})
  {
    var both := names + iset{n};
    forall p | Staged(t0, src, p) && p[0] in both
      ensures Progress(t0, t2, src, dst, p)
      ensures Complete(t0, t1, src, dst, names) && Complete(t1, t2, src, dst, iset{n}) ==> Arrived(t0, t2, src, dst, p)
    {
      StagedUnderName(t0, src, p);
      if p[0] == n {
        Unaffected(t0, t0, src, dst, names, p);
        assert Staged(t1, src, p);
      } else {
        Unaffected(t0, t1, src, dst, iset{n}, p);
      }
    }
    forall q | !Touched(t0, src, dst, both, q)
      ensures Get(t2, q) == Get(t0, q)
    {
      assert Get(t1, q) == Get(t0, q);
      if dst < q && q[|dst|] == n {
        var p := q[|dst|..];
        Unaffected(t0, t0, src, dst, names, p);
        assert Get(t1, src + p) == Get(t0, src + p);
      }
      assert !Touched(t1, src, dst, iset{n}, q);
    }
  }

  lemma StagedUnderName(t: Tree, src: Path, p: Path)
    requires WellFormed(t) && Staged(t, src, p)
    ensures src + [p[0]] in t
  {
    if |p| > 1 {
      assert (src + p)[..|src| + 1] == src + [p[0]];
      AncestorIsDir(t, src + p, src + [p[0]]);
    } else {
      assert p == [p[0]];
    }
  }

  /** While names move, the others stay where they are and the two places stay apart. */
  lemma OthersStay(before: Tree, now: Tree, src: Path, dst: Path, names: iset<Name>)
    requires WellFormed(before) && WellFormed(now) && Apart(before, src, dst)
    requires Partial(before, now, src, dst, names)
    ensures Apart(now, src, dst)
    ensures IsDir(before, dst) ==> IsDir(now, dst)
    ensures forall p | p != [] && p[0] !in names :: Get(now, src + p) == Get(before, src + p)
    ensures forall p | p != [] && p[0] !in names && src + [p[0]] in before :: Get(now, dst + p) == Get(before, dst + p)
  {
    forall n | src + [n] in now
      ensures src + [n] in before
    {
      var q := src + [n];
      if dst < q {
        NotADestination(before, before, src, dst, q[|dst|], q);
      }
      assert q in before || !Touched(before, src, dst, names, q);
    }
    assert !Touched(before, src, dst, names, dst);
    forall p | p != [] && p[0] !in names
      ensures Get(now, src + p) == Get(before, src + p)
      ensures src + [p[0]] in before ==> Get(now, dst + p) == Get(before, dst + p)
    {
      Unaffected(before, before, src, dst, names, p);
    }
  }

  /** Names not reached yet count as waiting. */
  lemma Widen(before: Tree, after: Tree, src: Path, dst: Path, names: iset<Name>)
    requires WellFormed(before) && Apart(before, src, dst)
    requires Partial(before, after, src, dst, names)
    ensures Partial(before, after, src, dst, EVERY_NAME)
  {
    forall p | Staged(before, src, p)
      ensures Progress(before, after, src, dst, p)
    {
      if p[0] !in names {
        StagedUnderName(before, src, p);
        Unaffected(before, before, src, dst, names, p);
      }
    }
    assert forall q | !Touched(before, src, dst, EVERY_NAME, q) :: !Touched(before, src, dst, names, q);
  }

  // ----- the ways one name moves -----

  lemma RenamedName(before: Tree, after: Tree, src: Path, dst: Path, n: Name)
    requires WellFormed(before) && Apart(before, src, dst) && src + [n] in before && dst + [n] !in before
    requires IsMoved(before, after, src + [n], dst + [n])
    ensures Partial(before, after, src, dst, iset{n}) && Complete(before, after, src, dst, iset{n})
  {
    forall p | Staged(before, src, p) && p[0] == n
      ensures Progress(before, after, src, dst, p) && Arrived(before, after, src, dst, p)
    {
      RenamedAt(before, after, src, dst, n, p);
    }
    forall q | !Touched(before, src, dst, iset{n}, q)
      ensures Get(after, q) == Get(before, q)
    {
      RenamedFrame(before, after, src, dst, n, q);
    }
  }

  lemma RenamedFrame(before: Tree, after: Tree, src: Path, dst: Path, n: Name, q: Path)
    requires IsMoved(before, after, src + [n], dst + [n])
    requires !Touched(before, src, dst, iset{n}, q)
    ensures Get(after, q) == Get(before, q)
  {
    var from, to := src + [n], dst + [n];
    UnderName(src, n, q);
    UnderName(dst, n, q);
    if to <= q {
      assert src + q[|dst|..] == from + q[|to|..];
    }
    assert Get(after, q) == MovedNode(before, from, to, q);
  }

  lemma RenamedAt(before: Tree, after: Tree, src: Path, dst: Path, n: Name, p: Path)
    requires WellFormed(before) && Apart(before, src, dst) && src + [n] in before && dst + [n] !in before
    requires IsMoved(before, after, src + [n], dst + [n])
    requires Staged(before, src, p) && p[0] == n
    ensures src + p !in after && Get(after, dst + p) == Get(before, src + p) && dst + p !in before
  {
    var from, to := src + [n], dst + [n];
    BelowName(src, p);
    BelowName(dst, p);
    PlacesDisjoint(before, src, dst, n, src + p);
    assert Get(after, src + p) == MovedNode(before, from, to, src + p) == None;
    assert (dst + p)[|to|..] == p[1..];
    assert Get(after, dst + p) == MovedNode(before, from, to, dst + p) == Get(before, src + p);
    if p[1..] != [] {
      NothingBelow(before, to, dst + p);
    } else {
      assert dst + p == to;
    }
  }

  /** An old node that is no directory was taken away to make room. */
  lemma ClearedName(before: Tree, src: Path, dst: Path, n: Name)
    requires WellFormed(before) && Apart(before, src, dst) && src + [n] in before
    requires dst + [n] in before && !before[dst + [n]].Dir?
    ensures Partial(before, before - {dst + [n]}, src, dst, iset{n})
    ensures Apart(before - {dst + [n]}, src, dst)
    ensures src + [n] in before - {dst + [n]}
  {
    var to := dst + [n];
    var after := before - {to};
    forall p | Staged(before, src, p) && p[0] == n
      ensures Progress(before, after, src, dst, p)
    {
      PlacesDisjoint(before, src, dst, n, src + p);
    }
    PlacesDisjoint(before, src, dst, n, src + [n]);
    assert Touched(before, src, dst, iset{n}, to) by {
      assert dst < to && to[|dst|] == n && src + to[|dst|..] == src + [n];
    }
  }

  /** Clearing the place and then renaming is one move of the name. */
  lemma ReplacedName(before: Tree, after: Tree, src: Path, dst: Path, n: Name)
    requires WellFormed(before) && Apart(before, src, dst) && src + [n] in before
    requires dst + [n] in before && !before[dst + [n]].Dir?
    requires WellFormed(before - {dst + [n]})
    requires IsMoved(before - {dst + [n]}, after, src + [n], dst + [n])
    ensures Partial(before, after, src, dst, iset{n}) && Complete(before, after, src, dst, iset{n})
  {
    var to := dst + [n];
    var cleared := before - {to};
    ClearedName(before, src, dst, n);
    RenamedName(cleared, after, src, dst, n);
    forall p | Staged(before, src, p) && p[0] == n
      ensures Progress(before, after, src, dst, p) && Arrived(before, after, src, dst, p)
    {
      PlacesDisjoint(before, src, dst, n, src + p);
      assert Staged(cleared, src, p);
      RenamedAt(cleared, after, src, dst, n, p);
    }
    forall q | !Touched(before, src, dst, iset{n}, q)
      ensures Get(after, q) == Get(before, q)
    {
      assert to[|dst|..] == [n];
      assert q != to;
      assert !Touched(cleared, src, dst, iset{n}, q);
    }
  }

  /** Both ends are directories, and what is below has been merged. */
  lemma MergedName(before: Tree, after: Tree, src: Path, dst: Path, n: Name)
    requires WellFormed(before) && Apart(before, src, dst)
    requires IsDir(before, src + [n]) && IsDir(before, dst + [n])
    requires Partial(before, after, src + [n], dst + [n], EVERY_NAME)
    ensures Partial(before, after, src, dst, iset{n})
    ensures Complete(before, after, src + [n], dst + [n], EVERY_NAME) ==> Complete(before, after, src, dst, iset{n})
  {
    var from, to := src + [n], dst + [n];
    forall p | Staged(before, src, p) && p[0] == n
      ensures Progress(before, after, src, dst, p)
      ensures Complete(before, after, from, to, EVERY_NAME) ==> Arrived(before, after, src, dst, p)
    {
      BelowName(src, p);
      BelowName(dst, p);
      if p[1..] == [] {
        MergedEnds(before, src, dst, n);
        assert src + p == from && dst + p == to;
      } else {
        assert Staged(before, from, p[1..]);
        assert Progress(before, after, from, to, p[1..]);
      }
    }
    forall q | !Touched(before, src, dst, iset{n}, q)
      ensures Get(after, q) == Get(before, q)
    {
      MergedFrame(before, src, dst, n, q);
    }
  }

  lemma MergedFrame(before: Tree, src: Path, dst: Path, n: Name, q: Path)
    requires !Touched(before, src, dst, iset{n}, q)
    ensures !Touched(before, src + [n], dst + [n], EVERY_NAME, q)
  {
    var from, to := src + [n], dst + [n];
    UnderName(src, n, q);
    UnderName(dst, n, q);
    if to < q {
      assert src + q[|dst|..] == from + q[|to|..];
    }
  }

  lemma MergedEnds(before: Tree, src: Path, dst: Path, n: Name)
    requires Apart(before, src, dst) && src + [n] in before
    ensures !Touched(before, src + [n], dst + [n], EVERY_NAME, src + [n])
    ensures !Touched(before, src + [n], dst + [n], EVERY_NAME, dst + [n])
  {
    PlacesDisjoint(before, src, dst, n, src + [n]);
    PlacesDisjoint(before, src, dst, n, dst + [n]);
    assert src + [n] < dst + [n] ==> src <= dst + [n];
  }

  /** Directories one level down are apart as well. */
  lemma ApartBelow(t: Tree, now: Tree, src: Path, dst: Path, n: Name)
    requires Apart(t, src, dst) && src + [n] in t
    ensures Apart(now, src + [n], dst + [n])
  {
    var from, to := src + [n], dst + [n];
    assert from <= to ==> src <= to;
    PlacesDisjoint(t, src, dst, n, to);
    PlacesDisjoint(t, src, dst, n, from);
    forall m | from + [m] in now
      ensures Incomparable(from, to + [m])
    {
      PlacesDisjoint(t, src, dst, n, to + [m]);
      assert from <= to + [m] ==> src <= to + [m];
      assert to + [m] <= from ==> to <= from;
    }
  }

  /** A clash below a name is a clash. */
  lemma ClashBelow(t0: Tree, t1: Tree, src: Path, dst: Path, names: iset<Name>, n: Name)
    requires WellFormed(t0) && Apart(t0, src, dst) && Partial(t0, t1, src, dst, names)
    requires n !in names && src + [n] in t0
    requires HasClash(t1, src + [n], dst + [n]) || Clashes(t1, src, dst, [n])
    ensures HasClash(t0, src, dst)
  {
    var p: Path;
    if Clashes(t1, src, dst, [n]) {
      p := [n];
    } else {
      var below :| Clashes(t1, src + [n], dst + [n], below);
      p := [n] + below;
      assert src + [n] + below == src + p && dst + [n] + below == dst + p;
    }
    Unaffected(t0, t0, src, dst, names, p);
    assert Clashes(t0, src, dst, p);
  }

  // ----- the theorem about a finished move -----

  /** A move that finished had nothing that clashes. */
  lemma CompleteHasNoClash(before: Tree, after: Tree, src: Path, dst: Path)
    requires Partial(before, after, src, dst, EVERY_NAME) && Complete(before, after, src, dst, EVERY_NAME)
    ensures !HasClash(before, src, dst)
  {
    forall p | Staged(before, src, p)
      ensures !Clashes(before, src, dst, p)
    {
      assert Progress(before, after, src, dst, p) && Arrived(before, after, src, dst, p);
    }
  }

  // ----- the method -----

  method MoveInto(fs: FileSystem, src: Path, dst: Path, ghost height: nat) returns (outcome: Outcome)
    requires fs.Valid() && IsDir(fs.nodes, src) && IsDir(fs.nodes, dst) && Apart(fs.nodes, src, dst)
    requires forall p :: src + p in fs.nodes ==> |p| <= height
    modifies fs
    ensures fs.Valid()
    ensures Partial(old(fs.nodes), fs.nodes, src, dst, EVERY_NAME)
    ensures outcome.Done? ==> Complete(old(fs.nodes), fs.nodes, src, dst, EVERY_NAME)
    ensures outcome.Done? ==> !HasClash(old(fs.nodes), src, dst)
    ensures outcome.Conflict? ==> HasClash(old(fs.nodes), src, dst)
    ensures fs.Faults() >= old(fs.Faults()) && (outcome.IOFailed? ==> fs.Faults() > old(fs.Faults()))
    ensures fs.Faults() == old(fs.Faults()) ==> (outcome.Done? <==> !HasClash(old(fs.nodes), src, dst))
    decreases height
  {
    ghost var before := fs.nodes;
    ghost var moved: iset<Name> := iset{};
    var ok, names := fs.ReadDir(src);
    if !ok {
      Widen(before, fs.nodes, src, dst, moved);
      return IOFailed;
    }
    for i := 0 to |names|
      invariant fs.Faults() >= old(fs.Faults())
      invariant fs.Valid()
      invariant moved == iset n | n in names[..i]
      invariant Partial(before, fs.nodes, src, dst, moved) && Complete(before, fs.nodes, src, dst, moved)
    {
      var n := names[i];
      assert IsChild(before, src, n);
      outcome := MoveName(fs, src, dst, n, before, moved, height);
      if !outcome.Done? {
        Widen(before, fs.nodes, src, dst, moved + iset{n});
        return;
      }
      moved := moved + iset{n};
    }
    Widen(before, fs.nodes, src, dst, moved);
    forall p | Staged(before, src, p)
      ensures Arrived(before, fs.nodes, src, dst, p)
    {
      StagedUnderName(before, src, p);
      assert IsChild(before, src, p[0]);
    }
    CompleteHasNoClash(before, fs.nodes, src, dst);
    outcome := Done;
  }

  /** The body of the loop: one directory entry. */
  method MoveName(fs: FileSystem, src: Path, dst: Path, n: Name, ghost before: Tree, ghost moved: iset<Name>,
                  ghost height: nat)
    returns (outcome: Outcome)
    requires fs.Valid() && WellFormed(before) && IsDir(before, src) && IsDir(before, dst) && Apart(before, src, dst)
    requires forall p :: src + p in before ==> |p| <= height
    requires n !in moved && src + [n] in before
    requires Partial(before, fs.nodes, src, dst, moved) && Complete(before, fs.nodes, src, dst, moved)
    modifies fs
    ensures fs.Valid()
    ensures Partial(before, fs.nodes, src, dst, moved + iset{n})
    ensures outcome.Done? ==> Complete(before, fs.nodes, src, dst, moved + iset{n})
    ensures outcome.Conflict? ==> HasClash(before, src, dst)
    ensures fs.Faults() >= old(fs.Faults()) && (outcome.IOFailed? ==> fs.Faults() > old(fs.Faults()))
    decreases height, 0
  {
    ghost var t1 := fs.nodes;
    var from, to := src + [n], dst + [n];
    OthersStay(before, t1, src, dst, moved);
    assert Get(t1, from) == Get(before, from) && Get(t1, to) == Get(before, to);
    assert Parent(to) == dst;
    RealWayInDir(t1, to);
    var info := fs.Lstat(to);
    match info {
      case StatFailed =>
        NothingMoved(t1, src, dst, n);
        outcome := IOFailed;
      case Missing =>
        outcome := RenameName(fs, src, dst, n);
      case Found(node) =>
        if node.Dir? && fs.nodes[from].Dir? {
          ApartBelow(before, t1, src, dst, n);
          assert forall p :: from + p == src + ([n] + p);
          outcome := MoveInto(fs, from, to, height - 1);
          MergedName(t1, fs.nodes, src, dst, n);
          if outcome.Conflict? {
            ClashBelow(before, t1, src, dst, moved, n);
          }
        } else if node.Dir? {
          NothingMoved(t1, src, dst, n);
          assert Clashes(t1, src, dst, [n]);
          ClashBelow(before, t1, src, dst, moved, n);
          outcome := Conflict;
        } else {
          outcome := ReplaceName(fs, src, dst, n);
        }
    }
    OneMoreName(before, t1, fs.nodes, src, dst, moved, n);
  }

  /** What is in the way is removed first. */
  method ReplaceName(fs: FileSystem, src: Path, dst: Path, n: Name) returns (outcome: Outcome)
    requires fs.Valid() && Apart(fs.nodes, src, dst) && IsDir(fs.nodes, dst)
    requires src + [n] in fs.nodes && dst + [n] in fs.nodes && !fs.nodes[dst + [n]].Dir?
    modifies fs
    ensures fs.Valid() && !outcome.Conflict?
    ensures Partial(old(fs.nodes), fs.nodes, src, dst, iset{n})
    ensures outcome.Done? ==> Complete(old(fs.nodes), fs.nodes, src, dst, iset{n})
    ensures fs.Faults() >= old(fs.Faults()) && (outcome.IOFailed? ==> fs.Faults() > old(fs.Faults()))
  {
    ghost var before := fs.nodes;
    ClearedName(before, src, dst, n);
    var ok := fs.Remove(dst + [n]);
    if !ok {
      NothingMoved(before, src, dst, n);
      return IOFailed;
    }
    outcome := RenameName(fs, src, dst, n);
    if outcome.Done? {
      ReplacedName(before, fs.nodes, src, dst, n);
    }
  }

  method RenameName(fs: FileSystem, src: Path, dst: Path, n: Name) returns (outcome: Outcome)
    requires fs.Valid() && Apart(fs.nodes, src, dst) && IsDir(fs.nodes, dst)
    requires src + [n] in fs.nodes && dst + [n] !in fs.nodes
    modifies fs
    ensures fs.Valid() && !outcome.Conflict?
    ensures if outcome.Done? then IsMoved(old(fs.nodes), fs.nodes, src + [n], dst + [n]) else fs.nodes == old(fs.nodes)
    ensures Partial(old(fs.nodes), fs.nodes, src, dst, iset{n})
    ensures outcome.Done? ==> Complete(old(fs.nodes), fs.nodes, src, dst, iset{n})
    ensures fs.Faults() >= old(fs.Faults()) && (outcome.IOFailed? ==> fs.Faults() > old(fs.Faults()))
  {
    var from, to := src + [n], dst + [n];
    assert Parent(to) == dst;
    assert CleanPath(to) by {
      assert CleanPath(dst) && CleanPath(from);
      assert n in from;
    }
    PlacesDisjoint(fs.nodes, src, dst, n, to);
    assert from <= to ==> src <= to;
    ghost var before := fs.nodes;
    NothingMoved(before, src, dst, n);
    var ok := fs.Rename(from, to);
    if ok {
      RenamedName(before, fs.nodes, src, dst, n);
    }
    outcome := if ok then Done else IOFailed;
  }

  lemma NothingMoved(t: Tree, src: Path, dst: Path, n: Name)
    ensures Partial(t, t, src, dst, iset{n})
  {
  }
}
