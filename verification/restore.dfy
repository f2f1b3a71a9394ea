/** Restoring a workspace: stage the archives beside it, then move the result into place (restore, layOverlay). */
module Restore {
  import opened Paths
  import opened FileTree
  import opened Archive
  import opened Wrappers
  import M = MoveInto
  import P = Pack

  const RESTORE_DIR: Path := [".yougpu-restore"]
  const OVERLAY_DIR: Path := [".yougpu-overlay"]

  /** A tree with nothing but its root. */
  const BARE: Tree := map[[] := Dir]

  datatype Overlay = Overlay(stream: Stream, includes: seq<string>)

  datatype Request = Request(full: Option<Stream>, includes: seq<string>, overlay: Option<Overlay>, limits: Limits)

  datatype Verdict = Restored | BadArchive(why: Refusal) | Clash | NotFetched | Failed

  // ----- what is restored -----

  function Staged(stream: Option<Stream>, includes: seq<string>, limits: Limits): Result<Tree, Refusal> {
    match stream
    case None => Success(BARE)
    case Some(s) => Extract(BARE, [], includes, limits, ZERO, s)
  }

  predicate SafeIncludes(includes: seq<string>) {
    forall i | 0 <= i < |includes| :: SafeRel(includes[i]).Some?
  }

  /** p is at or below an include path that the overlay tree has. */
  predicate Carried(v: Tree, includes: seq<string>, p: Path) {
    exists i | 0 <= i < |includes| :: CarriedBy(v, includes[i], p)
  }

  predicate CarriedBy(v: Tree, rel: string, p: Path) {
    SafeRel(rel).Some? && SafeRel(rel).value in v && SafeRel(rel).value <= p
  }

  /** The staged tree without the folders that the overlay replaces. */
  function Uncovered(f: Tree, v: Tree, includes: seq<string>): Tree {
    map p | p in f && !Carried(v, includes, p) :: f[p]
  }

  /** The tree that a request moves into the workspace. */
  function Target(r: Request): Result<Tree, Refusal> {
    match Staged(r.full, r.includes, r.limits)
    case Failure(why) => Failure(why)
    case Success(f) =>
      match r.overlay
      case None => Success(f)
      case Some(o) =>
        if !SafeIncludes(o.includes) then Failure(UnsafeName)
        else
          match Staged(Some(o.stream), o.includes, r.limits)
          case Failure(why) => Failure(why)
          case Success(v) => Success(Uncovered(f, v, o.includes) + v)
  }

  /** No include path leads into the agent's own staging folders. */
  ghost predicate Unreserved(includes: seq<string>) {
    forall d | IncludeDir(includes, d) :: d[0] != RESTORE_DIR[0] && d[0] != OVERLAY_DIR[0]
  }

  /** Overlay includes are reached through real directories, in the archives as on disk. */
  ghost predicate StraightIncludes(r: Request) {
    && r.overlay.Some?
    && forall f, v, i | Staged(r.full, r.includes, r.limits) == Success(f)
                        && Staged(Some(r.overlay.value.stream), r.overlay.value.includes, r.limits) == Success(v)
                        && 0 <= i < |r.overlay.value.includes| ::
         var rel := Clean(r.overlay.value.includes[i]).segments;
         RealWay(f, rel) && RealWay(v, rel)
  }

  ghost predicate Acceptable(r: Request) {
    && Unreserved(r.includes)
    && (r.overlay.Some? ==> Unreserved(r.overlay.value.includes) && StraightIncludes(r))
  }

  // ----- the workspace -----

  /** The workspace is everything outside the two staging folders. */
  predicate InWorkspace(p: Path) {
    !(RESTORE_DIR <= p) && !(OVERLAY_DIR <= p)
  }

  ghost predicate SameWorkspace(a: Tree, b: Tree) {
    forall p | InWorkspace(p) :: Get(a, p) == Get(b, p)
  }

  /** The node at p once x is merged over w: x wins, and what x lacks survives. */
  function MergedAt(w: Tree, x: Tree, p: Path): Option<Node> {
    if p in x then Some(x[p]) else Get(w, p)
  }

  /** A node of x that is no directory would replace a directory of w. */
  ghost predicate Conflicts(w: Tree, x: Tree) {
    exists p :: InWorkspace(p) && p in x && !x[p].Dir? && IsDir(w, p)
  }

  /** Where moving x over w0 can have been stopped. */
  ghost predicate Interrupted(w0: Tree, w1: Tree, x: Tree) {
    forall p | InWorkspace(p) ::
      || Get(w1, p) == Get(w0, p)
      || (p in x && !IsDir(w0, p) && (p !in w1 || w1[p] == x[p]))
  }

  lemma InterruptedAgain(w0: Tree, w1: Tree, w2: Tree, x: Tree)
    requires Interrupted(w0, w1, x) && Interrupted(w1, w2, x)
    ensures Interrupted(w0, w2, x)
  {
    forall p | InWorkspace(p)
      ensures Get(w2, p) == Get(w0, p) || (p in x && !IsDir(w0, p) && (p !in w2 || w2[p] == x[p]))
    {
      assert Get(w1, p) == Get(w0, p) || (p in x && !IsDir(w0, p) && (p !in w1 || w1[p] == x[p]));
      assert Get(w2, p) == Get(w1, p) || (p in x && !IsDir(w1, p) && (p !in w2 || w2[p] == x[p]));
    }
  }

  /**
   * Wherever the move stopped, moving the same tree again is headed for the same workspace, and clashes if and only if
   * it did.
   */
  lemma InterruptionConverges(w0: Tree, w1: Tree, x: Tree)
    requires Interrupted(w0, w1, x)
    ensures forall p | InWorkspace(p) :: MergedAt(w1, x, p) == MergedAt(w0, x, p)
    ensures Conflicts(w1, x) <==> Conflicts(w0, x)
  {
    if Conflicts(w0, x) {
      var p :| InWorkspace(p) && p in x && !x[p].Dir? && IsDir(w0, p);
      assert Get(w1, p) == Get(w0, p);
    }
    if Conflicts(w1, x) {
      var p :| InWorkspace(p) && p in x && !x[p].Dir? && IsDir(w1, p);
      assert Get(w1, p) == Get(w0, p);
    }
  }

  // ----- unpacking below a root mirrors unpacking into a bare tree -----

  /** Below root, t looks like s. */
  ghost predicate Mirrors(t: Tree, root: Path, s: Tree) {
    forall p :: Get(t, root + p) == Get(s, p)
  }

  lemma PrefixShift(root: Path, p: Path, q: Path)
    ensures root + p <= root + q <==> p <= q
    ensures root + p == root + q <==> p == q
  {
    assert (root + p)[|root|..] == p && (root + q)[|root|..] == q;
    if root + p <= root + q {
      assert (root + q)[..|root + p|] == root + p;
      assert (root + q)[|root|..|root + p|] == q[..|p|];
    }
  }

  lemma CanDescendMirrors(t: Tree, root: Path, s: Tree, rel: Path)
    requires Mirrors(t, root, s)
    ensures CanDescend(t, root, rel) <==> CanDescend(s, [], rel)
  {
    forall k | 0 <= k <= |rel|
      ensures Get(t, root + rel[..k]) == Get(s, [] + rel[..k])
    {
      assert [] + rel[..k] == rel[..k];
    }
    if CanDescend(t, root, rel) {
      forall k | 0 <= k <= |rel| && [] + rel[..k] in s
        ensures s[[] + rel[..k]].Dir?
      {
        assert Get(t, root + rel[..k]) == Get(s, [] + rel[..k]);
      }
    }
    if CanDescend(s, [], rel) {
      forall k | 0 <= k <= |rel| && root + rel[..k] in t
        ensures t[root + rel[..k]].Dir?
      {
        assert Get(t, root + rel[..k]) == Get(s, [] + rel[..k]);
      }
    }
  }

  lemma WithDirsMirrors(t: Tree, root: Path, s: Tree, rel: Path)
    requires Mirrors(t, root, s)
    ensures Mirrors(WithDirs(t, root, rel), root, WithDirs(s, [], rel))
  {
    forall p
      ensures Get(WithDirs(t, root, rel), root + p) == Get(WithDirs(s, [], rel), p)
    {
      OnTheWayBelow(root, rel, p);
      WithDirsAt(t, root, rel, root + p);
      WithDirsAt(s, [], rel, p);
    }
  }

  lemma OnTheWayBelow(root: Path, rel: Path, p: Path)
    ensures OnTheWay(root, rel, root + p) <==> p <= rel
    ensures OnTheWay([], rel, p) <==> p <= rel
  {
    PrefixShift(root, p, rel);
    assert [] + rel == rel;
  }

  lemma LeafMirrors(t: Tree, root: Path, s: Tree, rel: Path, node: Node)
    requires Mirrors(t, root, s)
    ensures Mirrors(t[root + rel := node], root, s[rel := node])
  {
    var t1, s1 := t[root + rel := node], s[rel := node];
    forall p
      ensures Get(t1, root + p) == Get(s1, p)
    {
      PrefixShift(root, p, rel);
      assert Get(t, root + p) == Get(s, p);
    }
  }

  lemma ExtractOneMirrors(t: Tree, root: Path, s: Tree, includes: seq<string>, e: Entry)
    requires Mirrors(t, root, s)
    ensures match (ExtractOne(t, root, includes, e), ExtractOne(s, [], includes, e))
            case (Success(t1), Success(s1)) => Mirrors(t1, root, s1)
            case (Failure(a), Failure(b)) => a == b
            case _ => false
  {
    var safe := SafeRel(e.name);
    if safe.Some? && safe.value != [] && Included(includes, safe.value) {
      var rel := safe.value;
      var t1, s1 := WithDirs(t, root, Parent(rel)), WithDirs(s, [], Parent(rel));
      CanDescendMirrors(t, root, s, Parent(rel));
      WithDirsMirrors(t, root, s, Parent(rel));
      assert Get(t1, root + rel) == Get(s1, rel);
      assert [] + rel == rel;
      match e.kind {
        case DirEntry =>
          CanDescendMirrors(t1, root, s1, rel);
          WithDirsMirrors(t1, root, s1, rel);
        case OtherEntry =>
        case _ =>
          LeafMirrors(t1, root, s1, rel, NodeOf(e.kind));
      }
    }
  }

  lemma {:induction false} ExtractMirrors(t: Tree, root: Path, s: Tree, includes: seq<string>, limits: Limits,
                                          tally: Tally, stream: Stream)
    requires Mirrors(t, root, s)
    ensures match (Extract(t, root, includes, limits, tally, stream), Extract(s, [], includes, limits, tally, stream))
            case (Success(t1), Success(s1)) => Mirrors(t1, root, s1)
            case (Failure(a), Failure(b)) => a == b
            case _ => false
    decreases |stream.entries|
  {
    if stream.entries != [] {
      var e := stream.entries[0];
      ExtractOneMirrors(t, root, s, includes, e);
      var next := Added(limits, tally, EntrySize(e));
      var t1, s1 := ExtractOne(t, root, includes, e), ExtractOne(s, [], includes, e);
      if next.Some? && t1.Success? {
        ExtractMirrors(t1.value, root, s1.value, includes, limits, next.value, stream.(entries := stream.entries[1..]));
      }
    }
  }

  // ----- what a staged tree looks like -----

  lemma WithDirsSafe(t: Tree, root: Path, rel: Path)
    requires WellFormed(t) && IsDir(t, root) && CleanPath(rel) && CanDescend(t, root, rel)
    ensures WellFormed(WithDirs(t, root, rel)) && IsDir(WithDirs(t, root, rel), root + rel)
  {
    var made := WithDirs(t, root, rel);
    forall q
      ensures q in made ==> CleanPath(q)
      ensures q in made && q != [] ==> IsDir(made, Parent(q))
      ensures q == [] ==> IsDir(made, q)
    {
      WithDirsAt(t, root, rel, q);
      assert CleanPath(root);
      if q in made && q != [] {
        WithDirsAt(t, root, rel, Parent(q));
        if OnTheWay(root, rel, q) && q != root {
          assert OnTheWay(root, rel, Parent(q));
        } else {
          assert IsDir(t, Parent(q));
        }
        if q in t {
          assert CleanPath(q);
        }
      }
    }
    WithDirsAt(t, root, rel, root + rel);
  }

  lemma ExtractOneSafe(t: Tree, root: Path, includes: seq<string>, e: Entry)
    requires WellFormed(t) && IsDir(t, root) && ExtractOne(t, root, includes, e).Success?
    ensures var u := ExtractOne(t, root, includes, e).value;
            WellFormed(u) && IsDir(u, root) && Framed(t, u, root, includes)
  {
    SafeRelAccepts(e.name);
    var rel := SafeRel(e.name).value;
    if Included(includes, rel) {
      var dir := Parent(rel);
      assert forall n <- dir :: n in rel;
      WithDirsSafe(t, root, dir);
      var t1 := WithDirs(t, root, dir);
      assert dir[..|dir|] == dir && rel[..|rel|] == rel;
      MadeDirs(t, root, dir, |dir|);
      DirsFramed(t, t1, root, includes, rel, dir);
      ExtractNodeSafe(t1, root, includes, rel, e.kind);
      FramedTransitive(t, t1, ExtractNode(t1, root, rel, e.kind).value, root, includes);
    }
  }

  lemma ExtractNodeSafe(t: Tree, root: Path, includes: seq<string>, rel: Path, kind: Kind)
    requires WellFormed(t) && IsDir(t, root) && rel != [] && CleanPath(rel) && IsDir(t, root + Parent(rel))
    requires Included(includes, rel) && ExtractNode(t, root, rel, kind).Success?
    ensures var u := ExtractNode(t, root, rel, kind).value;
            WellFormed(u) && IsDir(u, root) && Framed(t, u, root, includes)
  {
    match kind {
      case DirEntry =>
        WithDirsSafe(t, root, rel);
        assert rel[..|rel|] == rel;
        MadeDirs(t, root, rel, |rel|);
        DirsFramed(t, WithDirs(t, root, rel), root, includes, rel, rel);
      case OtherEntry =>
      case _ =>
        LeafSafe(t, root, rel, NodeOf(kind));
        LeafFramed(t, t[root + rel := NodeOf(kind)], root, includes, rel);
    }
  }

  lemma LeafSafe(t: Tree, root: Path, rel: Path, node: Node)
    requires WellFormed(t) && rel != [] && CleanPath(rel) && IsDir(t, root + Parent(rel)) && !IsDir(t, root + rel)
    ensures WellFormed(t[root + rel := node])
  {
    var target := root + rel;
    assert Parent(target) == root + Parent(rel);
    assert CleanPath(root + Parent(rel));
    assert target == root + Parent(rel) + [rel[|rel| - 1]];
    assert CleanPath(target);
    forall q | q in t && q != []
      ensures Parent(q) != target
    {
      assert IsDir(t, Parent(q));
    }
  }

  lemma {:induction false} ExtractSafe(t: Tree, root: Path, includes: seq<string>, limits: Limits, tally: Tally,
                                       stream: Stream)
    requires WellFormed(t) && IsDir(t, root) && Extract(t, root, includes, limits, tally, stream).Success?
    ensures var u := Extract(t, root, includes, limits, tally, stream).value;
            WellFormed(u) && IsDir(u, root) && Framed(t, u, root, includes)
    decreases |stream.entries|
  {
    if stream.entries != [] {
      var e := stream.entries[0];
      ExtractOneSafe(t, root, includes, e);
      var t1 := ExtractOne(t, root, includes, e).value;
      var next := Added(limits, tally, EntrySize(e)).value;
      var rest := stream.(entries := stream.entries[1..]);
      ExtractSafe(t1, root, includes, limits, next, rest);
      FramedTransitive(t, t1, Extract(t1, root, includes, limits, next, rest).value, root, includes);
    }
  }

  /** A staged tree holds nothing but included nodes and the directories on the way to them. */
  lemma StagedShape(stream: Option<Stream>, includes: seq<string>, limits: Limits)
    requires Staged(stream, includes, limits).Success?
    ensures var f := Staged(stream, includes, limits).value;
            && WellFormed(f)
            && forall p | p in f && p != [] :: Included(includes, p) || (LeadsToInclude(includes, p) && f[p].Dir?)
  {
    var f := Staged(stream, includes, limits).value;
    if stream.Some? {
      ExtractSafe(BARE, [], includes, limits, ZERO, stream.value);
      forall p | p in f && p != []
        ensures Included(includes, p) || (LeadsToInclude(includes, p) && f[p].Dir?)
      {
        assert Get(f, p) == Get(BARE, p) || MayChange(BARE, f, [], includes, p);
        assert p[0..] == p;
      }
    }
  }

  lemma StagedNames(f: Tree, includes: seq<string>, p: Path)
    requires Unreserved(includes) && p != []
    requires Included(includes, p) || LeadsToInclude(includes, p)
    ensures InWorkspace(p)
  {
    var d: Path;
    if Included(includes, p) {
      var i :| 0 <= i < |includes| && !Clean(includes[i]).rooted && Clean(includes[i]).segments != [] &&
               Clean(includes[i]).segments <= p;
      d := Clean(includes[i]).segments;
    } else {
      d :| IncludeDir(includes, d) && p < d;
    }
    assert IncludeDir(includes, d);
    assert d[0] == p[0];
  }

  /** An included node of the overlay is under an include path that the overlay has. */
  lemma OverlayCarries(v: Tree, includes: seq<string>, p: Path)
    requires WellFormed(v) && SafeIncludes(includes) && p in v && Included(includes, p)
    ensures Carried(v, includes, p)
  {
    var i :| 0 <= i < |includes| && !Clean(includes[i]).rooted && Clean(includes[i]).segments != [] &&
             Clean(includes[i]).segments <= p;
    CleanIgnoresSlash(includes[i]);
    var d := SafeRel(includes[i]).value;
    if d != p {
      AncestorIsDir(v, p, d);
    }
  }

  /**
   * What the overlay does: under every include path that it has, the target is the overlay's tree, so files that the
   * full archive has there do not come back. Everywhere else the target is the full archive's tree, except where a
   * directory is needed on the way to an include path.
   */
  lemma OverlayMeaning(r: Request)
    requires r.overlay.Some? && Target(r).Success?
    ensures var o := r.overlay.value;
            var f := Staged(r.full, r.includes, r.limits).value;
            var v := Staged(Some(o.stream), o.includes, r.limits).value;
            forall p :: Get(Target(r).value, p) ==
                        if Carried(v, o.includes, p) then Get(v, p)
                        else if p in v then Some(Dir)
                        else Get(f, p)
    ensures var o := r.overlay.value;
            var v := Staged(Some(o.stream), o.includes, r.limits).value;
            forall p | p in v && !Carried(v, o.includes, p) :: p == [] || LeadsToInclude(o.includes, p)
  {
    var o := r.overlay.value;
    StagedShape(Some(o.stream), o.includes, r.limits);
    var v := Staged(Some(o.stream), o.includes, r.limits).value;
    forall p | p in v && !Carried(v, o.includes, p)
      ensures v[p].Dir? && (p == [] || LeadsToInclude(o.includes, p))
    {
      if p != [] && Included(o.includes, p) {
        OverlayCarries(v, o.includes, p);
      }
    }
  }

  // ----- staging -----

  /** Make an empty staging folder. */
  method FreshFolder(fs: FileSystem, folder: Path) returns (ok: bool)
    requires fs.Valid() && |folder| == 1 && CleanPath(folder)
    modifies fs
    ensures fs.Valid()
    ensures forall q | !(folder <= q) :: Get(fs.nodes, q) == Get(old(fs.nodes), q)
    ensures ok ==> Mirrors(fs.nodes, folder, BARE) && IsDir(fs.nodes, folder)
    ensures fs.Faults() >= old(fs.Faults()) && (!ok ==> fs.Faults() > old(fs.Faults()))
  {
    forall q | q < folder && q in fs.nodes
      ensures fs.nodes[q].Dir?
    {
      assert q == [];
    }
    ok := fs.RemoveAll(folder);
    if !ok {
      return;
    }
    assert Parent(folder) == [];
    ok := fs.Mkdir(folder);
    if ok {
      forall p
        ensures Get(fs.nodes, folder + p) == Get(BARE, p)
      {
        assert folder <= folder + p;
        assert folder + p == folder <==> p == [];
      }
    }
  }

  /** The staged tree below dest once the first i include paths have been looked at. */
  ghost predicate Uncovering(t: Tree, dest: Path, f: Tree, v: Tree, includes: seq<string>) {
    forall p :: Get(t, dest + p) == if Carried(v, includes, p) then None else Get(f, p)
  }

  /** unpackFile, seen from outside the folder it unpacks into. */
  method UnpackFile(fs: FileSystem, folder: Path, stream: Stream, includes: seq<string>, limits: Limits)
    returns (outcome: Outcome)
    requires fs.Valid() && Mirrors(fs.nodes, folder, BARE) && IsDir(fs.nodes, folder)
    modifies fs
    ensures fs.Valid() && IsDir(fs.nodes, folder)
    ensures forall q | !(folder <= q) :: Get(fs.nodes, q) == Get(old(fs.nodes), q)
    ensures outcome.Finished? ==> Staged(Some(stream), includes, limits).Success? &&
                                  Mirrors(fs.nodes, folder, Staged(Some(stream), includes, limits).value)
    ensures outcome.Refused? ==> Staged(Some(stream), includes, limits) == Failure(outcome.why)
    ensures fs.Faults() >= old(fs.Faults()) && (outcome.IOFailed? ==> fs.Faults() > old(fs.Faults()))
  {
    ExtractMirrors(fs.nodes, folder, BARE, includes, limits, ZERO, stream);
    ghost var before := fs.nodes;
    outcome := Unpack(fs, folder, includes, limits, stream);
    forall q | !(folder <= q)
      ensures Get(fs.nodes, q) == Get(before, q)
    {
      assert Get(fs.nodes, q) == Get(before, q) || MayChange(before, fs.nodes, folder, includes, q);
    }
  }

  /** The folder loop of layOverlay: take out of dest what the overlay replaces. */
  method Uncover(fs: FileSystem, dest: Path, from: Path, includes: seq<string>, ghost f: Tree, ghost v: Tree)
    returns (ok: bool)
    requires fs.Valid() && |dest| == 1 && |from| == 1 && dest != from && IsDir(fs.nodes, dest) && IsDir(fs.nodes, from)
    requires SafeIncludes(includes) && WellFormed(v)
    requires Mirrors(fs.nodes, dest, f) && Mirrors(fs.nodes, from, v)
    requires forall i | 0 <= i < |includes| ::
               RealWay(f, Clean(includes[i]).segments) && RealWay(v, Clean(includes[i]).segments)
    modifies fs
    ensures fs.Valid() && Mirrors(fs.nodes, from, v)
    ensures forall q | !(dest <= q) :: Get(fs.nodes, q) == Get(old(fs.nodes), q)
    ensures ok ==> Uncovering(fs.nodes, dest, f, v, includes) && IsDir(fs.nodes, dest)
    ensures fs.Faults() >= old(fs.Faults()) && (!ok ==> fs.Faults() > old(fs.Faults()))
  {
    ghost var before := fs.nodes;
    for i := 0 to |includes|
      invariant fs.Faults() >= old(fs.Faults())
      invariant fs.Valid() && Mirrors(fs.nodes, from, v)
      invariant forall q | !(dest <= q) :: Get(fs.nodes, q) == Get(before, q)
      invariant Uncovering(fs.nodes, dest, f, v, includes[..i])
    {
      var rel := SafeRel(includes[i]).value;
      SafeRelAccepts(includes[i]);
      CleanIgnoresSlash(includes[i]);
      assert from + [] == from && Get(fs.nodes, from + []) == Get(v, []);
      WayBelow(fs.nodes, from, v, rel);
      var info := fs.Lstat(from + rel);
      assert Get(fs.nodes, from + rel) == Get(v, rel);
      if info.StatFailed? {
        return false;
      }
      ghost var now := fs.nodes;
      if info.Found? {
        WayUncovered(now, dest, f, v, includes[..i], rel);
        ok := fs.RemoveAll(dest + rel);
        RemovedBelow(now, fs.nodes, dest, from, rel);
        if !ok {
          return;
        }
      }
      UncoveredMore(now, fs.nodes, dest, f, v, includes, i);
    }
    assert includes[..|includes|] == includes;
    RootNotCarried(v, includes);
    assert Get(fs.nodes, dest + []) == Get(f, []);
    assert dest + [] == dest;
    ok := true;
  }

  lemma WayBelow(t: Tree, folder: Path, s: Tree, rel: Path)
    requires WellFormed(t) && |folder| == 1 && IsDir(t, folder) && Mirrors(t, folder, s) && RealWay(s, rel)
    ensures RealWay(t, folder + rel)
  {
    forall q | q < folder + rel && q in t
      ensures t[q].Dir?
    {
      if folder <= q {
        assert q == folder + q[1..];
        assert q[1..] < rel by {
          PrefixShift(folder, q[1..], rel);
        }
        assert Get(t, folder + q[1..]) == Get(s, q[1..]);
      } else {
        assert q == [];
      }
    }
  }

  lemma WayUncovered(t: Tree, dest: Path, f: Tree, v: Tree, includes: seq<string>, rel: Path)
    requires WellFormed(t) && |dest| == 1 && Uncovering(t, dest, f, v, includes) && RealWay(f, rel)
    ensures RealWay(t, dest + rel)
  {
    forall q | q < dest + rel && q in t
      ensures t[q].Dir?
    {
      if dest <= q {
        assert q == dest + q[1..];
        PrefixShift(dest, q[1..], rel);
        assert Get(t, dest + q[1..]) == if Carried(v, includes, q[1..]) then None else Get(f, q[1..]);
      } else {
        assert q == [];
      }
    }
  }

  lemma RemovedBelow(t: Tree, after: Tree, dest: Path, from: Path, rel: Path)
    requires |dest| == 1 && |from| == 1 && dest != from && Trimmed(t, after, dest + rel)
    ensures forall q | !(dest <= q) :: Get(after, q) == Get(t, q)
    ensures forall p :: Get(after, from + p) == Get(t, from + p)
    ensures forall p | !(rel <= p) :: Get(after, dest + p) == Get(t, dest + p)
  {
    forall q | !(dest <= q)
      ensures Get(after, q) == Get(t, q)
    {
      assert dest + rel <= q ==> dest <= q;
    }
    forall p
      ensures Get(after, from + p) == Get(t, from + p)
    {
      assert (from + p)[0] == from[0];
    }
    forall p | !(rel <= p)
      ensures Get(after, dest + p) == Get(t, dest + p)
    {
      PrefixShift(dest, rel, p);
    }
  }

  lemma UncoveredMore(t: Tree, after: Tree, dest: Path, f: Tree, v: Tree, includes: seq<string>, i: nat)
    requires i < |includes| && SafeRel(includes[i]).Some?
    requires Uncovering(t, dest, f, v, includes[..i])
    requires forall p | !(SafeRel(includes[i]).value <= p) :: Get(after, dest + p) == Get(t, dest + p)
    requires SafeRel(includes[i]).value in v ==> forall q | dest + SafeRel(includes[i]).value <= q :: q !in after
    requires SafeRel(includes[i]).value !in v ==> after == t
    ensures Uncovering(after, dest, f, v, includes[..i + 1])
  {
    var rel := SafeRel(includes[i]).value;
    forall p
      ensures Get(after, dest + p) == if Carried(v, includes[..i + 1], p) then None else Get(f, p)
    {
      CarriedMore(v, includes, i, p);
      assert Get(t, dest + p) == if Carried(v, includes[..i], p) then None else Get(f, p);
      PrefixShift(dest, rel, p);
    }
  }

  lemma CarriedMore(v: Tree, includes: seq<string>, i: nat, p: Path)
    requires i < |includes|
    ensures Carried(v, includes[..i + 1], p) <==> Carried(v, includes[..i], p) || CarriedBy(v, includes[i], p)
  {
    var less, more := includes[..i], includes[..i + 1];
    assert more == less + [includes[i]];
    if Carried(v, more, p) {
      var j :| 0 <= j < i + 1 && CarriedBy(v, more[j], p);
      assert j < i ==> CarriedBy(v, less[j], p);
    }
    if Carried(v, less, p) {
      var j :| 0 <= j < i && CarriedBy(v, less[j], p);
      assert CarriedBy(v, more[j], p);
    }
    assert CarriedBy(v, includes[i], p) ==> CarriedBy(v, more[i], p);
  }

  // ----- the two moves -----

  /** The overlay never clashes with what is left of the full archive. */
  lemma OverlayNeverClashes(t: Tree, dest: Path, from: Path, f: Tree, v: Tree, includes: seq<string>)
    requires Mirrors(t, from, v) && Uncovering(t, dest, f, v, includes)
    requires WellFormed(v) && SafeIncludes(includes)
    requires forall p | p in v && p != [] :: Included(includes, p) || v[p].Dir?
    ensures !M.HasClash(t, from, dest)
  {
    forall p
      ensures !M.Clashes(t, from, dest, p)
    {
      assert Get(t, from + p) == Get(v, p);
      assert Get(t, dest + p) == if Carried(v, includes, p) then None else Get(f, p);
      if p in v && p != [] && !v[p].Dir? {
        OverlayCarries(v, includes, p);
      }
    }
  }

  /** Once everything staged at `from` has arrived, dest holds the merge. */
  lemma OverlayLaid(before: Tree, after: Tree, dest: Path, from: Path, f: Tree, v: Tree, includes: seq<string>)
    requires WellFormed(v) && WellFormed(f)
    requires Mirrors(before, from, v) && Uncovering(before, dest, f, v, includes)
    requires |dest| == 1 && |from| == 1 && dest != from && !Carried(v, includes, [])
    requires M.Partial(before, after, from, dest, M.EVERY_NAME) && M.Complete(before, after, from, dest, M.EVERY_NAME)
    ensures Mirrors(after, dest, Uncovered(f, v, includes) + v)
  {
    var x := Uncovered(f, v, includes) + v;
    forall p
      ensures Get(after, dest + p) == Get(x, p)
    {
      assert Get(before, from + p) == Get(v, p);
      assert Get(before, dest + p) == if Carried(v, includes, p) then None else Get(f, p);
      if p != [] && p in v {
        assert M.Arrived(before, after, from, dest, p);
      } else {
        assert (dest + p)[|dest|..] == p;
        assert (dest + p)[0] == dest[0];
        assert !M.Touched(before, from, dest, M.EVERY_NAME, dest + p);
      }
    }
  }

  lemma StagingApart(t: Tree, dest: Path, from: Path)
    requires |dest| == 1 && |from| == 1 && dest != from
    ensures M.Apart(t, from, dest)
  {
    forall n | from + [n] in t
      ensures M.Incomparable(from, dest + [n])
    {
      assert (dest + [n])[0] == dest[0];
    }
  }

  /** A move between the two staging folders does not reach the workspace. */
  lemma StagingMoveFramed(before: Tree, after: Tree, dest: Path, from: Path)
    requires M.Partial(before, after, from, dest, M.EVERY_NAME)
    ensures forall q | !(dest <= q) && !(from <= q) :: Get(after, q) == Get(before, q)
  {
    forall q | !(dest <= q) && !(from <= q)
      ensures Get(after, q) == Get(before, q)
    {
      assert !M.Touched(before, from, dest, M.EVERY_NAME, q);
    }
  }

  /** Laying a safe overlay over f: the merge, the archive's own fault, or an operation that failed. */
  ghost predicate OverlayResult(result: Verdict, sound: bool, after: Tree, f: Tree, o: Overlay, limits: Limits) {
    || (result.Failed? && !sound)
    || match Staged(Some(o.stream), o.includes, limits)
       case Failure(why) => result == BadArchive(why)
       case Success(v) => result.Restored? && Mirrors(after, RESTORE_DIR, Uncovered(f, v, o.includes) + v)
  }

  method LayOverlay(fs: FileSystem, o: Overlay, limits: Limits, ghost f: Tree) returns (result: Verdict)
    requires fs.Valid() && WellFormed(f) && Mirrors(fs.nodes, RESTORE_DIR, f) && IsDir(fs.nodes, RESTORE_DIR)
    requires forall v, i | Staged(Some(o.stream), o.includes, limits) == Success(v) && 0 <= i < |o.includes| ::
               RealWay(f, Clean(o.includes[i]).segments) && RealWay(v, Clean(o.includes[i]).segments)
    modifies fs
    ensures fs.Valid() && SameWorkspace(fs.nodes, old(fs.nodes))
    ensures fs.Faults() >= old(fs.Faults())
    ensures if SafeIncludes(o.includes)
            then OverlayResult(result, fs.Faults() == old(fs.Faults()), fs.nodes, f, o, limits)
            else result == BadArchive(UnsafeName)
  {
    if exists i | 0 <= i < |o.includes| :: SafeRel(o.includes[i]).None? {
      return BadArchive(UnsafeName);
    }
    result := LaySafeOverlay(fs, o, limits, f);
    // The deferred removal of the overlay folder; its result is ignored.
    ghost var laid := fs.nodes;
    StagingWay(laid, OVERLAY_DIR);
    var removed := fs.RemoveAll(OVERLAY_DIR);
    RemovedBelow(laid, fs.nodes, OVERLAY_DIR, RESTORE_DIR, []);
    assert OVERLAY_DIR + [] == OVERLAY_DIR;
  }

  lemma StagingWay(t: Tree, folder: Path)
    requires WellFormed(t) && |folder| == 1
    ensures RealWay(t, folder)
  {
    forall q | q < folder && q in t
      ensures t[q].Dir?
    {
      assert q == [];
    }
  }

  method LaySafeOverlay(fs: FileSystem, o: Overlay, limits: Limits, ghost f: Tree) returns (result: Verdict)
    requires fs.Valid() && WellFormed(f) && Mirrors(fs.nodes, RESTORE_DIR, f) && IsDir(fs.nodes, RESTORE_DIR)
    requires SafeIncludes(o.includes)
    requires forall v, i | Staged(Some(o.stream), o.includes, limits) == Success(v) && 0 <= i < |o.includes| ::
               RealWay(f, Clean(o.includes[i]).segments) && RealWay(v, Clean(o.includes[i]).segments)
    modifies fs
    ensures fs.Valid() && SameWorkspace(fs.nodes, old(fs.nodes))
    ensures fs.Faults() >= old(fs.Faults())
    ensures OverlayResult(result, fs.Faults() == old(fs.Faults()), fs.nodes, f, o, limits)
  {
    ghost var w0 := fs.nodes;
    var ok := FreshFolder(fs, OVERLAY_DIR);
    if !ok {
      return Failed;
    }
    var unpacked := UnpackFile(fs, OVERLAY_DIR, o.stream, o.includes, limits);
    if unpacked.Refused? {
      return BadArchive(unpacked.why);
    } else if unpacked.IOFailed? {
      return Failed;
    }
    ghost var v := Staged(Some(o.stream), o.includes, limits).value;
    StagedShape(Some(o.stream), o.includes, limits);
    ghost var t1 := fs.nodes;
    forall p
      ensures Get(t1, RESTORE_DIR + p) == Get(f, p)
    {
      assert (RESTORE_DIR + p)[0] == RESTORE_DIR[0];
      assert Get(t1, RESTORE_DIR + p) == Get(w0, RESTORE_DIR + p);
    }
    assert Get(t1, RESTORE_DIR) == Get(w0, RESTORE_DIR);
    ok := Uncover(fs, RESTORE_DIR, OVERLAY_DIR, o.includes, f, v);
    if !ok {
      return Failed;
    }
    ghost var t2 := fs.nodes;
    StagingApart(t2, RESTORE_DIR, OVERLAY_DIR);
    OverlayNeverClashes(t2, RESTORE_DIR, OVERLAY_DIR, f, v, o.includes);
    StartHeight(t2, OVERLAY_DIR);
    assert OVERLAY_DIR + [] == OVERLAY_DIR && Get(t2, OVERLAY_DIR + []) == Get(v, []);
    var moved := M.MoveInto(fs, OVERLAY_DIR, RESTORE_DIR, HeightOf(t2));
    StagingMoveFramed(t2, fs.nodes, RESTORE_DIR, OVERLAY_DIR);
    if moved.Done? {
      RootNotCarried(v, o.includes);
      OverlayLaid(t2, fs.nodes, RESTORE_DIR, OVERLAY_DIR, f, v, o.includes);
    }
    result := if moved.Done? then Restored else Failed;
  }

  lemma RootNotCarried(v: Tree, includes: seq<string>)
    ensures !Carried(v, includes, [])
  {
    forall i | 0 <= i < |includes| && SafeRel(includes[i]).Some?
      ensures SafeRel(includes[i]).value != []
    {
      SafeRelAccepts(includes[i]);
    }
  }

  /** Moving the staged tree over the workspace, read as a merge. */
  lemma MoveIsMerge(before: Tree, after: Tree, x: Tree)
    requires WellFormed(before) && WellFormed(x) && Mirrors(before, RESTORE_DIR, x)
    requires forall p | p in x && p != [] :: InWorkspace(p)
    requires M.Partial(before, after, RESTORE_DIR, [], M.EVERY_NAME)
    ensures Interrupted(before, after, x)
    ensures M.Complete(before, after, RESTORE_DIR, [], M.EVERY_NAME) ==>
              forall p | InWorkspace(p) :: Get(after, p) == MergedAt(before, x, p)
  {
    forall p | InWorkspace(p)
      ensures || Get(after, p) == Get(before, p)
              || (p in x && !IsDir(before, p) && (p !in after || after[p] == x[p]))
      ensures M.Complete(before, after, RESTORE_DIR, [], M.EVERY_NAME) ==> Get(after, p) == MergedAt(before, x, p)
    {
      assert [] + p == p && p[0..] == p;
      assert Get(before, RESTORE_DIR + p) == Get(x, p);
      if p != [] && p in x {
        assert M.Staged(before, RESTORE_DIR, p);
        assert M.Progress(before, after, RESTORE_DIR, [], p);
      } else {
        assert !M.Touched(before, RESTORE_DIR, [], M.EVERY_NAME, p);
      }
    }
  }

  lemma ClashIsConflict(before: Tree, x: Tree)
    requires WellFormed(x) && Mirrors(before, RESTORE_DIR, x)
    requires forall p | p in x && p != [] :: InWorkspace(p)
    ensures M.HasClash(before, RESTORE_DIR, []) <==> Conflicts(before, x)
  {
    forall p: Path
      ensures [] + p == p && Get(before, RESTORE_DIR + p) == Get(x, p)
    {
    }
    if M.HasClash(before, RESTORE_DIR, []) {
      var p :| M.Clashes(before, RESTORE_DIR, [], p);
      assert Get(before, RESTORE_DIR + p) == Get(x, p) && [] + p == p;
      assert p in x && !x[p].Dir? && IsDir(before, p);
    }
    if Conflicts(before, x) {
      var p :| InWorkspace(p) && p in x && !x[p].Dir? && IsDir(before, p);
      assert Get(before, RESTORE_DIR + p) == Get(x, p) && [] + p == p;
      assert M.Clashes(before, RESTORE_DIR, [], p);
    }
  }

  lemma RootApart(t: Tree, x: Tree)
    requires Mirrors(t, RESTORE_DIR, x) && forall p | p in x && p != [] :: InWorkspace(p)
    ensures M.Apart(t, RESTORE_DIR, [])
  {
    forall n | RESTORE_DIR + [n] in t
      ensures M.Incomparable(RESTORE_DIR, [] + [n])
    {
      assert Get(t, RESTORE_DIR + [n]) == Get(x, [n]);
      assert InWorkspace([n]) && [] + [n] == [n];
    }
  }

  /** Everything in the target lies in the workspace, and the target is a tree. */
  lemma TargetShape(r: Request)
    requires Acceptable(r) && Target(r).Success?
    ensures var x := Target(r).value; WellFormed(x) && forall p | p in x && p != [] :: InWorkspace(p)
  {
    StagedShape(r.full, r.includes, r.limits);
    var f := Staged(r.full, r.includes, r.limits).value;
    forall p | p in f && p != []
      ensures InWorkspace(p)
    {
      StagedNames(f, r.includes, p);
    }
    if r.overlay.Some? {
      var o := r.overlay.value;
      StagedShape(Some(o.stream), o.includes, r.limits);
      var v := Staged(Some(o.stream), o.includes, r.limits).value;
      forall p | p in v && p != []
        ensures InWorkspace(p)
      {
        StagedNames(v, o.includes, p);
      }
      OverlayWellFormed(f, v, o.includes);
    }
  }

  lemma OverlayWellFormed(f: Tree, v: Tree, includes: seq<string>)
    requires WellFormed(f) && WellFormed(v) && SafeIncludes(includes)
    requires forall p | p in v && p != [] :: Included(includes, p) || v[p].Dir?
    ensures WellFormed(Uncovered(f, v, includes) + v)
  {
    var x := Uncovered(f, v, includes) + v;
    forall p
      ensures p in x ==> CleanPath(p)
      ensures p in x && p != [] ==> IsDir(x, Parent(p))
    {
      if p in x {
        assert if p in v then p in v else p in f;
        assert CleanPath(p);
        if p != [] {
          var q := Parent(p);
          if p in v {
            assert IsDir(v, q);
          } else {
            assert IsDir(f, q);
            assert Carried(v, includes, q) ==> Carried(v, includes, p);
            if q in v && q != [] && !v[q].Dir? {
              OverlayCarries(v, includes, q);
            }
          }
        }
      }
    }
  }

  // ----- the restore -----

  /** The workspace after is the request's target merged over the one before. */
  ghost predicate MergedBy(r: Request, before: Tree, after: Tree) {
    && Target(r).Success?
    && !Conflicts(before, Target(r).value)
    && forall p | InWorkspace(p) :: Get(after, p) == MergedAt(before, Target(r).value, p)
  }

  ghost predicate StoppedIn(r: Request, before: Tree, after: Tree) {
    Target(r).Success? && Interrupted(before, after, Target(r).value)
  }

  /**
   * One restore. `fetched` says whether both archives arrived and had their digests. The target tree is staged in a
   * folder of its own, and the workspace is touched by nothing but the last move.
   */
  method Restore(fs: FileSystem, r: Request, fetched: bool) returns (verdict: Verdict, ghost moving: bool)
    requires fs.Valid() && Acceptable(r)
    modifies fs
    ensures fs.Valid()
    ensures verdict.Restored? ==> moving && MergedBy(r, old(fs.nodes), fs.nodes)
    ensures verdict.Clash? ==> moving && Target(r).Success? && Conflicts(old(fs.nodes), Target(r).value)
    ensures verdict.BadArchive? ==> Target(r) == Failure(verdict.why)
    ensures verdict.NotFetched? <==> !fetched
    ensures verdict.NotFetched? || verdict.BadArchive? ==> !moving
    ensures fs.Faults() >= old(fs.Faults()) && (verdict.Failed? ==> fs.Faults() > old(fs.Faults()))
    ensures fs.Faults() == old(fs.Faults()) ==>
              (verdict.Restored? <==> fetched && Target(r).Success? && !Conflicts(old(fs.nodes), Target(r).value))
    ensures !moving ==> SameWorkspace(fs.nodes, old(fs.nodes))
    ensures moving ==> StoppedIn(r, old(fs.nodes), fs.nodes)
  {
    moving := false;
    if !fetched {
      return NotFetched, moving;
    }
    ghost var w0 := fs.nodes;
    verdict := Stage(fs, r);
    if verdict.Restored? {
      moving := true;
      verdict := MoveTarget(fs, r, w0);
    }
    // The deferred removal of the staging folder; its result is ignored.
    ghost var w2 := fs.nodes;
    StagingWay(w2, RESTORE_DIR);
    var removed := fs.RemoveAll(RESTORE_DIR);
    assert forall p | InWorkspace(p) :: Get(fs.nodes, p) == Get(w2, p);
  }

  /** The last step: the staged target moves over the workspace. */
  method MoveTarget(fs: FileSystem, r: Request, ghost w0: Tree) returns (verdict: Verdict)
    requires fs.Valid() && Acceptable(r) && Target(r).Success?
    requires Mirrors(fs.nodes, RESTORE_DIR, Target(r).value) && SameWorkspace(fs.nodes, w0)
    modifies fs
    ensures fs.Valid() && StoppedIn(r, w0, fs.nodes)
    ensures verdict.Restored? || verdict.Clash? || verdict.Failed?
    ensures verdict.Restored? ==> MergedBy(r, w0, fs.nodes)
    ensures verdict.Clash? ==> Conflicts(w0, Target(r).value)
    ensures fs.Faults() >= old(fs.Faults()) && (verdict.Failed? ==> fs.Faults() > old(fs.Faults()))
  {
    ghost var w1 := fs.nodes;
    ghost var x := Target(r).value;
    TargetShape(r);
    RootApart(w1, x);
    StartHeight(w1, RESTORE_DIR);
    assert RESTORE_DIR + [] == RESTORE_DIR && Get(w1, RESTORE_DIR + []) == Get(x, []);
    var moved := M.MoveInto(fs, RESTORE_DIR, [], HeightOf(w1));
    MoveIsMerge(w1, fs.nodes, x);
    ClashIsConflict(w1, x);
    MovedFrom(w0, w1, fs.nodes, x);
    verdict := if moved.Done? then Restored else if moved.Conflict? then Clash else Failed;
  }

  /** Staging first and then moving is, for the workspace, one move. */
  lemma MovedFrom(w0: Tree, w1: Tree, w2: Tree, x: Tree)
    requires SameWorkspace(w1, w0) && Interrupted(w1, w2, x)
    ensures Interrupted(w0, w2, x) && (Conflicts(w1, x) <==> Conflicts(w0, x))
    ensures forall p | InWorkspace(p) :: MergedAt(w1, x, p) == MergedAt(w0, x, p)
  {
    SameConflicts(w0, w1, x);
    InterruptedAgain(w0, w1, w2, x);
  }

  lemma SameConflicts(w0: Tree, w1: Tree, x: Tree)
    requires SameWorkspace(w1, w0)
    ensures Conflicts(w1, x) <==> Conflicts(w0, x)
    ensures Interrupted(w0, w1, x)
  {
    if Conflicts(w0, x) {
      var p :| InWorkspace(p) && p in x && !x[p].Dir? && IsDir(w0, p);
      assert Get(w1, p) == Get(w0, p);
    }
    if Conflicts(w1, x) {
      var p :| InWorkspace(p) && p in x && !x[p].Dir? && IsDir(w1, p);
      assert Get(w1, p) == Get(w0, p);
    }
  }

  /** Everything before the final move: the target tree, in the staging folder. */
  method Stage(fs: FileSystem, r: Request) returns (verdict: Verdict)
    requires fs.Valid() && Acceptable(r)
    modifies fs
    ensures fs.Valid() && SameWorkspace(fs.nodes, old(fs.nodes))
    ensures verdict.Restored? ==> Target(r).Success? && Mirrors(fs.nodes, RESTORE_DIR, Target(r).value)
    ensures verdict.BadArchive? ==> Target(r) == Failure(verdict.why)
    ensures fs.Faults() >= old(fs.Faults()) && (verdict.Failed? ==> fs.Faults() > old(fs.Faults()))
    ensures !verdict.Clash? && !verdict.NotFetched?
  {
    var ok := FreshFolder(fs, RESTORE_DIR);
    if !ok {
      return Failed;
    }
    if r.full.Some? {
      var unpacked := UnpackFile(fs, RESTORE_DIR, r.full.value, r.includes, r.limits);
      if unpacked.Refused? {
        return BadArchive(unpacked.why);
      } else if unpacked.IOFailed? {
        return Failed;
      }
    }
    if r.overlay.None? {
      return Restored;
    }
    StagedShape(r.full, r.includes, r.limits);
    verdict := LayOverlay(fs, r.overlay.value, r.limits, Staged(r.full, r.includes, r.limits).value);
  }

  /**
   * A process of the agent: whether both archives arrive with their digests, which of its file operations fail, and
   * whether it comes to write the marker after a move that finished: it may have been stopped, or end before.
   */
  datatype Process = Process(fetched: bool, fails: nat -> bool, marks: bool)

  ghost predicate Undisturbed(run: Process) {
    run.fetched && run.marks && forall n {:trigger run.fails(n)} :: !run.fails(n)
  }

  /**
   * The agent's runs of one restore. Each run can be cut short anywhere and leave anything in the staging folders; the
   * restored marker is written only after a run that finished. However many runs it takes, the workspace they end with
   * is the one that a single undisturbed run would have made of the first one; and an undisturbed run does end it,
   * unless the archives have no target or it conflicts with the workspace.
   */
  method RestoreAcrossRestarts(t: Tree, r: Request, runs: seq<Process>) returns (marker: bool, after: Tree)
    requires WellFormed(t) && Acceptable(r)
    ensures WellFormed(after)
    ensures marker ==> MergedBy(r, t, after)
    ensures !marker ==> SameWorkspace(after, t) || StoppedIn(r, t, after)
    ensures Target(r).Success? && !Conflicts(t, Target(r).value) && (exists run <- runs :: Undisturbed(run)) ==> marker
  {
    marker, after := false, t;
    for i := 0 to |runs|
      invariant WellFormed(after) && !marker
      invariant SameWorkspace(after, t) || StoppedIn(r, t, after)
      invariant Target(r).Success? && !Conflicts(t, Target(r).value) ==> forall run <- runs[..i] :: !Undisturbed(run)
    {
      var now := after;
      var fs := new FileSystem(now, runs[i].fails);
      var verdict, moving := Restore(fs, r, runs[i].fetched);
      after := fs.nodes;
      if Target(r).Success? {
        ghost var x := Target(r).value;
        assert Interrupted(t, now, x);
        InterruptionConverges(t, now, x);
        assert Interrupted(now, after, x);
        InterruptedAgain(t, now, after, x);
      }
      if verdict.Restored? && runs[i].marks {
        return true, after;
      }
      assert Undisturbed(runs[i]) ==> fs.Sound();
      assert runs[..i + 1] == runs[..i] + [runs[i]];
    }
    assert runs[..|runs|] == runs;
  }

  // ----- what a restore brings -----

  /** A tree of which an archive was packed: the part of it below the root that no pattern excludes. */
  datatype Source = Source(tree: Tree, root: Path, excluded: Path -> bool)

  /** The stream is a whole archive of the source, as Pack writes it under these includes and limits. */
  ghost predicate ArchiveOf(stream: Stream, src: Source, includes: seq<string>, limits: Limits) {
    && !stream.broken && WellFormed(src.tree)
    && CountAll(limits, ZERO, stream.entries).Some?
    && exists rels :: Packs(stream, src, includes, rels)
  }

  ghost predicate Packs(stream: Stream, src: Source, includes: seq<string>, rels: seq<Path>) {
    && P.Listed(src.tree, src.root, rels, stream.entries)
    && (forall r <- rels :: P.Selected(src.tree, src.root, includes, src.excluded, r))
    && forall r | P.Selected(src.tree, src.root, includes, src.excluded, r) && r !in rels ::
         P.IsSpecial(src.tree, src.root + r)
  }

  /** The request's archives are of these sources: the full one, if there is one, and the session's, if there is one. */
  ghost predicate ArchivesOf(r: Request, full: Option<Source>, session: Option<Source>) {
    && (r.full.Some? <==> full.Some?) && (r.overlay.Some? <==> session.Some?)
    && (r.full.Some? ==> ArchiveOf(r.full.value, full.value, r.includes, r.limits))
    && (r.overlay.Some? ==>
        && SafeIncludes(r.overlay.value.includes)
        && ArchiveOf(r.overlay.value.stream, session.value, r.overlay.value.includes, r.limits))
  }

  /** The source's selected node at p, or a directory on the way to one. */
  ghost function Carries(src: Option<Source>, includes: seq<string>, p: Path): Option<Node> {
    if src.Some? && P.InSelection(src.value.tree, src.value.root, includes, src.value.excluded, p)
    then Get(src.value.tree, src.value.root + p)
    else None
  }

  /** p is at or below an include path that the session has. */
  ghost predicate TakenOver(session: Source, includes: seq<string>, p: Path) {
    exists d :: IncludeDir(includes, d) && d <= p && Carries(Some(session), includes, d).Some?
  }

  /**
   * What the archives bring to p: the session's node; else, where the session has taken over, nothing; else the full
   * one's.
   */
  ghost function Brings(r: Request, full: Option<Source>, session: Option<Source>, p: Path): Option<Node>
    requires r.overlay.Some? <==> session.Some?
  {
    if session.None? then Carries(full, r.includes, p)
    else
      var includes := r.overlay.value.includes;
      if Carries(session, includes, p).Some? then Carries(session, includes, p)
      else if TakenOver(session.value, includes, p) then None
      else Carries(full, r.includes, p)
  }

  /** An archive of a source is staged as the source's selection. */
  lemma StagedArchive(stream: Stream, src: Source, includes: seq<string>, limits: Limits)
    requires ArchiveOf(stream, src, includes, limits)
    ensures var staged := Staged(Some(stream), includes, limits);
            && staged.Success? && IsDir(staged.value, [])
            && forall p | p != [] :: Get(staged.value, p) == Carries(Some(src), includes, p)
  {
    var rels :| Packs(stream, src, includes, rels);
    var u := UnpacksBare(stream, src, includes, limits, rels);
    forall p | p != []
      ensures Get(u, p) == Carries(Some(src), includes, p)
    {
      assert Get(u, [] + p) == Carries(Some(src), includes, p);
      assert [] + p == p;
    }
  }

  lemma UnpacksBare(stream: Stream, src: Source, includes: seq<string>, limits: Limits,
                    rels: seq<Path>) returns (u: Tree)
    requires !stream.broken && WellFormed(src.tree) && CountAll(limits, ZERO, stream.entries).Some?
    requires Packs(stream, src, includes, rels)
    ensures Extract(BARE, [], includes, limits, ZERO, stream) == Success(u) && IsDir(u, [])
    ensures forall p | p != [] :: Get(u, [] + p) == Carries(Some(src), includes, p)
  {
    assert stream == Stream(stream.entries, false);
    P.RoundTrip(src.tree, src.root, includes, src.excluded, rels, stream.entries, limits, BARE, []);
    u := Extract(BARE, [], includes, limits, ZERO, stream).value;
    var nowhere: Path := [];
    assert Get(u, nowhere) == Get(BARE, nowhere);
  }

  /** The target of archives that are of these sources holds what they bring. */
  lemma TargetBrings(r: Request, full: Option<Source>, session: Option<Source>)
    requires ArchivesOf(r, full, session)
    ensures Target(r).Success? && IsDir(Target(r).value, [])
    ensures forall p | p != [] :: Get(Target(r).value, p) == Brings(r, full, session, p)
  {
    if r.full.Some? {
      StagedArchive(r.full.value, full.value, r.includes, r.limits);
    }
    var f := Staged(r.full, r.includes, r.limits).value;
    assert forall p | p != [] :: Get(f, p) == Carries(full, r.includes, p);
    if r.overlay.Some? {
      var o := r.overlay.value;
      StagedArchive(o.stream, session.value, o.includes, r.limits);
      var v := Staged(Some(o.stream), o.includes, r.limits).value;
      OverlayMeaning(r);
      forall p | p != []
        ensures Get(Target(r).value, p) == Brings(r, full, session, p)
      {
        CarriedIsTakenOver(v, session.value, o.includes, p);
      }
      RootNotCarried(v, o.includes);
      assert Get(Target(r).value, []) == Some(Dir);
    }
  }

  /** Which requests have a target: those whose archives can be unpacked, the overlay's includes being safe names. */
  lemma TargetExists(r: Request)
    ensures Target(r).Success? <==>
            && (r.full.Some? ==> Unpackable(BARE, [], r.includes, r.limits, r.full.value))
            && (r.overlay.Some? ==>
                && SafeIncludes(r.overlay.value.includes)
                && Unpackable(BARE, [], r.overlay.value.includes, r.limits, r.overlay.value.stream))
  {
    if r.full.Some? {
      ExtractMeaning(BARE, [], r.includes, r.limits, r.full.value);
    }
    if r.overlay.Some? {
      ExtractMeaning(BARE, [], r.overlay.value.includes, r.limits, r.overlay.value.stream);
    }
  }

  lemma CarriedIsTakenOver(v: Tree, session: Source, includes: seq<string>, p: Path)
    requires SafeIncludes(includes)
    requires forall q | q != [] :: Get(v, q) == Carries(Some(session), includes, q)
    ensures Carried(v, includes, p) <==> TakenOver(session, includes, p)
  {
    forall i | 0 <= i < |includes|
      ensures SafeRel(includes[i]).value != []
      ensures Clean(includes[i]) == Cleaned(false, SafeRel(includes[i]).value)
    {
      SafeRelAccepts(includes[i]);
      CleanIgnoresSlash(includes[i]);
    }
    if Carried(v, includes, p) {
      var i :| 0 <= i < |includes| && CarriedBy(v, includes[i], p);
      var d := SafeRel(includes[i]).value;
      assert IncludeDir(includes, d) && Get(v, d).Some?;
    }
    if TakenOver(session, includes, p) {
      var d :| IncludeDir(includes, d) && d <= p && Carries(Some(session), includes, d).Some?;
      var i :| 0 <= i < |includes| && Clean(includes[i]) == Cleaned(false, d);
      assert Get(v, d).Some? && CarriedBy(v, includes[i], p);
    }
  }

  /**
   * What the workspace holds after a restore: where the archives bring a node that node, and everywhere else what was
   * there. And a restore is kept from it only where they bring something other than a directory onto a directory.
   */
  lemma RestoreBrings(r: Request, full: Option<Source>, session: Option<Source>, before: Tree, after: Tree)
    requires ArchivesOf(r, full, session) && WellFormed(before)
    ensures Target(r).Success?
    ensures MergedBy(r, before, after) ==>
              forall p | InWorkspace(p) ::
                Get(after, p) ==
                if p != [] && Brings(r, full, session, p).Some? then Brings(r, full, session, p) else Get(before, p)
    ensures Conflicts(before, Target(r).value) <==>
              exists p | InWorkspace(p) && p != [] && IsDir(before, p) ::
                Brings(r, full, session, p).Some? && Brings(r, full, session, p) != Some(Dir)
  {
    TargetBrings(r, full, session);
    var x := Target(r).value;
    forall p | p != []
      ensures p in x <==> Brings(r, full, session, p).Some?
      ensures p in x ==> Some(x[p]) == Brings(r, full, session, p)
    {
      assert Get(x, p) == Brings(r, full, session, p);
    }
    if Conflicts(before, x) {
      var p :| InWorkspace(p) && p in x && !x[p].Dir? && IsDir(before, p);
      assert p != [];
    }
  }

  /**
   * From one workspace to another: packing the one and restoring the archive over the other brings exactly the
   * selection and leaves everything else as it was. When no operation fails that happens unless the selection cannot be
   * packed or has something other than a directory where the other workspace has one.
   */
  method PackAndRestore(from: FileSystem, root: Path, includes: seq<string>, excluded: Path -> bool, limits: Limits,
                        to: FileSystem)
    returns (packed: Outcome, verdict: Verdict)
    requires from != to && from.Valid() && to.Valid()
    requires P.PackableIncludes(from.nodes, root, includes) && Unreserved(includes)
    modifies from`ops, to
    ensures to.Valid() && to.Faults() >= old(to.Faults())
    ensures from.Faults() == old(from.Faults()) && P.CountsWell(from.nodes, limits) ==>
              (packed.Finished? <==> P.SelectionFits(from.nodes, root, includes, excluded, limits))
    ensures packed.Finished? && to.Faults() == old(to.Faults()) ==>
              (verdict.Restored? <==>
               forall p | InWorkspace(p) && p != [] && IsDir(old(to.nodes), p) ::
                 P.InSelection(from.nodes, root, includes, excluded, p) ==> IsDir(from.nodes, root + p))
    ensures verdict.Restored? ==>
              forall p | InWorkspace(p) ::
                Get(to.nodes, p) ==
                if p != [] && P.InSelection(from.nodes, root, includes, excluded, p) then Get(from.nodes, root + p)
                else Get(old(to.nodes), p)
    ensures !verdict.Restored? && !verdict.Failed? && !verdict.Clash? ==> SameWorkspace(to.nodes, old(to.nodes))
  {
    var entries;
    ghost var rels;
    packed, entries, rels := P.Pack(from, root, includes, excluded, limits);
    if !packed.Finished? {
      return packed, NotFetched;
    }
    var r := Request(Some(Stream(entries, false)), includes, None, limits);
    ghost var full := Source(from.nodes, root, excluded);
    assert Packs(r.full.value, full, includes, rels);
    ghost var before, moving := to.nodes, false;
    verdict, moving := Restore(to, r, true);
    RestoreBrings(r, Some(full), None, before, to.nodes);
    forall p
      ensures Brings(r, Some(full), None, p) ==
              if P.InSelection(from.nodes, root, includes, excluded, p) then Get(from.nodes, root + p) else None
      ensures P.InSelection(from.nodes, root, includes, excluded, p) ==> root + p in from.nodes
    {
      if P.InSelection(from.nodes, root, includes, excluded, p) {
        var q :| P.Selected(from.nodes, root, includes, excluded, q) && p <= q;
        P.KeptNode(from.nodes, root, q, p);
      }
    }
  }
}
