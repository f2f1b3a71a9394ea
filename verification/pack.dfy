/** Packing the selected part of a tree, and the round trip through Unpack. */
module Pack {
  import opened Text
  import opened Paths
  import opened FileTree
  import opened Archive
  import opened Wrappers

  /** p is reached from d without crossing an excluded node, neither d nor p being one. */
  ghost predicate Reached(excluded: Path -> bool, d: Path, p: Path) {
    d <= p && forall k | |d| <= k <= |p| :: !excluded(p[..k])
  }

  ghost predicate Selected(t: Tree, root: Path, includes: seq<string>, excluded: Path -> bool, p: Path) {
    root + p in t && exists d :: IncludeDir(includes, d) && Reached(excluded, d, p)
  }

  predicate IsSpecial(t: Tree, p: Path) {
    p in t && t[p].Special?
  }

  /** The header and data that writeEntry emits. */
  function EntryOf(rel: Path, node: Node): Entry
    requires !node.Special?
  {
    match node
    case Dir => Entry(Join(rel, '/') + "/", DirEntry)
    case File(data, perm, mtime) => Entry(Join(rel, '/'), RegEntry(|data|, data, perm, mtime))
    case Symlink(target) => Entry(Join(rel, '/'), LinkEntry(target))
  }

  /** The entries are those of the nodes at the listed paths. */
  ghost predicate Listed(t: Tree, root: Path, rels: seq<Path>, entries: seq<Entry>) {
    && |rels| == |entries|
    && forall i | 0 <= i < |rels| ::
         && rels[i] != []
         && root + rels[i] in t
         && !t[root + rels[i]].Special?
         && entries[i] == EntryOf(rels[i], t[root + rels[i]])
  }

  /** A node that the walk from `from` must emit. */
  ghost predicate Wanted(t: Tree, root: Path, excluded: Path -> bool, from: Path, r: Path) {
    root + r in t && !t[root + r].Special? && Reached(excluded, from, r)
  }

  ghost predicate AllFound(t: Tree, root: Path, excluded: Path -> bool, d: Path, rels: seq<Path>) {
    forall r | Wanted(t, root, excluded, d, r) :: r in rels
  }

  ghost predicate AllWanted(t: Tree, root: Path, excluded: Path -> bool, d: Path, rels: seq<Path>) {
    forall r <- rels :: Wanted(t, root, excluded, d, r)
  }

  /** The include paths that the agent is given: relative, clean, and reached through real directories only. */
  ghost predicate PackableIncludes(t: Tree, root: Path, includes: seq<string>) {
    forall i | 0 <= i < |includes| ::
      var clean := Clean(includes[i]);
      !clean.rooted && clean.segments != [] && CleanPath(clean.segments) && RealWay(t, root + clean.segments)
  }

  // ----- walking -----

  lemma ReachedChild(excluded: Path -> bool, from: Path, r: Path)
    requires from < r
    ensures Reached(excluded, from, r) <==> !excluded(from) && Reached(excluded, r[..|from| + 1], r)
    ensures r[..|from| + 1] == from + [r[|from|]]
  {
    assert r[..|from|] == from;
  }

  /** What a piece of the walk from `rel` emitted, and how it moved the counter from one tally to another. */
  ghost predicate Emitted(t: Tree, root: Path, excluded: Path -> bool, rel: Path, limits: Limits, before: Tally,
                          outcome: Outcome, after: Tally, entries: seq<Entry>, found: seq<Path>)
  {
    && Listed(t, root, found, entries)
    && AllWanted(t, root, excluded, rel, found)
    && (outcome.Finished? ==> CountAll(limits, before, entries) == Some(after))
    && (outcome.Refused? ==> outcome.why == TooLarge && CountAll(limits, before, entries) == None)
  }

  lemma EmittedThen(t: Tree, root: Path, excluded: Path -> bool, rel: Path, limits: Limits, t0: Tally, t1: Tally,
                    t2: Tally, outcome: Outcome, entries: seq<Entry>, found: seq<Path>, entries': seq<Entry>,
                    found': seq<Path>)
    requires Emitted(t, root, excluded, rel, limits, t0, Finished, t1, entries, found)
    requires Emitted(t, root, excluded, rel, limits, t1, outcome, t2, entries', found')
    ensures Emitted(t, root, excluded, rel, limits, t0, outcome, t2, entries + entries', found + found')
  {
    CountAllConcat(limits, t0, entries, entries');
    ListedConcat(t, root, found, entries, found', entries');
    assert forall r <- found + found' :: r in found || r in found';
  }

  /** One visited node: nothing for a special file, else an entry that counts against the limits. */
  method WriteEntry(fs: FileSystem, root: Path, rel: Path, ghost excluded: Path -> bool, counter: Counter)
    returns (outcome: Outcome, entries: seq<Entry>, ghost found: seq<Path>)
    requires fs.Valid() && rel != [] && root + rel in fs.nodes && !excluded(rel)
    modifies fs`ops, counter
    ensures Emitted(fs.nodes, root, excluded, rel, counter.limits, old(counter.tally), outcome, counter.tally, entries,
                    found)
    ensures !outcome.IOFailed? ==> found == if fs.nodes[root + rel].Special? then [] else [rel]
    ensures outcome.IOFailed? ==> found == []
    ensures fs.Faults() >= old(fs.Faults()) && (outcome.IOFailed? ==> fs.Faults() > old(fs.Faults()))
  {
    found, entries := [], [];
    assert rel[..|rel|] == rel;
    RealWayToNode(fs.nodes, root + rel);
    var info := fs.Lstat(root + rel);
    if info.StatFailed? {
      return IOFailed, entries, found;
    }
    if info.node.Special? {
      return Finished, entries, found;
    }
    found, entries := [rel], [EntryOf(rel, info.node)];
    CountAllOne(counter.limits, counter.tally, entries[0]);
    var ok := counter.Add(EntrySize(entries[0]));
    outcome := if ok then Finished else Refused(TooLarge);
  }

  lemma RealWayToNode(t: Tree, p: Path)
    requires WellFormed(t) && p in t
    ensures RealWay(t, p)
  {
    forall q | q < p && q in t
      ensures t[q].Dir?
    {
      AncestorIsDir(t, p, q);
    }
  }

  /** WalkDir from one node: the node itself, then what is below. */
  method Walk(fs: FileSystem, root: Path, rel: Path, excluded: Path -> bool, counter: Counter, ghost bound: nat)
    returns (outcome: Outcome, entries: seq<Entry>, ghost found: seq<Path>)
    requires fs.Valid() && rel != [] && root + rel in fs.nodes
    requires forall q <- fs.nodes :: |q| <= bound
    modifies fs`ops, counter
    ensures Emitted(fs.nodes, root, excluded, rel, counter.limits, old(counter.tally), outcome, counter.tally, entries,
                    found)
    ensures outcome.Finished? ==> AllFound(fs.nodes, root, excluded, rel, found)
    ensures Distinct(found)
    ensures fs.Faults() >= old(fs.Faults()) && (outcome.IOFailed? ==> fs.Faults() > old(fs.Faults()))
    decreases bound - |root + rel|, 2
  {
    if excluded(rel) {
      forall r
        ensures !Reached(excluded, rel, r)
      {
        assert rel <= r ==> r[..|rel|] == rel;
      }
      return Finished, [], [];
    }
    outcome, entries, found := WriteEntry(fs, root, rel, excluded, counter);
    if !outcome.Finished? {
      return;
    }
    if !IsDir(fs.nodes, root + rel) {
      OnlyItself(fs.nodes, root, excluded, rel);
      return;
    }
    ghost var t0, t1 := old(counter.tally), counter.tally;
    var more: seq<Entry>;
    ghost var below: seq<Path>;
    outcome, more, below := WalkBelow(fs, root, rel, excluded, counter, bound);
    EmittedThen(fs.nodes, root, excluded, rel, counter.limits, t0, t1, counter.tally, outcome, entries, found, more,
                below);
    entries, found := entries + more, found + below;
  }

  /** The part of a walk below a directory that has just been written. */
  method WalkBelow(fs: FileSystem, root: Path, rel: Path, excluded: Path -> bool, counter: Counter, ghost bound: nat)
    returns (outcome: Outcome, entries: seq<Entry>, ghost found: seq<Path>)
    requires fs.Valid() && rel != [] && IsDir(fs.nodes, root + rel) && !excluded(rel)
    requires forall q <- fs.nodes :: |q| <= bound
    modifies fs`ops, counter
    ensures Emitted(fs.nodes, root, excluded, rel, counter.limits, old(counter.tally), outcome, counter.tally, entries,
                    found)
    ensures outcome.Finished? ==> AllFound(fs.nodes, root, excluded, rel, [rel] + found)
    ensures Distinct([rel] + found)
    ensures fs.Faults() >= old(fs.Faults()) && (outcome.IOFailed? ==> fs.Faults() > old(fs.Faults()))
    decreases bound - |root + rel|, 1
  {
    ghost var t, t0 := fs.nodes, counter.tally;
    outcome, entries, found := Finished, [], [];
    var ok, names := fs.ReadDir(root + rel);
    if !ok {
      return IOFailed, entries, found;
    }
    for i := 0 to |names|
      invariant fs.Faults() >= old(fs.Faults())
      invariant fs.nodes == t && outcome.Finished?
      invariant Emitted(t, root, excluded, rel, counter.limits, t0, outcome, counter.tally, entries, found)
      invariant ChildrenFound(t, root, excluded, rel, names[..i], found)
      invariant Distinct(found) && BelowNames(rel, names, i, found)
    {
      assert IsChild(t, root + rel, names[i]);
      ghost var t1, more := counter.tally, [];
      var written;
      outcome, written, more := WalkChild(fs, root, rel, names[i], excluded, counter, bound);
      EmittedThen(t, root, excluded, rel, counter.limits, t0, t1, counter.tally, outcome, entries, found, written,
                  more);
      if outcome.Finished? {
        ChildrenMore(t, root, excluded, rel, names, i, found, more);
      }
      DistinctMore(rel, names, i, found, more);
      entries, found := entries + written, found + more;
      if !outcome.Finished? {
        ItselfAndBelow(rel, names, i + 1, found);
        return;
      }
    }
    ItselfAndBelow(rel, names, |names|, found);
    assert names[..|names|] == names;
    AllCovered(t, root, excluded, rel, names, found);
  }

  method WalkChild(fs: FileSystem, root: Path, rel: Path, n: Name, excluded: Path -> bool, counter: Counter,
                   ghost bound: nat)
    returns (outcome: Outcome, entries: seq<Entry>, ghost found: seq<Path>)
    requires fs.Valid() && rel != [] && root + rel + [n] in fs.nodes && !excluded(rel)
    requires forall q <- fs.nodes :: |q| <= bound
    modifies fs`ops, counter
    ensures Emitted(fs.nodes, root, excluded, rel, counter.limits, old(counter.tally), outcome, counter.tally, entries,
                    found)
    ensures outcome.Finished? ==> AllFound(fs.nodes, root, excluded, rel + [n], found)
    ensures Distinct(found) && Below(rel, n, found)
    ensures fs.Faults() >= old(fs.Faults()) && (outcome.IOFailed? ==> fs.Faults() > old(fs.Faults()))
    decreases bound - |root + rel|, 0
  {
    var child := rel + [n];
    assert root + child == root + rel + [n];
    outcome, entries, found := Walk(fs, root, child, excluded, counter, bound);
    ChildWanted(fs.nodes, root, excluded, rel, n, found);
    assert Below(rel, n, found) by {
      forall r <- found
        ensures |rel| < |r| && r[|rel|] == n
      {
        assert child <= r;
      }
    }
  }

  // ----- each node once -----

  predicate Distinct(rels: seq<Path>) {
    forall i, j | 0 <= i < j < |rels| :: rels[i] != rels[j]
  }

  predicate Below(rel: Path, n: Name, found: seq<Path>) {
    forall r <- found :: |rel| < |r| && r[|rel|] == n
  }

  /** Everything found lies below one of the first i names. */
  predicate BelowNames(rel: Path, names: seq<Name>, i: nat, found: seq<Path>)
    requires i <= |names|
  {
    forall r <- found :: |rel| < |r| && exists k | 0 <= k < i :: r[|rel|] == names[k]
  }

  lemma DistinctMore(rel: Path, names: seq<Name>, i: nat, found: seq<Path>, more: seq<Path>)
    requires i < |names| && forall j, k | 0 <= j < k < |names| :: names[j] != names[k]
    requires Distinct(found) && BelowNames(rel, names, i, found)
    requires Distinct(more) && Below(rel, names[i], more)
    ensures Distinct(found + more) && BelowNames(rel, names, i + 1, found + more)
  {
    forall r <- found, r' <- more
      ensures r != r'
    {
      assert |rel| < |r| && r'[|rel|] == names[i];
      var k :| 0 <= k < i && r[|rel|] == names[k];
      assert names[k] != names[i];
    }
    DistinctConcat(found, more);
    forall r <- found + more
      ensures |rel| < |r| && exists k | 0 <= k < i + 1 :: r[|rel|] == names[k]
    {
      if r in found {
        var k :| 0 <= k < i && r[|rel|] == names[k];
      } else {
        assert r in more;
      }
    }
  }

  lemma DistinctConcat(a: seq<Path>, b: seq<Path>)
    requires Distinct(a) && Distinct(b) && forall r <- a :: r !in b
    ensures Distinct(a + b)
  {
    forall i, j | 0 <= i < j < |a + b|
      ensures (a + b)[i] != (a + b)[j]
    {
      if i < |a| <= j {
        assert a[i] in a && b[j - |a|] in b;
      }
    }
  }

  lemma ItselfAndBelow(rel: Path, names: seq<Name>, i: nat, found: seq<Path>)
    requires i <= |names| && Distinct(found) && BelowNames(rel, names, i, found)
    ensures Distinct([rel] + found)
  {
    assert forall r <- [rel] :: r !in found;
    DistinctConcat([rel], found);
  }

  // ----- how much is selected -----

  /** The nodes that the walk from d emits. */
  ghost function Chosen(t: Tree, root: Path, excluded: Path -> bool, d: Path): set<Path> {
    set q | q in t && root <= q && Wanted(t, root, excluded, d, q[|root|..]) :: q[|root|..]
  }

  lemma ChosenAt(t: Tree, root: Path, excluded: Path -> bool, d: Path, r: Path)
    ensures r in Chosen(t, root, excluded, d) <==> Wanted(t, root, excluded, d, r)
  {
    if Wanted(t, root, excluded, d, r) {
      assert (root + r)[|root|..] == r;
    }
  }

  function SizeAt(t: Tree, root: Path, r: Path): nat {
    if root + r in t && t[root + r].File? then |t[root + r].data| else 0
  }

  ghost function Volume(t: Tree, root: Path, rels: set<Path>): nat {
    if rels == {} then 0
    else
      var r :| r in rels;
      SizeAt(t, root, r) + Volume(t, root, rels - {r})
  }

  lemma {:induction false} VolumeWithout(t: Tree, root: Path, rels: set<Path>, r: Path)
    requires r in rels
    ensures Volume(t, root, rels) == SizeAt(t, root, r) + Volume(t, root, rels - {r})
    decreases rels
  {
    var first :| first in rels && Volume(t, root, rels) == SizeAt(t, root, first) + Volume(t, root, rels - {first});
    if first != r {
      VolumeWithout(t, root, rels - {first}, r);
      VolumeWithout(t, root, rels - {r}, first);
      assert rels - {first} - {r} == rels - {r} - {first};
    }
  }

  lemma {:induction false} VolumeGrows(t: Tree, root: Path, some: set<Path>, all: set<Path>)
    requires some <= all
    ensures Volume(t, root, some) <= Volume(t, root, all) && |some| <= |all|
    decreases some
  {
    if some != {} {
      var r :| r in some;
      VolumeWithout(t, root, some, r);
      VolumeWithout(t, root, all, r);
      VolumeGrows(t, root, some - {r}, all - {r});
    }
  }

  function SetOf(rels: seq<Path>): set<Path> {
    set r | r in rels
  }

  /** Entries of nodes that are listed once have the size of their set. */
  lemma {:induction false} ListedVolume(t: Tree, root: Path, rels: seq<Path>, entries: seq<Entry>)
    requires Listed(t, root, rels, entries) && Distinct(rels)
    ensures var all := SetOf(rels); |rels| == |all| && TotalSize(entries) == Volume(t, root, all)
    decreases |rels|
  {
    if rels != [] {
      var all, rest := SetOf(rels), SetOf(rels[1..]);
      assert rels[0] !in rels[1..];
      assert rest == all - {rels[0]};
      assert Listed(t, root, rels[1..], entries[1..]);
      ListedVolume(t, root, rels[1..], entries[1..]);
      VolumeWithout(t, root, all, rels[0]);
      assert EntrySize(entries[0]) == SizeAt(t, root, rels[0]);
    }
  }

  /** What a walk emits is no more than what it is to emit, and all of that when everything was found. */
  lemma WalkVolume(t: Tree, root: Path, excluded: Path -> bool, d: Path, found: seq<Path>, written: seq<Entry>)
    requires Listed(t, root, found, written) && AllWanted(t, root, excluded, d, found) && Distinct(found)
    ensures var all := Chosen(t, root, excluded, d);
            && |written| <= |all| && TotalSize(written) <= Volume(t, root, all)
            && (AllFound(t, root, excluded, d, found) ==>
                |written| == |all| && TotalSize(written) == Volume(t, root, all))
  {
    var some, all := SetOf(found), Chosen(t, root, excluded, d);
    ListedVolume(t, root, found, written);
    forall r
      ensures r in some ==> r in all
      ensures AllFound(t, root, excluded, d, found) && r in all ==> r in some
    {
      ChosenAt(t, root, excluded, d, r);
    }
    VolumeGrows(t, root, some, all);
    assert AllFound(t, root, excluded, d, found) ==> some == all;
  }

  /** How many entries every include path comes to, and how many bytes; a node under two of them counts twice. */
  ghost function Counts(t: Tree, root: Path, includes: seq<string>, excluded: Path -> bool): seq<nat> {
    seq(|includes|, i requires 0 <= i < |includes| => |Chosen(t, root, excluded, Clean(includes[i]).segments)|)
  }

  ghost function Volumes(t: Tree, root: Path, includes: seq<string>, excluded: Path -> bool): seq<nat> {
    seq(|includes|, i requires 0 <= i < |includes| =>
      Volume(t, root, Chosen(t, root, excluded, Clean(includes[i]).segments)))
  }

  function SumUpTo(ns: seq<nat>, n: nat): nat
    requires n <= |ns|
  {
    if n == 0 then 0 else SumUpTo(ns, n - 1) + ns[n - 1]
  }

  ghost predicate SelectionFits(t: Tree, root: Path, includes: seq<string>, excluded: Path -> bool, limits: Limits) {
    && SumUpTo(Counts(t, root, includes, excluded), |includes|) <= limits.entries
    && SumUpTo(Volumes(t, root, includes, excluded), |includes|) <= limits.bytes
  }

  ghost predicate MeasuredAt(t: Tree, root: Path, includes: seq<string>, excluded: Path -> bool, counts: seq<nat>,
                             volumes: seq<nat>, j: nat)
    requires j < |includes| == |counts| == |volumes|
  {
    var all := Chosen(t, root, excluded, Clean(includes[j]).segments);
    counts[j] == |all| && volumes[j] == Volume(t, root, all)
  }

  ghost predicate Measured(t: Tree, root: Path, includes: seq<string>, excluded: Path -> bool, counts: seq<nat>,
                           volumes: seq<nat>)
  {
    && |counts| == |volumes| == |includes|
    && forall j | 0 <= j < |includes| :: MeasuredAt(t, root, includes, excluded, counts, volumes, j)
  }

  /** Entries of the first n include paths, or of some part of them. */
  predicate Within(counts: seq<nat>, volumes: seq<nat>, n: nat, entries: seq<Entry>)
    requires n <= |counts| == |volumes|
  {
    |entries| <= SumUpTo(counts, n) && TotalSize(entries) <= SumUpTo(volumes, n)
  }

  predicate Whole(counts: seq<nat>, volumes: seq<nat>, n: nat, entries: seq<Entry>)
    requires n <= |counts| == |volumes|
  {
    |entries| == SumUpTo(counts, n) && TotalSize(entries) == SumUpTo(volumes, n)
  }

  lemma WithinMore(t: Tree, root: Path, includes: seq<string>, excluded: Path -> bool, counts: seq<nat>,
                   volumes: seq<nat>, i: nat, entries: seq<Entry>, written: seq<Entry>, found: seq<Path>)
    requires i < |includes| && Measured(t, root, includes, excluded, counts, volumes)
    requires Whole(counts, volumes, i, entries) && Listed(t, root, found, written)
    requires AllWanted(t, root, excluded, Clean(includes[i]).segments, found) && Distinct(found)
    ensures Within(counts, volumes, i + 1, entries + written)
    ensures AllFound(t, root, excluded, Clean(includes[i]).segments, found) ==>
              Whole(counts, volumes, i + 1, entries + written)
  {
    assert MeasuredAt(t, root, includes, excluded, counts, volumes, i);
    WalkVolume(t, root, excluded, Clean(includes[i]).segments, found, written);
    TotalSizeConcat(entries, written);
  }

  lemma {:induction false} SumGrows(ns: seq<nat>, m: nat, n: nat)
    requires m <= n <= |ns|
    ensures SumUpTo(ns, m) <= SumUpTo(ns, n)
    decreases n
  {
    if m < n {
      SumGrows(ns, m, n - 1);
    }
  }

  lemma CutShort(counts: seq<nat>, volumes: seq<nat>, n: nat, entries: seq<Entry>)
    requires n <= |counts| == |volumes| && Within(counts, volumes, n, entries)
    ensures Within(counts, volumes, |counts|, entries)
  {
    SumGrows(counts, n, |counts|);
    SumGrows(volumes, n, |volumes|);
  }

  ghost predicate FilesBelow(t: Tree, bound: nat) {
    forall p <- t :: t[p].File? ==> |t[p].data| < bound
  }

  /** With files of such sizes the counter means what its error texts say. */
  ghost predicate CountsWell(t: Tree, limits: Limits) {
    ValidTally(limits, ZERO) && exists bound :: FilesBelow(t, bound) && 0 < bound && NeverWraps(limits, ZERO, bound)
  }

  ghost predicate WithinSelection(t: Tree, root: Path, includes: seq<string>, excluded: Path -> bool,
                                  entries: seq<Entry>)
  {
    Within(Counts(t, root, includes, excluded), Volumes(t, root, includes, excluded), |includes|, entries)
  }

  ghost predicate WholeSelection(t: Tree, root: Path, includes: seq<string>, excluded: Path -> bool,
                                 entries: seq<Entry>)
  {
    Whole(Counts(t, root, includes, excluded), Volumes(t, root, includes, excluded), |includes|, entries)
  }

  /** Where it does, the entries of a selection are accepted exactly when the selection fits. */
  lemma AcceptedMeaning(t: Tree, root: Path, includes: seq<string>, excluded: Path -> bool, limits: Limits,
                        rels: seq<Path>, entries: seq<Entry>)
    requires CountsWell(t, limits) && Listed(t, root, rels, entries)
    requires WithinSelection(t, root, includes, excluded, entries)
    ensures CountAll(limits, ZERO, entries) == None ==> !SelectionFits(t, root, includes, excluded, limits)
    ensures CountAll(limits, ZERO, entries).Some? && WholeSelection(t, root, includes, excluded, entries) ==>
              SelectionFits(t, root, includes, excluded, limits)
  {
    var bound: nat :| FilesBelow(t, bound) && 0 < bound && NeverWraps(limits, ZERO, bound);
    forall e <- entries
      ensures EntrySize(e) < bound
    {
      var i :| 0 <= i < |entries| && entries[i] == e;
      assert e == EntryOf(rels[i], t[root + rels[i]]);
    }
    CountAllMeaning(limits, ZERO, entries, bound);
  }

  ghost predicate ChildrenFound(t: Tree, root: Path, excluded: Path -> bool, rel: Path, names: seq<Name>,
                                found: seq<Path>)
  {
    forall n <- names :: AllFound(t, root, excluded, rel + [n], found)
  }

  lemma ChildrenMore(t: Tree, root: Path, excluded: Path -> bool, rel: Path, names: seq<Name>, i: nat, found: seq<Path>,
                     more: seq<Path>)
    requires i < |names| && ChildrenFound(t, root, excluded, rel, names[..i], found)
    requires AllFound(t, root, excluded, rel + [names[i]], more)
    ensures ChildrenFound(t, root, excluded, rel, names[..i + 1], found + more)
  {
    assert names[..i + 1] == names[..i] + [names[i]];
    FoundMore(t, root, excluded, found, more);
  }

  lemma OnlyItself(t: Tree, root: Path, excluded: Path -> bool, rel: Path)
    requires WellFormed(t) && !IsDir(t, root + rel)
    ensures forall r | Wanted(t, root, excluded, rel, r) :: r == rel
  {
    forall r | Wanted(t, root, excluded, rel, r)
      ensures r == rel
    {
      if r != rel {
        assert root + rel < root + r;
        NothingBelow(t, root + rel, root + r);
      }
    }
  }

  /** A directory whose children were all walked was walked itself. */
  lemma AllCovered(t: Tree, root: Path, excluded: Path -> bool, rel: Path, names: seq<Name>, found: seq<Path>)
    requires WellFormed(t)
    requires forall n :: n in names <==> IsChild(t, root + rel, n)
    requires ChildrenFound(t, root, excluded, rel, names, found)
    ensures AllFound(t, root, excluded, rel, [rel] + found)
  {
    forall r | Wanted(t, root, excluded, rel, r) && r != rel
      ensures r in found
    {
      var n := r[|rel|];
      var child := root + rel + [n];
      ReachedChild(excluded, rel, r);
      assert child <= root + r;
      if child != root + r {
        AncestorIsDir(t, root + r, child);
      }
      assert IsChild(t, root + rel, n);
      assert AllFound(t, root, excluded, rel + [n], found);
      assert Wanted(t, root, excluded, rel + [n], r);
    }
  }

  lemma ChildWanted(t: Tree, root: Path, excluded: Path -> bool, rel: Path, n: Name, found: seq<Path>)
    requires !excluded(rel) && AllWanted(t, root, excluded, rel + [n], found)
    ensures AllWanted(t, root, excluded, rel, found)
  {
    forall r <- found
      ensures Wanted(t, root, excluded, rel, r)
    {
      assert rel + [n] <= r;
      assert r[..|rel| + 1] == rel + [n];
      ReachedChild(excluded, rel, r);
    }
  }

  method Pack(fs: FileSystem, root: Path, includes: seq<string>, excluded: Path -> bool, limits: Limits)
    returns (outcome: Outcome, entries: seq<Entry>, ghost rels: seq<Path>)
    requires fs.Valid() && PackableIncludes(fs.nodes, root, includes)
    modifies fs`ops
    ensures Listed(fs.nodes, root, rels, entries)
    ensures forall r <- rels :: Selected(fs.nodes, root, includes, excluded, r)
    ensures outcome.Finished? ==> forall r | Selected(fs.nodes, root, includes, excluded, r) && r !in rels ::
                                    IsSpecial(fs.nodes, root + r)
    ensures outcome.Finished? ==> CountAll(limits, ZERO, entries).Some?
    ensures outcome.Refused? ==> outcome.why == TooLarge && CountAll(limits, ZERO, entries) == None
    ensures fs.Faults() >= old(fs.Faults()) && (outcome.IOFailed? ==> fs.Faults() > old(fs.Faults()))
    ensures fs.Faults() == old(fs.Faults()) ==> outcome.Finished? || outcome == Refused(TooLarge)
    ensures WithinSelection(fs.nodes, root, includes, excluded, entries)
    ensures outcome.Finished? ==> WholeSelection(fs.nodes, root, includes, excluded, entries)
    ensures fs.Faults() == old(fs.Faults()) && CountsWell(fs.nodes, limits) ==>
              (outcome.Finished? <==> SelectionFits(fs.nodes, root, includes, excluded, limits))
  {
    ghost var tally;
    ghost var counts := Counts(fs.nodes, root, includes, excluded);
    ghost var volumes := Volumes(fs.nodes, root, includes, excluded);
    assert Measured(fs.nodes, root, includes, excluded, counts, volumes);
    outcome, entries, rels, tally := WalkAll(fs, root, includes, excluded, limits, counts, volumes);
    if outcome.Finished? {
      SelectionFound(fs.nodes, root, includes, excluded, rels);
    }
    if CountsWell(fs.nodes, limits) {
      AcceptedMeaning(fs.nodes, root, includes, excluded, limits, rels, entries);
    }
  }

  /** The loop of Pack over the include paths. */
  method WalkAll(fs: FileSystem, root: Path, includes: seq<string>, excluded: Path -> bool, limits: Limits,
                 ghost counts: seq<nat>, ghost volumes: seq<nat>)
    returns (outcome: Outcome, entries: seq<Entry>, ghost rels: seq<Path>, ghost tally: Tally)
    requires fs.Valid() && PackableIncludes(fs.nodes, root, includes)
    requires Measured(fs.nodes, root, includes, excluded, counts, volumes)
    modifies fs`ops
    ensures Packed(fs.nodes, root, includes, excluded, limits, outcome, tally, entries, rels)
    ensures Within(counts, volumes, |includes|, entries)
    ensures outcome.Finished? ==>
              PackedUpTo(fs.nodes, root, includes, excluded, limits, counts, volumes, |includes|, tally, entries, rels)
    ensures fs.Faults() >= old(fs.Faults()) && (outcome.IOFailed? ==> fs.Faults() > old(fs.Faults()))
  {
    ghost var t := fs.nodes;
    outcome, entries, rels, tally := Finished, [], [], ZERO;
    var counter := new Counter(limits);
    for i := 0 to |includes|
      invariant fs.Faults() >= old(fs.Faults())
      invariant fresh(counter) && counter.limits == limits && outcome.Finished? && fs.nodes == t
      invariant PackedUpTo(t, root, includes, excluded, limits, counts, volumes, i, counter.tally, entries, rels)
      invariant tally == counter.tally
    {
      outcome, entries, rels := PackNext(fs, root, includes, excluded, limits, counts, volumes, counter, i, entries,
                                         rels);
      tally := counter.tally;
      if !outcome.Finished? {
        return;
      }
    }
  }

  /** The body of the loop: what the next include path adds. */
  method PackNext(fs: FileSystem, root: Path, includes: seq<string>, excluded: Path -> bool, limits: Limits,
                  ghost counts: seq<nat>, ghost volumes: seq<nat>, counter: Counter, i: nat, packed: seq<Entry>,
                  ghost before: seq<Path>)
    returns (outcome: Outcome, entries: seq<Entry>, ghost rels: seq<Path>)
    requires fs.Valid() && PackableIncludes(fs.nodes, root, includes) && i < |includes| && counter.limits == limits
    requires Measured(fs.nodes, root, includes, excluded, counts, volumes)
    requires PackedUpTo(fs.nodes, root, includes, excluded, limits, counts, volumes, i, counter.tally, packed, before)
    modifies fs`ops, counter
    ensures Packed(fs.nodes, root, includes, excluded, limits, outcome, counter.tally, entries, rels)
    ensures Within(counts, volumes, |includes|, entries)
    ensures outcome.Finished? ==>
              PackedUpTo(fs.nodes, root, includes, excluded, limits, counts, volumes, i + 1, counter.tally, entries,
                         rels)
    ensures fs.Faults() >= old(fs.Faults()) && (outcome.IOFailed? ==> fs.Faults() > old(fs.Faults()))
  {
    ghost var t1, found := counter.tally, [];
    var written;
    outcome, written, found := WalkInclude(fs, root, Clean(includes[i]).segments, excluded, counter);
    PackedMore(fs.nodes, root, includes, excluded, counts, volumes, i, limits, t1, counter.tally, outcome, packed,
               before, written, found);
    entries, rels := packed + written, before + found;
  }

  /** The first i include paths are packed. */
  ghost predicate PackedUpTo(t: Tree, root: Path, includes: seq<string>, excluded: Path -> bool, limits: Limits,
                             counts: seq<nat>, volumes: seq<nat>, i: nat, tally: Tally, entries: seq<Entry>,
                             rels: seq<Path>)
    requires i <= |includes| == |counts| == |volumes|
  {
    && Packed(t, root, includes, excluded, limits, Finished, tally, entries, rels)
    && (forall j | 0 <= j < i :: AllFound(t, root, excluded, Clean(includes[j]).segments, rels))
    && Whole(counts, volumes, i, entries)
  }

  lemma PackedMore(t: Tree, root: Path, includes: seq<string>, excluded: Path -> bool, counts: seq<nat>,
                   volumes: seq<nat>, i: nat, limits: Limits, t1: Tally, t2: Tally, outcome: Outcome,
                   entries: seq<Entry>, rels: seq<Path>, written: seq<Entry>, found: seq<Path>)
    requires i < |includes| && Measured(t, root, includes, excluded, counts, volumes)
    requires PackedUpTo(t, root, includes, excluded, limits, counts, volumes, i, t1, entries, rels)
    requires !Clean(includes[i]).rooted && Clean(includes[i]).segments != []
    requires Emitted(t, root, excluded, Clean(includes[i]).segments, limits, t1, outcome, t2, written, found)
    requires Distinct(found) && (outcome.Finished? ==> AllFound(t, root, excluded, Clean(includes[i]).segments, found))
    ensures Packed(t, root, includes, excluded, limits, outcome, t2, entries + written, rels + found)
    ensures Within(counts, volumes, |includes|, entries + written)
    ensures outcome.Finished? ==>
              PackedUpTo(t, root, includes, excluded, limits, counts, volumes, i + 1, t2, entries + written,
                         rels + found)
  {
    PackedThen(t, root, includes, excluded, i, limits, t1, t2, outcome, entries, rels, written, found);
    FoundMore(t, root, excluded, rels, found);
    WithinMore(t, root, includes, excluded, counts, volumes, i, entries, written, found);
    CutShort(counts, volumes, i + 1, entries + written);
  }

  /** One include path: a missing one has nothing to pack. */
  method WalkInclude(fs: FileSystem, root: Path, d: Path, excluded: Path -> bool, counter: Counter)
    returns (outcome: Outcome, entries: seq<Entry>, ghost found: seq<Path>)
    requires fs.Valid() && d != [] && RealWay(fs.nodes, root + d)
    modifies fs`ops, counter
    ensures Emitted(fs.nodes, root, excluded, d, counter.limits, old(counter.tally), outcome, counter.tally, entries,
                    found)
    ensures outcome.Finished? ==> AllFound(fs.nodes, root, excluded, d, found)
    ensures Distinct(found)
    ensures fs.Faults() >= old(fs.Faults()) && (outcome.IOFailed? ==> fs.Faults() > old(fs.Faults()))
  {
    var info := fs.Lstat(root + d);
    if info.StatFailed? {
      return IOFailed, [], [];
    }
    if info.Missing? {
      NothingToFind(fs.nodes, root, excluded, d);
      return Finished, [], [];
    }
    outcome, entries, found := Walk(fs, root, d, excluded, counter, HeightOf(fs.nodes));
  }

  ghost predicate Packed(t: Tree, root: Path, includes: seq<string>, excluded: Path -> bool, limits: Limits,
                         outcome: Outcome, after: Tally, entries: seq<Entry>, rels: seq<Path>)
  {
    && Listed(t, root, rels, entries)
    && (forall r <- rels :: Selected(t, root, includes, excluded, r))
    && (outcome.Finished? ==> CountAll(limits, ZERO, entries) == Some(after))
    && (outcome.Refused? ==> outcome.why == TooLarge && CountAll(limits, ZERO, entries) == None)
  }

  lemma FoundSelected(t: Tree, root: Path, includes: seq<string>, excluded: Path -> bool, i: nat, found: seq<Path>)
    requires i < |includes| && !Clean(includes[i]).rooted && Clean(includes[i]).segments != []
    requires AllWanted(t, root, excluded, Clean(includes[i]).segments, found)
    ensures forall r <- found :: Selected(t, root, includes, excluded, r)
  {
    assert IncludeDir(includes, Clean(includes[i]).segments);
  }

  lemma PackedThen(t: Tree, root: Path, includes: seq<string>, excluded: Path -> bool, i: nat, limits: Limits,
                   t1: Tally, t2: Tally, outcome: Outcome, entries: seq<Entry>, rels: seq<Path>, written: seq<Entry>,
                   found: seq<Path>)
    requires Packed(t, root, includes, excluded, limits, Finished, t1, entries, rels)
    requires i < |includes| && !Clean(includes[i]).rooted && Clean(includes[i]).segments != []
    requires Emitted(t, root, excluded, Clean(includes[i]).segments, limits, t1, outcome, t2, written, found)
    ensures Packed(t, root, includes, excluded, limits, outcome, t2, entries + written, rels + found)
  {
    CountAllConcat(limits, ZERO, entries, written);
    FoundSelected(t, root, includes, excluded, i, found);
    ListedConcat(t, root, rels, entries, found, written);
    assert forall r <- rels + found :: r in rels || r in found;
  }

  lemma ListedConcat(t: Tree, root: Path, rels: seq<Path>, entries: seq<Entry>, rels': seq<Path>, entries': seq<Entry>)
    requires Listed(t, root, rels, entries) && Listed(t, root, rels', entries')
    ensures Listed(t, root, rels + rels', entries + entries')
  {
    var both, all := rels + rels', entries + entries';
    forall i | 0 <= i < |both|
      ensures both[i] != [] && root + both[i] in t && !t[root + both[i]].Special?
      ensures all[i] == EntryOf(both[i], t[root + both[i]])
    {
      if i < |rels| {
        assert both[i] == rels[i] && all[i] == entries[i];
      } else {
        assert both[i] == rels'[i - |rels|] && all[i] == entries'[i - |rels|];
      }
    }
  }

  lemma NothingToFind(t: Tree, root: Path, excluded: Path -> bool, d: Path)
    requires WellFormed(t) && root + d !in t
    ensures AllFound(t, root, excluded, d, [])
  {
    forall r | d <= r
      ensures root + r !in t
    {
      if r != d {
        assert root + d < root + r;
        NothingBelow(t, root + d, root + r);
      }
    }
  }

  lemma FoundMore(t: Tree, root: Path, excluded: Path -> bool, rels: seq<Path>, found: seq<Path>)
    ensures forall d | AllFound(t, root, excluded, d, rels) || AllFound(t, root, excluded, d, found) ::
              AllFound(t, root, excluded, d, rels + found)
  {
  }

  lemma SelectionFound(t: Tree, root: Path, includes: seq<string>, excluded: Path -> bool, rels: seq<Path>)
    requires forall j | 0 <= j < |includes| :: AllFound(t, root, excluded, Clean(includes[j]).segments, rels)
    ensures forall r | Selected(t, root, includes, excluded, r) && r !in rels :: IsSpecial(t, root + r)
  {
    forall r | Selected(t, root, includes, excluded, r) && !IsSpecial(t, root + r)
      ensures r in rels
    {
      var d :| IncludeDir(includes, d) && Reached(excluded, d, r);
      assert Wanted(t, root, excluded, d, r);
    }
  }

  // ----- the round trip -----

  /** p is one of the packed paths or a directory on the way to one. */
  ghost predicate Kept(rels: seq<Path>, p: Path) {
    exists r <- rels :: p <= r
  }

  /** The tree u is e0 with the kept part of t below target. */
  ghost predicate Holds(t: Tree, root: Path, rels: seq<Path>, e0: Tree, target: Path, u: Tree) {
    forall q :: Get(u, q) == HeldAt(t, root, rels, e0, target, q)
  }

  ghost function HeldAt(t: Tree, root: Path, rels: seq<Path>, e0: Tree, target: Path, q: Path): Option<Node> {
    if target < q && Kept(rels, q[|target|..]) then Get(t, root + q[|target|..]) else Get(e0, q)
  }

  ghost predicate EmptyBelow(t: Tree, p: Path) {
    IsDir(t, p) && forall q | p < q :: q !in t
  }

  lemma KeptNode(t: Tree, root: Path, r: Path, p: Path)
    requires WellFormed(t) && root + r in t && p <= r
    ensures root + p in t && (p != r ==> t[root + p].Dir?)
  {
    if p != r {
      assert root + p < root + r;
      AncestorIsDir(t, root + r, root + p);
    }
  }

  lemma KeptOneMore(rels: seq<Path>, i: nat, p: Path)
    requires i < |rels|
    ensures Kept(rels[..i + 1], p) <==> Kept(rels[..i], p) || p <= rels[i]
  {
    var more := rels[..i + 1];
    assert more == rels[..i] + [rels[i]];
    if Kept(more, p) {
      var r :| r in more && p <= r;
      assert r in rels[..i] || r == rels[i];
    }
    if p <= rels[i] {
      assert rels[i] in more;
    }
    if Kept(rels[..i], p) {
      var r :| r in rels[..i] && p <= r;
      assert r in more;
    }
  }

  /** Whatever is there on the way to a packed path is the directory that was packed. */
  lemma WayIsClear(t: Tree, root: Path, rels: seq<Path>, i: nat, e0: Tree, target: Path, u: Tree, rel: Path)
    requires WellFormed(t) && i < |rels| && root + rels[i] in t
    requires EmptyBelow(e0, target) && Holds(t, root, rels[..i], e0, target, u)
    requires rel <= rels[i] && (rel == rels[i] ==> IsDir(t, root + rel))
    ensures CanDescend(u, target, rel)
  {
    forall k | 0 <= k <= |rel| && target + rel[..k] in u
      ensures u[target + rel[..k]].Dir?
    {
      var p := rel[..k];
      var q := target + p;
      assert p <= rels[i];
      assert Get(u, q) == HeldAt(t, root, rels[..i], e0, target, q);
      KeptNode(t, root, rels[i], p);
      if k == 0 {
        assert q == target;
      } else {
        assert target < q && q[|target|..] == p;
        if p == rels[i] {
          assert |rel| == |rels[i]| && p == rel;
        }
      }
    }
  }

  lemma EntryUnpacks(t: Tree, root: Path, rels: seq<Path>, i: nat, includes: seq<string>, e0: Tree, target: Path,
                     u: Tree)
    returns (u1: Tree)
    requires WellFormed(t) && i < |rels| && rels[i] != [] && root + rels[i] in t && !t[root + rels[i]].Special?
    requires Included(includes, rels[i])
    requires EmptyBelow(e0, target) && Holds(t, root, rels[..i], e0, target, u)
    ensures ExtractOne(u, target, includes, EntryOf(rels[i], t[root + rels[i]])) == Success(u1)
    ensures Holds(t, root, rels[..i + 1], e0, target, u1)
  {
    var rel := rels[i];
    var node := t[root + rel];
    HeaderReadsBack(t, root, rel);
    WayIsClear(t, root, rels, i, e0, target, u, Parent(rel));
    var made := WithDirs(u, target, Parent(rel));
    DirsHold(t, root, rels, i, e0, target, u);
    NoDirInPlace(t, root, rels, i, e0, target, u);
    if node.Dir? {
      WayIsClear(t, root, rels, i, e0, target, u, rel);
      LastDir(u, target, rel);
      u1 := WithDirs(made, target, rel);
    } else {
      u1 := made[target + rel := node];
    }
    EntryHolds(t, root, rels, i, e0, target, made, u1);
  }

  lemma HeaderReadsBack(t: Tree, root: Path, rel: Path)
    requires WellFormed(t) && rel != [] && root + rel in t && !t[root + rel].Special?
    ensures SafeRel(EntryOf(rel, t[root + rel]).name) == Some(rel)
  {
    assert CleanPath(root + rel);
    assert forall n <- rel :: n in root + rel;
    SafeRelReadsBack(rel);
  }

  /** Where a packed file or symlink goes, there is no directory. */
  lemma NoDirInPlace(t: Tree, root: Path, rels: seq<Path>, i: nat, e0: Tree, target: Path, u: Tree)
    requires i < |rels| && rels[i] != [] && root + rels[i] in t
    requires EmptyBelow(e0, target) && Holds(t, root, rels[..i], e0, target, u)
    ensures IsDir(WithDirs(u, target, Parent(rels[i])), target + rels[i]) ==> t[root + rels[i]].Dir?
  {
    var rel := rels[i];
    assert !(target + rel <= target + Parent(rel));
    WithDirsAt(u, target, Parent(rel), target + rel);
    assert Get(u, target + rel) == HeldAt(t, root, rels[..i], e0, target, target + rel);
    assert (target + rel)[|target|..] == rel;
  }

  /** Making the parents first and then the directory itself. */
  lemma LastDir(u: Tree, target: Path, rel: Path)
    requires rel != [] && CanDescend(u, target, rel)
    ensures var made := WithDirs(u, target, Parent(rel));
            && CanDescend(made, target, rel)
            && forall q :: Get(WithDirs(made, target, rel), q) == if q == target + rel then Some(Dir) else Get(made, q)
  {
    var made := WithDirs(u, target, Parent(rel));
    forall k | 0 <= k <= |rel| && target + rel[..k] in made
      ensures made[target + rel[..k]].Dir?
    {
      WithDirsAt(u, target, Parent(rel), target + rel[..k]);
      assert Get(made, target + rel[..k]).Some?;
    }
    forall q
      ensures Get(WithDirs(made, target, rel), q) == if q == target + rel then Some(Dir) else Get(made, q)
    {
      WithDirsAt(made, target, rel, q);
      WithDirsAt(u, target, Parent(rel), q);
      assert target + rel == target + Parent(rel) + [rel[|rel| - 1]];
      assert OnTheWay(target, rel, q) ==> q == target + rel || OnTheWay(target, Parent(rel), q);
    }
  }

  /** The directories that one entry needs are part of what is kept. */
  lemma DirsHold(t: Tree, root: Path, rels: seq<Path>, i: nat, e0: Tree, target: Path, u: Tree)
    requires WellFormed(t) && i < |rels| && rels[i] != [] && root + rels[i] in t
    requires EmptyBelow(e0, target) && Holds(t, root, rels[..i], e0, target, u)
    ensures var made := WithDirs(u, target, Parent(rels[i]));
            forall q | q != target + rels[i] :: Get(made, q) == HeldAt(t, root, rels[..i + 1], e0, target, q)
  {
    var rel := rels[i];
    var made := WithDirs(u, target, Parent(rel));
    forall q | q != target + rel
      ensures Get(made, q) == HeldAt(t, root, rels[..i + 1], e0, target, q)
    {
      WithDirsAt(u, target, Parent(rel), q);
      assert Get(u, q) == HeldAt(t, root, rels[..i], e0, target, q);
      if target < q {
        var p := q[|target|..];
        assert q == target + p;
        KeptOneMore(rels, i, p);
        assert OnTheWay(target, Parent(rel), q) <==> p <= Parent(rel);
        assert p <= rel && p != rel ==> p <= Parent(rel);
        assert p <= Parent(rel) ==> p <= rel;
        if p <= rel {
          KeptNode(t, root, rel, p);
        }
      } else if OnTheWay(target, Parent(rel), q) {
        assert q == target;
      }
    }
  }

  lemma EntryHolds(t: Tree, root: Path, rels: seq<Path>, i: nat, e0: Tree, target: Path, made: Tree, u1: Tree)
    requires i < |rels| && rels[i] != [] && root + rels[i] in t
    requires forall q | q != target + rels[i] :: Get(made, q) == HeldAt(t, root, rels[..i + 1], e0, target, q)
    requires forall q :: Get(u1, q) == if q == target + rels[i] then Some(t[root + rels[i]]) else Get(made, q)
    ensures Holds(t, root, rels[..i + 1], e0, target, u1)
  {
    assert (target + rels[i])[|target|..] == rels[i];
    KeptOneMore(rels, i, rels[i]);
  }

  lemma {:induction false} UnpacksFrom(t: Tree, root: Path, rels: seq<Path>, entries: seq<Entry>, i: nat,
                                       includes: seq<string>, limits: Limits, tally: Tally, e0: Tree, target: Path,
                                       u: Tree)
    requires WellFormed(t) && Listed(t, root, rels, entries) && i <= |rels|
    requires forall r <- rels :: Included(includes, r)
    requires CountAll(limits, tally, entries[i..]).Some?
    requires EmptyBelow(e0, target) && Holds(t, root, rels[..i], e0, target, u)
    ensures var result := Extract(u, target, includes, limits, tally, Stream(entries[i..], false));
            result.Success? && Holds(t, root, rels, e0, target, result.value)
    decreases |rels| - i
  {
    if i == |rels| {
      assert rels[..i] == rels;
    } else {
      var rest := Stream(entries[i..], false);
      assert rest.entries[0] == entries[i] && rest.entries[1..] == entries[i + 1..];
      assert rels[i] in rels;
      var u1 := EntryUnpacks(t, root, rels, i, includes, e0, target, u);
      var next := Added(limits, tally, EntrySize(entries[i]));
      UnpacksFrom(t, root, rels, entries, i + 1, includes, limits, next.value, e0, target, u1);
    }
  }

  /**
   * What Pack wrote under some limits, Unpack accepts under the same limits, and in an empty directory it makes exactly
   * the selected nodes with the directories on the way to them, each as it was. The entries may come in any order and
   * more than once.
   */
  lemma RoundTrip(t: Tree, root: Path, includes: seq<string>, excluded: Path -> bool, rels: seq<Path>,
                  entries: seq<Entry>, limits: Limits, e0: Tree, target: Path)
    requires WellFormed(t) && Listed(t, root, rels, entries)
    requires forall r <- rels :: Selected(t, root, includes, excluded, r)
    requires forall r | Selected(t, root, includes, excluded, r) && r !in rels :: IsSpecial(t, root + r)
    requires CountAll(limits, ZERO, entries).Some?
    requires EmptyBelow(e0, target)
    ensures var result := Extract(e0, target, includes, limits, ZERO, Stream(entries, false));
            && result.Success?
            && (forall p | p != [] :: Get(result.value, target + p) ==
                                      if InSelection(t, root, includes, excluded, p) then Get(t, root + p) else None)
            && (forall q | !(target < q) :: Get(result.value, q) == Get(e0, q))
  {
    forall r <- rels
      ensures Included(includes, r)
    {
      var d :| IncludeDir(includes, d) && Reached(excluded, d, r);
    }
    assert entries[0..] == entries;
    assert rels[..0] == [];
    UnpacksFrom(t, root, rels, entries, 0, includes, limits, ZERO, e0, target, e0);
    var result := Extract(e0, target, includes, limits, ZERO, Stream(entries, false));
    forall p | p != []
      ensures Get(result.value, target + p) ==
              if InSelection(t, root, includes, excluded, p) then Get(t, root + p) else None
    {
      var q := target + p;
      assert q[|target|..] == p;
      assert Get(result.value, q) == HeldAt(t, root, rels, e0, target, q);
      SelectionIsKept(t, root, includes, excluded, rels, p);
    }
    forall q | !(target < q)
      ensures Get(result.value, q) == Get(e0, q)
    {
      assert Get(result.value, q) == HeldAt(t, root, rels, e0, target, q);
    }
  }

  /** A selected node that an archive can carry, or a directory on the way to one. */
  ghost predicate InSelection(t: Tree, root: Path, includes: seq<string>, excluded: Path -> bool, p: Path) {
    exists r :: Selected(t, root, includes, excluded, r) && !IsSpecial(t, root + r) && p <= r
  }

  lemma SelectionIsKept(t: Tree, root: Path, includes: seq<string>, excluded: Path -> bool, rels: seq<Path>, p: Path)
    requires forall r <- rels :: Selected(t, root, includes, excluded, r) && !IsSpecial(t, root + r)
    requires forall r | Selected(t, root, includes, excluded, r) && r !in rels :: IsSpecial(t, root + r)
    ensures Kept(rels, p) <==> InSelection(t, root, includes, excluded, p)
  {
    if InSelection(t, root, includes, excluded, p) {
      var r :| Selected(t, root, includes, excluded, r) && !IsSpecial(t, root + r) && p <= r;
      assert r in rels;
    }
  }

  /**
   * Packing one tree and unpacking the archive into an empty directory of another: the selection and nothing else
   * arrives. Without failing operations the only way not to get there is a selection too large to be packed.
   */
  method CarryOver(from: FileSystem, root: Path, includes: seq<string>, excluded: Path -> bool, limits: Limits,
                   to: FileSystem, target: Path)
    returns (outcome: Outcome)
    requires from != to && from.Valid() && to.Valid() && PackableIncludes(from.nodes, root, includes)
    requires EmptyBelow(to.nodes, target)
    modifies from`ops, to
    ensures to.Valid()
    ensures outcome.Finished? ==>
              forall p | p != [] ::
                Get(to.nodes, target + p) ==
                if InSelection(from.nodes, root, includes, excluded, p) then Get(from.nodes, root + p) else None
    ensures outcome.Finished? ==> forall q | !(target < q) :: Get(to.nodes, q) == Get(old(to.nodes), q)
    ensures from.Faults() == old(from.Faults()) && to.Faults() == old(to.Faults()) ==>
              outcome.Finished? || (outcome == Refused(TooLarge) && to.nodes == old(to.nodes))
    ensures from.Faults() == old(from.Faults()) && to.Faults() == old(to.Faults()) && CountsWell(from.nodes, limits) ==>
              (outcome.Finished? <==> SelectionFits(from.nodes, root, includes, excluded, limits))
  {
    var entries;
    ghost var rels;
    outcome, entries, rels := Pack(from, root, includes, excluded, limits);
    if outcome.Finished? {
      RoundTrip(from.nodes, root, includes, excluded, rels, entries, limits, to.nodes, target);
      outcome := Unpack(to, target, includes, limits, Stream(entries, false));
    }
  }
}
