/** Packing a workspace into a list of archive entries and unpacking one (Pack, Unpack). */
module Archive {
  import opened Paths
  import opened FileTree
  import opened Wrappers

  /**
   * What one header and the data after it carry. `data` can be shorter than the declared `size` when the stream is cut.
   */
  datatype Kind =
    | DirEntry
    | RegEntry(size: nat, data: Bytes, perm: nat, mtime: int)
    | LinkEntry(target: string)
    | OtherEntry

  datatype Entry = Entry(name: string, kind: Kind)

  /** The decoded stream: its entries, and whether it ends with an error in place of the end marker. */
  datatype Stream = Stream(entries: seq<Entry>, broken: bool)

  datatype Refusal = TooLarge | UnsafeName | NotADirectory | DirectoryInPlace | BadStream

  datatype Outcome = Finished | Refused(why: Refusal) | IOFailed

  // ----- limits -----

  datatype Limits = Limits(bytes: int, entries: int)

  datatype Tally = Tally(entries: int, bytes: int)

  const ZERO := Tally(0, 0)

  const TWO_62 := 0x4000_0000_0000_0000
  const TWO_63 := 0x8000_0000_0000_0000
  const TWO_64 := 0x1_0000_0000_0000_0000

  /** The value of an int64 sum. */
  function Wrap64(x: int): int {
    (x + TWO_63) % TWO_64 - TWO_63
  }

  function Added(limits: Limits, t: Tally, size: int): Option<Tally> {
    if t.entries + 1 > limits.entries || Wrap64(t.bytes + size) > limits.bytes then None
    else Some(Tally(t.entries + 1, Wrap64(t.bytes + size)))
  }

  function EntrySize(e: Entry): nat {
    if e.kind.RegEntry? then e.kind.size else 0
  }

  function CountAll(limits: Limits, t: Tally, entries: seq<Entry>): Option<Tally>
    decreases |entries|
  {
    if entries == [] then Some(t)
    else
      match Added(limits, t, EntrySize(entries[0]))
      case None => None
      case Some(next) => CountAll(limits, next, entries[1..])
  }

  function TotalSize(entries: seq<Entry>): nat {
    if entries == [] then 0 else EntrySize(entries[0]) + TotalSize(entries[1..])
  }

  class Counter {
    const limits: Limits
    var tally: Tally

    constructor (limits: Limits)
      ensures this.limits == limits && tally == ZERO
    {
      this.limits := limits;
      tally := ZERO;
    }

    method Add(size: int) returns (ok: bool)
      modifies this
      ensures ok <==> Added(limits, old(tally), size).Some?
      ensures ok ==> Some(tally) == Added(limits, old(tally), size)
    {
      tally := tally.(entries := tally.entries + 1);
      if tally.entries > limits.entries {
        return false;
      }
      tally := tally.(bytes := Wrap64(tally.bytes + size));
      ok := tally.bytes <= limits.bytes;
    }
  }

  lemma {:induction false} CountAllConcat(limits: Limits, t: Tally, a: seq<Entry>, b: seq<Entry>)
    ensures CountAll(limits, t, a + b) ==
            match CountAll(limits, t, a)
            case None => None
            case Some(mid) => CountAll(limits, mid, b)
    decreases |a|
  {
    if a == [] {
      assert a + b == b;
    } else {
      assert (a + b)[1..] == a[1..] + b;
      match Added(limits, t, EntrySize(a[0])) {
        case None =>
        case Some(next) => CountAllConcat(limits, next, a[1..], b);
      }
    }
  }

  lemma CountAllOne(limits: Limits, t: Tally, e: Entry)
    ensures CountAll(limits, t, [e]) == Added(limits, t, EntrySize(e))
  {
    match Added(limits, t, EntrySize(e)) {
      case None =>
      case Some(next) => assert CountAll(limits, next, [e][1..]) == Some(next);
    }
  }

  /** So many entries, so many bytes, as the error texts of the counter say. */
  predicate Fits(limits: Limits, t: Tally, entries: seq<Entry>) {
    t.entries + |entries| <= limits.entries && t.bytes + TotalSize(entries) <= limits.bytes
  }

  ghost predicate SizesBelow(entries: seq<Entry>, bound: nat) {
    forall e <- entries :: EntrySize(e) < bound
  }

  /**
   * The largest sum that the counter can have accepted when the last entry it has room for comes, each below the bound.
   */
  function BeforeLast(limits: Limits, t: Tally, bound: nat): int {
    var room := t.bytes + (limits.entries - t.entries - 1) * (bound - 1);
    if room < limits.bytes then room else limits.bytes
  }

  /** No list of entries below the bound takes an int64 sum out of its range before it is refused. */
  predicate NeverWraps(limits: Limits, t: Tally, bound: nat) {
    limits.entries <= t.entries || bound == 0 || BeforeLast(limits, t, bound) + bound - 1 < TWO_63
  }

  predicate ValidTally(limits: Limits, t: Tally) {
    0 <= t.bytes <= limits.bytes < TWO_63 && 0 <= t.entries <= limits.entries
  }

  lemma NextNeverWraps(limits: Limits, t: Tally, size: nat, bound: nat)
    requires ValidTally(limits, t) && NeverWraps(limits, t, bound) && size < bound && t.entries < limits.entries
    ensures Wrap64(t.bytes + size) == t.bytes + size
    ensures NeverWraps(limits, Tally(t.entries + 1, t.bytes + size), bound)
  {
    var left, most := limits.entries - t.entries - 1, bound - 1;
    assert left * most >= 0;
    assert left > 0 ==> left * most == most + (left - 1) * most;
  }

  /** Where it never wraps, the counter means what its error texts say. */
  lemma {:induction false} CountAllMeaning(limits: Limits, t: Tally, entries: seq<Entry>, bound: nat)
    requires ValidTally(limits, t) && SizesBelow(entries, bound) && NeverWraps(limits, t, bound)
    ensures CountAll(limits, t, entries).Some? <==> Fits(limits, t, entries)
    decreases |entries|
  {
    if entries != [] {
      assert entries[0] in entries;
      var size := EntrySize(entries[0]);
      assert forall e <- entries[1..] :: e in entries;
      if t.entries < limits.entries {
        NextNeverWraps(limits, t, size, bound);
        match Added(limits, t, size) {
          case None =>
          case Some(next) => CountAllMeaning(limits, next, entries[1..], bound);
        }
      }
    }
  }

  /** It means that for every list whose entries are below 2^63 minus the limit, however many there may be. */
  lemma SmallEntriesNeverWrap(limits: Limits, t: Tally)
    requires ValidTally(limits, t)
    ensures NeverWraps(limits, t, TWO_63 - limits.bytes)
  {
  }

  /** The counter accepts exactly the lists that fit, among those with all entries below the bound. */
  ghost predicate Exact(limits: Limits, bound: nat) {
    forall entries | SizesBelow(entries, bound) ::
      CountAll(limits, ZERO, entries).Some? <==> Fits(limits, ZERO, entries)
  }

  /** A list of entries of at most `most` bytes each that come to the total. */
  function Filling(total: nat, most: nat): seq<Entry>
    requires most > 0
  {
    if total == 0 then [] else if total <= most then [Sized(total)] else [Sized(most)] + Filling(total - most, most)
  }

  function Sized(size: nat): Entry {
    Entry("x", RegEntry(size, [], 0, 0))
  }

  lemma OneFewer(total: nat, most: nat, count: nat)
    requires 0 < total <= count * most
    ensures count > 0 && (if total <= most then 0 else total - most) <= (count - 1) * most
  {
    assert count > 0;
    assert count * most == most + (count - 1) * most;
    assert (count - 1) * most >= 0;
  }

  lemma FillingNext(total: nat, most: nat)
    requires most > 0 && total > 0
    ensures var size := if total <= most then total else most;
            Filling(total, most) == [Sized(size)] + Filling(total - size, most)
  {
    assert Filling(0, most) == [];
  }

  lemma {:induction false} FillingSizes(total: nat, most: nat)
    requires most > 0
    ensures SizesBelow(Filling(total, most), most + 1) && TotalSize(Filling(total, most)) == total
    decreases total
  {
    if total > 0 {
      var size := if total <= most then total else most;
      var rest := Filling(total - size, most);
      FillingNext(total, most);
      FillingSizes(total - size, most);
      assert ([Sized(size)] + rest)[1..] == rest;
    }
  }

  lemma {:induction false} FillingLength(total: nat, most: nat, count: nat)
    requires most > 0 && total <= count * most
    ensures |Filling(total, most)| <= count
    decreases total
  {
    if total > 0 {
      OneFewer(total, most, count);
      FillingNext(total, most);
      FillingLength(if total <= most then 0 else total - most, most, count - 1);
    }
  }

  lemma AddedWithin(limits: Limits, t: Tally, size: nat)
    requires ValidTally(limits, t) && t.entries < limits.entries && t.bytes + size <= limits.bytes
    ensures Added(limits, t, size) == Some(Tally(t.entries + 1, t.bytes + size))
  {
  }

  lemma {:induction false} FillingFits(limits: Limits, t: Tally, total: nat, most: nat)
    requires ValidTally(limits, t) && most > 0
    requires t.entries + |Filling(total, most)| <= limits.entries && t.bytes + total <= limits.bytes
    ensures CountAll(limits, t, Filling(total, most)) ==
            Some(Tally(t.entries + |Filling(total, most)|, t.bytes + total))
    decreases total
  {
    if total > 0 {
      var size := if total <= most then total else most;
      var rest := Filling(total - size, most);
      FillingNext(total, most);
      AddedWithin(limits, t, size);
      FillingFits(limits, Tally(t.entries + 1, t.bytes + size), total - size, most);
      assert ([Sized(size)] + rest)[1..] == rest;
    }
  }

  lemma {:induction false} TotalSizeConcat(a: seq<Entry>, b: seq<Entry>)
    ensures TotalSize(a + b) == TotalSize(a) + TotalSize(b)
  {
    if a == [] {
      assert a + b == b;
    } else {
      assert (a + b)[1..] == a[1..] + b;
      TotalSizeConcat(a[1..], b);
    }
  }

  /** One entry more that takes the sum out of the int64 range is accepted, for the sum is negative then. */
  lemma WrapIsAccepted(limits: Limits, front: seq<Entry>, size: nat)
    requires 0 <= limits.bytes < TWO_63 && size < TWO_63 && |front| < limits.entries
    requires CountAll(limits, ZERO, front) == Some(Tally(|front|, TotalSize(front)))
    requires TWO_63 <= TotalSize(front) + size < TWO_64
    ensures CountAll(limits, ZERO, front + [Sized(size)]).Some? && !Fits(limits, ZERO, front + [Sized(size)])
  {
    CountAllConcat(limits, ZERO, front, [Sized(size)]);
    CountAllOne(limits, Tally(|front|, TotalSize(front)), Sized(size));
    TotalSizeConcat(front, [Sized(size)]);
    assert TotalSize([Sized(size)]) == size + TotalSize([Sized(size)][1..]);
  }

  /** At the boundary two entries suffice: together they have 2^63 bytes, and they are accepted. */
  lemma TwoEntriesWrap(limits: Limits, n: nat)
    requires 0 < n <= limits.bytes < TWO_63 && limits.entries >= 2
    ensures var entries := [Sized(n)] + [Sized(TWO_63 - n)];
            TotalSize(entries) == TWO_63 > limits.bytes && CountAll(limits, ZERO, entries).Some?
  {
    CountAllOne(limits, ZERO, Sized(n));
    assert TotalSize([Sized(n)]) == n + TotalSize([Sized(n)][1..]);
    WrapIsAccepted(limits, [Sized(n)], TWO_63 - n);
    TotalSizeConcat([Sized(n)], [Sized(TWO_63 - n)]);
    assert TotalSize([Sized(TWO_63 - n)]) == TWO_63 - n + TotalSize([Sized(TWO_63 - n)][1..]);
  }

  /**
   * Exactly when the counter means what its error texts say for all entries below a bound: when it can never wrap, a
   * matter of the two limits and the bound alone.
   */
  lemma CounterIsExact(limits: Limits, bound: nat)
    requires ValidTally(limits, ZERO) && bound <= TWO_63
    ensures Exact(limits, bound) <==> NeverWraps(limits, ZERO, bound)
  {
    if NeverWraps(limits, ZERO, bound) {
      forall entries | SizesBelow(entries, bound)
        ensures CountAll(limits, ZERO, entries).Some? <==> Fits(limits, ZERO, entries)
      {
        CountAllMeaning(limits, ZERO, entries, bound);
      }
    } else {
      var most, total := bound - 1, BeforeLast(limits, ZERO, bound);
      assert (limits.entries - 1) * most >= 0;
      assert most > 0;
      FillingSizes(total, most);
      FillingLength(total, most, limits.entries - 1);
      FillingFits(limits, ZERO, total, most);
      var front := Filling(total, most);
      WrapIsAccepted(limits, front, most);
      assert SizesBelow(front + [Sized(most)], bound);
    }
  }

  // ----- include lists -----

  /** d is the cleaned form of one of the include paths. */
  predicate IncludeDir(includes: seq<string>, d: Path) {
    d != [] && exists i | 0 <= i < |includes| :: Clean(includes[i]) == Cleaned(false, d)
  }

  /** The path equals an include path or lies below one. */
  predicate Included(includes: seq<string>, rel: Path) {
    exists i | 0 <= i < |includes| ::
      var dir := Clean(includes[i]);
      !dir.rooted && dir.segments != [] && dir.segments <= rel
  }

  ghost predicate LeadsToInclude(includes: seq<string>, p: Path) {
    exists d :: IncludeDir(includes, d) && p < d
  }

  // ----- directories on the way -----

  predicate OnTheWay(root: Path, rel: Path, q: Path) {
    root <= q && q <= root + rel
  }

  function Ways(root: Path, rel: Path): set<Path> {
    set k | 0 <= k <= |rel| :: root + rel[..k]
  }

  /** The tree with every directory from root down to rel present. */
  function WithDirs(t: Tree, root: Path, rel: Path): Tree {
    t + map q | q in Ways(root, rel) :: Dir
  }

  /** Nothing on the way from root to rel is anything but a directory. */
  predicate CanDescend(t: Tree, root: Path, rel: Path) {
    forall k | 0 <= k <= |rel| :: root + rel[..k] in t ==> t[root + rel[..k]].Dir?
  }

  lemma WithDirsAt(t: Tree, root: Path, rel: Path, q: Path)
    ensures Get(WithDirs(t, root, rel), q) == if OnTheWay(root, rel, q) then Some(Dir) else Get(t, q)
  {
    if OnTheWay(root, rel, q) {
      var k := |q| - |root|;
      assert q == (root + rel)[..|q|];
      assert q == root + rel[..k];
    }
    forall k | 0 <= k <= |rel|
      ensures OnTheWay(root, rel, root + rel[..k])
    {
      assert root + rel == root + rel[..k] + rel[k..];
    }
  }

  // ----- what unpacking means -----

  function NodeOf(kind: Kind): Node
    requires kind.RegEntry? || kind.LinkEntry?
  {
    if kind.RegEntry? then File(kind.data, kind.perm, kind.mtime) else Symlink(kind.target)
  }

  function ExtractOne(t: Tree, root: Path, includes: seq<string>, e: Entry): Result<Tree, Refusal> {
    match SafeRel(e.name)
    case None => Failure(UnsafeName)
    case Some(rel) =>
      if !Included(includes, rel) then Success(t)
      else if rel == [] || !CanDescend(t, root, Parent(rel)) then Failure(NotADirectory)
      else ExtractNode(WithDirs(t, root, Parent(rel)), root, rel, e.kind)
  }

  function ExtractNode(t: Tree, root: Path, rel: Path, kind: Kind): Result<Tree, Refusal> {
    match kind
    case DirEntry => if CanDescend(t, root, rel) then Success(WithDirs(t, root, rel)) else Failure(NotADirectory)
    case OtherEntry => Success(t)
    case _ =>
      if IsDir(t, root + rel) then Failure(DirectoryInPlace)
      else if kind.RegEntry? && |kind.data| < kind.size then Failure(BadStream)
      else Success(t[root + rel := NodeOf(kind)])
  }

  function Extract(t: Tree, root: Path, includes: seq<string>, limits: Limits, tally: Tally, stream: Stream)
    : Result<Tree, Refusal>
    decreases |stream.entries|
  {
    if stream.entries == [] then if stream.broken then Failure(BadStream) else Success(t)
    else
      var e := stream.entries[0];
      match Added(limits, tally, EntrySize(e))
      case None => Failure(TooLarge)
      case Some(next) =>
        match ExtractOne(t, root, includes, e)
        case Failure(why) => Failure(why)
        case Success(t1) => Extract(t1, root, includes, limits, next, stream.(entries := stream.entries[1..]))
  }

  // ----- what unpacking means, entry by entry -----

  /** What an included entry puts at q: its node at its own path, and directories on the way there. */
  function Writes(root: Path, includes: seq<string>, e: Entry, q: Path): Option<Node> {
    match SafeRel(e.name)
    case None => None
    case Some(rel) =>
      if !Included(includes, rel) || !OnTheWay(root, rel, q) then None
      else if q != root + rel || e.kind.DirEntry? then Some(Dir)
      else if e.kind.OtherEntry? then None
      else Some(NodeOf(e.kind))
  }

  /** What is at q after the first n entries: what the last of them that writes there put, or what was there before. */
  function LeftBy(t: Tree, root: Path, includes: seq<string>, entries: seq<Entry>, n: nat, q: Path): Option<Node>
    requires n <= |entries|
  {
    if n == 0 then Get(t, q)
    else if Writes(root, includes, entries[n - 1], q).Some? then Writes(root, includes, entries[n - 1], q)
    else LeftBy(t, root, includes, entries, n - 1, q)
  }

  /**
   * The entry can be unpacked over what `left` says: its name is safe and, if it is included, only directories are on
   * its way, no directory is in the place of a file or symlink, and a file has all its data.
   */
  ghost predicate Goes(root: Path, includes: seq<string>, e: Entry, left: Path -> Option<Node>) {
    && SafeRel(e.name).Some?
    && var rel := SafeRel(e.name).value;
       Included(includes, rel) ==>
         && (forall q | OnTheWay(root, rel, q) && q != root + rel :: left(q).None? || left(q) == Some(Dir))
         && (e.kind.DirEntry? ==> left(root + rel).None? || left(root + rel) == Some(Dir))
         && (e.kind.RegEntry? || e.kind.LinkEntry? ==> left(root + rel) != Some(Dir))
         && (e.kind.RegEntry? ==> |e.kind.data| >= e.kind.size)
  }

  ghost predicate GoesAt(t: Tree, root: Path, includes: seq<string>, entries: seq<Entry>, j: nat)
    requires j < |entries|
  {
    Goes(root, includes, entries[j], q => LeftBy(t, root, includes, entries, j, q))
  }

  /** The stream is whole, the limits hold, and every entry can be unpacked over what those before it left. */
  ghost predicate Unpackable(t: Tree, root: Path, includes: seq<string>, limits: Limits, stream: Stream) {
    && !stream.broken
    && CountAll(limits, ZERO, stream.entries).Some?
    && forall j | 0 <= j < |stream.entries| :: GoesAt(t, root, includes, stream.entries, j)
  }

  lemma DescendMeaning(t: Tree, root: Path, rel: Path)
    ensures CanDescend(t, root, rel) <==> forall q | OnTheWay(root, rel, q) :: q !in t || t[q].Dir?
  {
    forall k | 0 <= k <= |rel|
      ensures OnTheWay(root, rel, root + rel[..k])
    {
      assert root + rel == root + rel[..k] + rel[k..];
    }
    forall q | OnTheWay(root, rel, q)
      ensures q == root + rel[..|q| - |root|]
    {
      assert q == (root + rel)[..|q|];
    }
  }

  lemma OnTheWayToParent(root: Path, rel: Path, q: Path)
    requires rel != []
    ensures OnTheWay(root, rel, q) <==> OnTheWay(root, Parent(rel), q) || q == root + rel
    ensures OnTheWay(root, Parent(rel), q) ==> q != root + rel
  {
    assert root + rel == root + Parent(rel) + [rel[|rel| - 1]];
  }

  /**
   * One entry: it is unpacked exactly when it can be, and then it leaves what it writes and everything else as it was.
   */
  lemma ExtractOneMeaning(t: Tree, root: Path, includes: seq<string>, e: Entry, left: Path -> Option<Node>)
    requires forall q :: Get(t, q) == left(q)
    ensures ExtractOne(t, root, includes, e).Success? <==> Goes(root, includes, e, left)
    ensures ExtractOne(t, root, includes, e).Success? ==>
              forall q :: Get(ExtractOne(t, root, includes, e).value, q) ==
                          if Writes(root, includes, e, q).Some? then Writes(root, includes, e, q) else Get(t, q)
  {
    SafeRelAccepts(e.name);
    if SafeRel(e.name).Some? && Included(includes, SafeRel(e.name).value) {
      var rel := SafeRel(e.name).value;
      DescendMeaning(t, root, Parent(rel));
      forall q
        ensures OnTheWay(root, rel, q) && q != root + rel <==> OnTheWay(root, Parent(rel), q)
      {
        OnTheWayToParent(root, rel, q);
      }
      assert forall q :: (left(q).None? || left(q) == Some(Dir)) <==> (q !in t || t[q].Dir?);
      if CanDescend(t, root, Parent(rel)) {
        ExtractNodeMeaning(t, root, includes, rel, e);
      }
    }
  }

  /** The tree once the parents of an entry are made, and once its own directory is. */
  lemma MadeParents(t: Tree, root: Path, rel: Path)
    requires rel != [] && CanDescend(t, root, Parent(rel))
    ensures var made := WithDirs(t, root, Parent(rel));
            && (forall q :: Get(made, q) == if OnTheWay(root, rel, q) && q != root + rel then Some(Dir) else Get(t, q))
            && (forall q ::
                  Get(WithDirs(made, root, rel), q) == if OnTheWay(root, rel, q) then Some(Dir) else Get(t, q))
            && Get(made, root + rel) == Get(t, root + rel)
            && (CanDescend(made, root, rel) <==> root + rel !in t || t[root + rel].Dir?)
  {
    var made := WithDirs(t, root, Parent(rel));
    forall q
      ensures Get(made, q) == if OnTheWay(root, rel, q) && q != root + rel then Some(Dir) else Get(t, q)
      ensures Get(WithDirs(made, root, rel), q) == if OnTheWay(root, rel, q) then Some(Dir) else Get(t, q)
    {
      WithDirsAt(t, root, Parent(rel), q);
      WithDirsAt(made, root, rel, q);
      OnTheWayToParent(root, rel, q);
    }
    assert OnTheWay(root, rel, root + rel);
    assert Get(made, root + rel) == Get(t, root + rel);
    DescendMeaning(made, root, rel);
    forall q | OnTheWay(root, rel, q) && q != root + rel
      ensures q in made && made[q].Dir?
    {
      assert Get(made, q) == Some(Dir);
    }
  }

  lemma ExtractNodeMeaning(t: Tree, root: Path, includes: seq<string>, rel: Path, e: Entry)
    requires SafeRel(e.name) == Some(rel) && rel != [] && Included(includes, rel) && CanDescend(t, root, Parent(rel))
    ensures var result := ExtractNode(WithDirs(t, root, Parent(rel)), root, rel, e.kind);
            && (result.Success? <==>
                && (e.kind.DirEntry? ==> root + rel !in t || t[root + rel].Dir?)
                && (e.kind.RegEntry? || e.kind.LinkEntry? ==> !IsDir(t, root + rel))
                && (e.kind.RegEntry? ==> |e.kind.data| >= e.kind.size))
            && (result.Success? ==>
                forall q :: Get(result.value, q) ==
                            if Writes(root, includes, e, q).Some? then Writes(root, includes, e, q) else Get(t, q))
  {
    MadeParents(t, root, rel);
    assert OnTheWay(root, rel, root + rel);
  }

  /**
   * What unpacking a stream comes to, for every stream: it succeeds exactly when the stream can be unpacked, and then
   * every place has what the last entry that writes there put, or is as it was.
   */
  lemma ExtractMeaning(t: Tree, root: Path, includes: seq<string>, limits: Limits, stream: Stream)
    ensures var result := Extract(t, root, includes, limits, ZERO, stream);
            && (result.Success? <==> Unpackable(t, root, includes, limits, stream))
            && (result.Success? ==>
                forall q :: Get(result.value, q) == LeftBy(t, root, includes, stream.entries, |stream.entries|, q))
  {
    assert stream.entries[0..] == stream.entries;
    ExtractFrom(t, root, includes, limits, ZERO, stream, 0, t);
  }

  lemma {:induction false} ExtractFrom(t: Tree, root: Path, includes: seq<string>, limits: Limits, tally: Tally,
                                       stream: Stream, i: nat, now: Tree)
    requires i <= |stream.entries|
    requires forall q :: Get(now, q) == LeftBy(t, root, includes, stream.entries, i, q)
    ensures var result := Extract(now, root, includes, limits, tally, stream.(entries := stream.entries[i..]));
            var n := |stream.entries|;
            && (result.Success? <==>
                && !stream.broken
                && CountAll(limits, tally, stream.entries[i..]).Some?
                && forall j | i <= j < n :: GoesAt(t, root, includes, stream.entries, j))
            && (result.Success? ==> forall q :: Get(result.value, q) == LeftBy(t, root, includes, stream.entries, n, q))
    decreases |stream.entries| - i
  {
    if i < |stream.entries| {
      var rest := stream.(entries := stream.entries[i..]);
      assert rest.entries[0] == stream.entries[i] && rest.entries[1..] == stream.entries[i + 1..];
      ExtractOneMeaning(now, root, includes, stream.entries[i], q => LeftBy(t, root, includes, stream.entries, i, q));
      var next := Added(limits, tally, EntrySize(stream.entries[i]));
      var one := ExtractOne(now, root, includes, stream.entries[i]);
      assert GoesAt(t, root, includes, stream.entries, i) <==> one.Success?;
      if next.Some? && one.Success? {
        ExtractFrom(t, root, includes, limits, next.value, stream, i + 1, one.value);
      }
    }
  }

  // ----- what unpacking leaves alone -----

  /** q may change: it is under an include path, or it was free and became a directory on the way to one. */
  ghost predicate MayChange(before: Tree, after: Tree, root: Path, includes: seq<string>, q: Path) {
    && root < q
    && (|| Included(includes, q[|root|..])
        || (LeadsToInclude(includes, q[|root|..]) && q !in before && IsDir(after, q)))
  }

  ghost predicate Framed(before: Tree, after: Tree, root: Path, includes: seq<string>) {
    forall q :: Get(after, q) == Get(before, q) || MayChange(before, after, root, includes, q)
  }

  lemma FramedTransitive(t0: Tree, t1: Tree, t2: Tree, root: Path, includes: seq<string>)
    requires Framed(t0, t1, root, includes) && Framed(t1, t2, root, includes)
    ensures Framed(t0, t2, root, includes)
  {
    forall q
      ensures Get(t2, q) == Get(t0, q) || MayChange(t0, t2, root, includes, q)
    {
      assert Get(t1, q) == Get(t0, q) || MayChange(t0, t1, root, includes, q);
      assert Get(t2, q) == Get(t1, q) || MayChange(t1, t2, root, includes, q);
    }
  }

  /** New directories on the way to an included path are allowed changes. */
  lemma NewDirsAllowed(before: Tree, after: Tree, root: Path, includes: seq<string>, rel: Path, q: Path)
    requires Included(includes, rel)
    requires root < q && q <= root + rel && q !in before && IsDir(after, q)
    ensures MayChange(before, after, root, includes, q)
  {
    var p := q[|root|..];
    assert p == (root + rel)[..|q|][|root|..] == rel[..|p|];
    var i :| 0 <= i < |includes| && !Clean(includes[i]).rooted && Clean(includes[i]).segments != [] &&
             Clean(includes[i]).segments <= rel;
    var d := Clean(includes[i]).segments;
    assert IncludeDir(includes, d);
    PrefixesCompare(p, d, rel);
    if d <= p {
      assert Included(includes, p);
    } else {
      assert p < d;
    }
  }

  // ----- unpacking -----

  /** mkdirInside: the directories from root down to rel, made one by one. */
  method MkdirInside(fs: FileSystem, root: Path, rel: Path) returns (outcome: Outcome)
    requires fs.Valid() && IsDir(fs.nodes, root) && CleanPath(rel)
    modifies fs
    ensures fs.Valid()
    ensures forall q :: Get(fs.nodes, q) == Get(old(fs.nodes), q) ||
                        (root < q && q <= root + rel && q !in old(fs.nodes) && IsDir(fs.nodes, q))
    ensures outcome.Finished? ==> CanDescend(old(fs.nodes), root, rel) && fs.nodes == WithDirs(old(fs.nodes), root, rel)
    ensures outcome.Refused? ==> outcome.why == NotADirectory && !CanDescend(old(fs.nodes), root, rel)
    ensures fs.Faults() >= old(fs.Faults()) && (outcome.IOFailed? ==> fs.Faults() > old(fs.Faults()))
  {
    ghost var before := fs.nodes;
    WithDirsEmpty(before, root);
    assert root + [] == root && rel[..0] == [];
    for k := 0 to |rel|
      invariant fs.Faults() >= old(fs.Faults())
      invariant fs.Valid() && IsDir(fs.nodes, root + rel[..k])
      invariant CanDescend(before, root, rel[..k]) && fs.nodes == WithDirs(before, root, rel[..k])
    {
      MadeDirs(before, root, rel, k);
      outcome := MkdirStep(fs, root, rel, k, before);
      if !outcome.Finished? {
        return;
      }
    }
    assert rel[..|rel|] == rel;
    MadeDirs(before, root, rel, |rel|);
    outcome := Finished;
  }

  /** The body of the loop: one part of the path. */
  method MkdirStep(fs: FileSystem, root: Path, rel: Path, k: nat, ghost before: Tree) returns (outcome: Outcome)
    requires fs.Valid() && k < |rel| && CleanPath(rel) && IsDir(fs.nodes, root + rel[..k])
    requires CanDescend(before, root, rel[..k]) && fs.nodes == WithDirs(before, root, rel[..k])
    modifies fs
    ensures fs.Valid()
    ensures if outcome.Finished? then fs.nodes == WithDirs(before, root, rel[..k + 1]) else fs.nodes == old(fs.nodes)
    ensures outcome.Finished? ==> CanDescend(before, root, rel[..k + 1]) && IsDir(fs.nodes, root + rel[..k + 1])
    ensures outcome.Refused? ==> outcome.why == NotADirectory && !CanDescend(before, root, rel)
    ensures fs.Faults() >= old(fs.Faults()) && (outcome.IOFailed? ==> fs.Faults() > old(fs.Faults()))
  {
    var current := root + rel[..k + 1];
    NextDir(fs.nodes, root, rel, k);
    WithDirsStep(before, root, rel, k);
    var info := fs.Lstat(current);
    match info {
      case StatFailed => outcome := IOFailed;
      case Missing =>
        var ok := fs.Mkdir(current);
        outcome := if ok then Finished else IOFailed;
      case Found(node) =>
        assert fs.nodes[current := node] == fs.nodes;
        outcome := if node.Dir? then Finished else Refused(NotADirectory);
    }
  }

  lemma NextDir(t: Tree, root: Path, rel: Path, k: nat)
    requires WellFormed(t) && k < |rel| && CleanPath(rel) && IsDir(t, root + rel[..k])
    ensures var current := root + rel[..k + 1];
            current != [] && Parent(current) == root + rel[..k] && CleanPath(current) && RealWay(t, current)
  {
    var current := root + rel[..k + 1];
    assert current == root + rel[..k] + [rel[k]];
    assert CleanPath(root + rel[..k]) && rel[k] in rel;
    RealWayInDir(t, current);
  }

  lemma WithDirsEmpty(t: Tree, root: Path)
    requires IsDir(t, root)
    ensures WithDirs(t, root, []) == t && CanDescend(t, root, [])
  {
    forall q
      ensures Get(WithDirs(t, root, []), q) == Get(t, q)
    {
      WithDirsAt(t, root, [], q);
      if OnTheWay(root, [], q) {
        assert q == root;
      }
    }
    assert root + [][..0] == root;
    SameTree(WithDirs(t, root, []), t);
  }

  lemma SameTree(a: Tree, b: Tree)
    requires forall q :: Get(a, q) == Get(b, q)
    ensures a == b
  {
    assert forall q :: q in a <==> Get(a, q).Some?;
    assert forall q :: q in b <==> Get(b, q).Some?;
    assert a.Keys == b.Keys;
    forall q | q in a
      ensures a[q] == b[q]
    {
      assert Get(a, q) == Some(a[q]);
    }
  }

  /** One directory further down. */
  lemma WithDirsStep(t: Tree, root: Path, rel: Path, k: nat)
    requires k < |rel| && CanDescend(t, root, rel[..k])
    ensures var current := root + rel[..k + 1];
            && Get(WithDirs(t, root, rel[..k]), current) == Get(t, current)
            && (CanDescend(t, root, rel[..k + 1]) <==> current !in t || t[current].Dir?)
            && WithDirs(t, root, rel[..k + 1]) == WithDirs(t, root, rel[..k])[current := Dir]
  {
    var current := root + rel[..k + 1];
    WithDirsAt(t, root, rel[..k], current);
    DescendStep(t, root, rel, k);
    var further, updated := WithDirs(t, root, rel[..k + 1]), WithDirs(t, root, rel[..k])[current := Dir];
    forall q
      ensures Get(further, q) == Get(updated, q)
    {
      WithDirsAt(t, root, rel[..k], q);
      WithDirsAt(t, root, rel[..k + 1], q);
      OnTheWayStep(root, rel, k, q);
    }
    SameTree(further, updated);
  }

  lemma DescendStep(t: Tree, root: Path, rel: Path, k: nat)
    requires k < |rel| && CanDescend(t, root, rel[..k])
    ensures CanDescend(t, root, rel[..k + 1]) <==>
              root + rel[..k + 1] !in t || t[root + rel[..k + 1]].Dir?
  {
    var next := rel[..k + 1];
    assert root + next[..k + 1] == root + next;
    forall j | 0 <= j <= k
      ensures root + next[..j] in t ==> t[root + next[..j]].Dir?
    {
      assert root + next[..j] == root + rel[..k][..j];
    }
  }

  lemma OnTheWayStep(root: Path, rel: Path, k: nat, q: Path)
    requires k < |rel|
    ensures OnTheWay(root, rel[..k + 1], q) <==> OnTheWay(root, rel[..k], q) || q == root + rel[..k + 1]
  {
    assert root + rel[..k + 1] == root + rel[..k] + [rel[k]];
  }

  lemma MadeDirs(t: Tree, root: Path, rel: Path, k: nat)
    requires k <= |rel| && IsDir(t, root) && CanDescend(t, root, rel[..k])
    ensures var made := WithDirs(t, root, rel[..k]);
            forall q :: Get(made, q) == Get(t, q) || (root < q && q <= root + rel && q !in t && IsDir(made, q))
  {
    var made := WithDirs(t, root, rel[..k]);
    forall q
      ensures Get(made, q) == Get(t, q) || (root < q && q <= root + rel && q !in t && IsDir(made, q))
    {
      WithDirsAt(t, root, rel[..k], q);
      if OnTheWay(root, rel[..k], q) {
        var j := |q| - |root|;
        assert q == (root + rel[..k])[..|q|];
        assert q == root + rel[..k][..j];
        assert root + rel == root + rel[..k] + rel[k..];
      }
    }
  }

  /** replace: make room for a file or a symlink, unless a directory is in the way. */
  method Replace(fs: FileSystem, target: Path) returns (outcome: Outcome)
    requires fs.Valid() && target != [] && IsDir(fs.nodes, Parent(target))
    modifies fs
    ensures fs.Valid() && IsDir(fs.nodes, Parent(target))
    ensures forall q | q != target :: Get(fs.nodes, q) == Get(old(fs.nodes), q)
    ensures outcome.Finished? ==> !IsDir(old(fs.nodes), target) && fs.nodes == old(fs.nodes) - {target}
    ensures outcome.Refused? ==> outcome.why == DirectoryInPlace && IsDir(old(fs.nodes), target)
    ensures fs.Faults() >= old(fs.Faults()) && (outcome.IOFailed? ==> fs.Faults() > old(fs.Faults()))
  {
    RealWayInDir(fs.nodes, target);
    var info := fs.Lstat(target);
    match info {
      case StatFailed => outcome := IOFailed;
      case Missing =>
        assert fs.nodes == fs.nodes - {target};
        outcome := Finished;
      case Found(node) =>
        if node.Dir? {
          outcome := Refused(DirectoryInPlace);
        } else {
          var ok := fs.Remove(target);
          outcome := if ok then Finished else IOFailed;
        }
    }
  }

  /** writeRegular: a new file, its data and then its times. */
  method WriteRegular(fs: FileSystem, target: Path, kind: Kind) returns (outcome: Outcome)
    requires fs.Valid() && target != [] && CleanPath(target) && IsDir(fs.nodes, Parent(target)) && kind.RegEntry?
    modifies fs
    ensures fs.Valid()
    ensures forall q | q != target :: Get(fs.nodes, q) == Get(old(fs.nodes), q)
    ensures outcome.Finished? ==>
              && !IsDir(old(fs.nodes), target) && |kind.data| >= kind.size
              && fs.nodes == old(fs.nodes)[target := NodeOf(kind)]
    ensures outcome.Refused? ==>
              outcome.why == if IsDir(old(fs.nodes), target) then DirectoryInPlace else BadStream
    ensures outcome == Refused(BadStream) ==> |kind.data| < kind.size
    ensures fs.Faults() >= old(fs.Faults()) && (outcome.IOFailed? ==> fs.Faults() > old(fs.Faults()))
  {
    outcome := Replace(fs, target);
    if !outcome.Finished? {
      return;
    }
    var ok := fs.Create(target, File([], kind.perm, 0));
    if !ok {
      return IOFailed;
    }
    ok := fs.Update(target, File(kind.data, kind.perm, 0));
    if !ok {
      return IOFailed;
    }
    if |kind.data| < kind.size {
      return Refused(BadStream);
    }
    ok := fs.Update(target, NodeOf(kind));
    outcome := if ok then Finished else IOFailed;
  }

  /** What happens to one entry after it was counted. */
  method UnpackEntry(fs: FileSystem, root: Path, includes: seq<string>, e: Entry) returns (outcome: Outcome)
    requires fs.Valid() && IsDir(fs.nodes, root)
    modifies fs
    ensures fs.Valid() && IsDir(fs.nodes, root)
    ensures Framed(old(fs.nodes), fs.nodes, root, includes)
    ensures outcome.Finished? ==> ExtractOne(old(fs.nodes), root, includes, e) == Success(fs.nodes)
    ensures outcome.Refused? ==> ExtractOne(old(fs.nodes), root, includes, e) == Failure(outcome.why)
    ensures fs.Faults() >= old(fs.Faults()) && (outcome.IOFailed? ==> fs.Faults() > old(fs.Faults()))
  {
    ghost var before := fs.nodes;
    var safe := SafeRel(e.name);
    SafeRelAccepts(e.name);
    if safe.None? {
      return Refused(UnsafeName);
    }
    var rel := safe.value;
    if !Included(includes, rel) {
      return Finished;
    }
    var dir := Parent(rel);
    CleanParts(fs.nodes, root, rel);
    outcome := MkdirInside(fs, root, dir);
    ghost var t1 := fs.nodes;
    DirsFramed(before, t1, root, includes, rel, dir);
    if !outcome.Finished? {
      return;
    }
    WithDirsAt(before, root, dir, root + dir);
    outcome := UnpackNode(fs, root, includes, rel, e.kind);
    FramedTransitive(before, t1, fs.nodes, root, includes);
  }

  /** The entry itself, once the directory that holds it is there. */
  method UnpackNode(fs: FileSystem, root: Path, includes: seq<string>, rel: Path, kind: Kind) returns (outcome: Outcome)
    requires fs.Valid() && IsDir(fs.nodes, root) && rel != [] && CleanPath(rel) && CleanPath(root + rel)
    requires IsDir(fs.nodes, root + Parent(rel)) && Included(includes, rel)
    modifies fs
    ensures fs.Valid() && IsDir(fs.nodes, root)
    ensures Framed(old(fs.nodes), fs.nodes, root, includes)
    ensures outcome.Finished? ==> ExtractNode(old(fs.nodes), root, rel, kind) == Success(fs.nodes)
    ensures outcome.Refused? ==> ExtractNode(old(fs.nodes), root, rel, kind) == Failure(outcome.why)
    ensures fs.Faults() >= old(fs.Faults()) && (outcome.IOFailed? ==> fs.Faults() > old(fs.Faults()))
  {
    ghost var t1 := fs.nodes;
    var target := root + rel;
    assert Parent(target) == root + Parent(rel);
    match kind {
      case DirEntry =>
        outcome := MkdirInside(fs, root, rel);
        DirsFramed(t1, fs.nodes, root, includes, rel, rel);
      case RegEntry(_, _, _, _) =>
        outcome := WriteRegular(fs, target, kind);
        LeafFramed(t1, fs.nodes, root, includes, rel);
      case LinkEntry(link) =>
        outcome := Replace(fs, target);
        if outcome.Finished? {
          var ok := fs.Create(target, Symlink(link));
          outcome := if ok then Finished else IOFailed;
          if ok {
            assert fs.nodes == t1[target := NodeOf(kind)];
          }
        }
        LeafFramed(t1, fs.nodes, root, includes, rel);
      case OtherEntry =>
        outcome := Finished;
    }
  }

  lemma CleanParts(t: Tree, root: Path, rel: Path)
    requires WellFormed(t) && root in t && rel != [] && CleanPath(rel)
    ensures CleanPath(Parent(rel)) && CleanPath(root + rel)
  {
    assert CleanPath(root);
    assert forall n <- Parent(rel) :: n in rel;
    assert forall n <- root + rel :: n in root || n in rel;
  }

  lemma DirsFramed(before: Tree, after: Tree, root: Path, includes: seq<string>, rel: Path, dir: Path)
    requires Included(includes, rel) && dir <= rel && IsDir(before, root)
    requires forall q :: Get(after, q) == Get(before, q) ||
                         (root < q && q <= root + dir && q !in before && IsDir(after, q))
    ensures Framed(before, after, root, includes) && IsDir(after, root)
  {
    forall q
      ensures Get(after, q) == Get(before, q) || MayChange(before, after, root, includes, q)
    {
      if Get(after, q) != Get(before, q) {
        assert root + dir <= root + rel;
        NewDirsAllowed(before, after, root, includes, rel, q);
      }
    }
    assert Get(after, root) == Get(before, root);
  }

  lemma LeafFramed(t1: Tree, t2: Tree, root: Path, includes: seq<string>, rel: Path)
    requires Included(includes, rel) && rel != [] && IsDir(t1, root)
    requires forall q | q != root + rel :: Get(t2, q) == Get(t1, q)
    ensures Framed(t1, t2, root, includes) && IsDir(t2, root)
  {
    assert (root + rel)[|root|..] == rel;
    assert Get(t2, root) == Get(t1, root);
  }

  /** Unpack: the entries of the stream, one after another, into root. */
  method Unpack(fs: FileSystem, root: Path, includes: seq<string>, limits: Limits, stream: Stream)
    returns (outcome: Outcome)
    requires fs.Valid() && IsDir(fs.nodes, root)
    modifies fs
    ensures fs.Valid() && IsDir(fs.nodes, root)
    ensures Framed(old(fs.nodes), fs.nodes, root, includes)
    ensures outcome.Finished? ==> Extract(old(fs.nodes), root, includes, limits, ZERO, stream) == Success(fs.nodes)
    ensures outcome.Refused? ==> Extract(old(fs.nodes), root, includes, limits, ZERO, stream) == Failure(outcome.why)
    ensures fs.Faults() >= old(fs.Faults()) && (outcome.IOFailed? ==> fs.Faults() > old(fs.Faults()))
    ensures fs.Faults() == old(fs.Faults()) ==>
              (outcome.Finished? <==> Unpackable(old(fs.nodes), root, includes, limits, stream))
    ensures outcome.Refused? ==> !Unpackable(old(fs.nodes), root, includes, limits, stream)
    ensures outcome.Finished? ==>
              forall q :: Get(fs.nodes, q) ==
                          LeftBy(old(fs.nodes), root, includes, stream.entries, |stream.entries|, q)
  {
    ghost var before := fs.nodes;
    ExtractMeaning(before, root, includes, limits, stream);
    var counter := new Counter(limits);
    assert stream.entries[0..] == stream.entries;
    for i := 0 to |stream.entries|
      invariant fs.Faults() >= old(fs.Faults())
      invariant fs.Valid() && IsDir(fs.nodes, root) && Framed(before, fs.nodes, root, includes)
      invariant counter.limits == limits && fresh(counter)
      invariant Extract(before, root, includes, limits, ZERO, stream) ==
                Extract(fs.nodes, root, includes, limits, counter.tally, stream.(entries := stream.entries[i..]))
    {
      var e := stream.entries[i];
      ghost var rest := stream.(entries := stream.entries[i..]);
      assert rest.entries[0] == e && rest.entries[1..] == stream.entries[i + 1..];
      ghost var now, tally := fs.nodes, counter.tally;
      var ok := counter.Add(EntrySize(e));
      if !ok {
        return Refused(TooLarge);
      }
      outcome := UnpackEntry(fs, root, includes, e);
      FramedTransitive(before, now, fs.nodes, root, includes);
      if !outcome.Finished? {
        return;
      }
    }
    outcome := if stream.broken then Refused(BadStream) else Finished;
  }
}
