/** Slash-separated names and the paths they clean to (path.Clean and safeRel). */
module Paths {
  import opened Text
  import opened Wrappers

  type Name = string
  type Path = seq<Name>

  /** A path as path.Clean returns it: rooted or not, and its segments. `Cleaned(false, [])` is ".". */
  datatype Cleaned = Cleaned(rooted: bool, segments: seq<string>)

  predicate CleanName(n: Name) {
    n != "" && n != "." && n != ".." && '/' !in n
  }

  predicate CleanPath(p: Path) {
    forall n <- p :: CleanName(n)
  }

  /** One pass over the segments with a stack of those kept so far. */
  function Resolve(segments: seq<string>, rooted: bool, out: seq<string>): seq<string>
    decreases |segments|
  {
    if segments == [] then out
    else
      var seg, rest := segments[0], segments[1..];
      if seg == "" || seg == "." then Resolve(rest, rooted, out)
      else if seg != ".." then Resolve(rest, rooted, out + [seg])
      else if out != [] && out[|out| - 1] != ".." then Resolve(rest, rooted, out[..|out| - 1])
      else if rooted then Resolve(rest, rooted, out)
      else Resolve(rest, rooted, out + [".."])
  }

  function Clean(name: string): Cleaned {
    var rooted := name != "" && name[0] == '/';
    Cleaned(rooted, Resolve(Split(name, '/'), rooted, []))
  }

  function TrimSlash(name: string): string {
    if name != "" && name[|name| - 1] == '/' then name[..|name| - 1] else name
  }

  /** The path of an archive entry inside the workspace, or None for a name that is refused. */
  function SafeRel(name: string): Option<Path> {
    var clean := Clean(TrimSlash(name));
    if clean.rooted || clean.segments == [] || clean.segments[0] == ".." then None
    else Some(clean.segments)
  }

  /** How deep below its start a walk over the segments ends. */
  function Depth(segments: seq<string>): int {
    if segments == [] then 0
    else
      Depth(segments[..|segments| - 1]) + Descent(segments[|segments| - 1])
  }

  function Descent(segment: string): int {
    if segment == "" || segment == "." then 0 else if segment == ".." then -1 else 1
  }

  lemma DepthStep(segments: seq<string>, k: nat)
    requires k < |segments|
    ensures Depth(segments[..k + 1]) == Depth(segments[..k]) + Descent(segments[k])
  {
    var next := segments[..k + 1];
    assert next[..k] == segments[..k] && next[k] == segments[k];
  }

  /** The walk never leaves its start and does not end there. */
  ghost predicate StaysBelow(segments: seq<string>) {
    (forall k | 0 <= k <= |segments| :: Depth(segments[..k]) >= 0) && Depth(segments) > 0
  }

  // ----- what SafeRel accepts -----

  /**
   * Resolving a suffix from a clean stack: the stack stays clean while the walk stays inside, else it starts with "..".
   */
  lemma {:induction false} ResolveFrom(segments: seq<string>, k: nat, out: seq<string>)
    requires k <= |segments|
    requires forall seg <- segments :: '/' !in seg
    requires CleanPath(out) && |out| == Depth(segments[..k])
    ensures var r := Resolve(segments[k..], false, out);
            if forall j | k <= j <= |segments| :: Depth(segments[..j]) >= 0
            then CleanPath(r) && |r| == Depth(segments)
            else r != [] && r[0] == ".."
    decreases |segments| - k
  {
    if k == |segments| {
      assert segments[..k] == segments;
    } else {
      var seg := segments[k];
      assert segments[k..][0] == seg && segments[k..][1..] == segments[k + 1..];
      DepthStep(segments, k);
      if seg == "" || seg == "." {
        ResolveFrom(segments, k + 1, out);
      } else if seg != ".." {
        ResolveFrom(segments, k + 1, out + [seg]);
      } else if out != [] {
        assert out[|out| - 1] in out;
        ResolveFrom(segments, k + 1, out[..|out| - 1]);
      } else {
        assert Depth(segments[..k + 1]) == -1;
        ResolveClimbed(segments[k + 1..], [".."]);
        assert [] + [".."] == [".."];
      }
    }
  }

  lemma {:induction false} ResolveClimbed(segments: seq<string>, out: seq<string>)
    requires out != [] && out[0] == ".."
    ensures var r := Resolve(segments, false, out); r != [] && r[0] == ".."
    decreases |segments|
  {
    if segments != [] {
      var seg, rest := segments[0], segments[1..];
      if seg == "" || seg == "." {
        ResolveClimbed(rest, out);
      } else if seg != ".." {
        ResolveClimbed(rest, out + [seg]);
      } else if out[|out| - 1] != ".." {
        ResolveClimbed(rest, out[..|out| - 1]);
      } else {
        ResolveClimbed(rest, out + [".."]);
      }
    }
  }

  /**
   * A name is accepted exactly when it is relative and walks to a place strictly below the root, never leaving it on
   * the way.
   */
  lemma SafeRelAccepts(name: string)
    ensures var bare := TrimSlash(name);
            SafeRel(name).Some? <==> !(bare != "" && bare[0] == '/') && StaysBelow(Split(bare, '/'))
    ensures SafeRel(name).Some? ==>
              SafeRel(name).value != [] && CleanPath(SafeRel(name).value) &&
              |SafeRel(name).value| == Depth(Split(TrimSlash(name), '/'))
  {
    var bare := TrimSlash(name);
    var segments := Split(bare, '/');
    SplitParts(bare, '/');
    assert segments[..0] == [];
    if !(bare != "" && bare[0] == '/') {
      ResolveFrom(segments, 0, []);
      assert segments[0..] == segments;
      var r := Clean(bare).segments;
      if r != [] && CleanPath(r) {
        assert r[0] in r;
      }
    }
  }

  // ----- what an accepted name means -----

  /** Segment i is where the walk over the first n segments goes down from depth k, not to come back. */
  predicate Entered(segments: seq<string>, n: nat, k: nat, i: nat) {
    && i < n <= |segments|
    && Depth(segments[..i]) == k && Descent(segments[i]) == 1
    && forall j | i < j <= n :: DepthAt(segments, j) > k
  }

  function DepthAt(segments: seq<string>, j: nat): int
    requires j <= |segments|
  {
    Depth(segments[..j])
  }

  /** The path is that of the place where the walk over the first n segments is. */
  predicate WalkedTo(segments: seq<string>, n: nat, path: seq<string>)
    requires n <= |segments|
  {
    && |path| == DepthAt(segments, n)
    && forall k | 0 <= k < |path| :: EnteredBy(segments, n, k, path[k])
  }

  predicate EnteredBy(segments: seq<string>, n: nat, k: nat, name: string)
    requires n <= |segments|
  {
    exists i | 0 <= i < n :: Entered(segments, n, k, i) && segments[i] == name
  }

  lemma StillEntered(segments: seq<string>, n: nat, k: nat, name: string)
    requires n < |segments| && EnteredBy(segments, n, k, name) && k < DepthAt(segments, n + 1)
    ensures EnteredBy(segments, n + 1, k, name)
  {
    var i :| 0 <= i < n && Entered(segments, n, k, i) && segments[i] == name;
    assert Entered(segments, n + 1, k, i);
  }

  lemma StillWalked(segments: seq<string>, n: nat, out: seq<string>, kept: nat)
    requires n < |segments| && WalkedTo(segments, n, out) && kept <= |out| && kept <= DepthAt(segments, n + 1)
    ensures forall k | 0 <= k < kept :: EnteredBy(segments, n + 1, k, out[k])
  {
    forall k | 0 <= k < kept
      ensures EnteredBy(segments, n + 1, k, out[k])
    {
      StillEntered(segments, n, k, out[k]);
    }
  }

  lemma {:induction false} ResolveWalks(segments: seq<string>, n: nat, out: seq<string>)
    requires n <= |segments| && WalkedTo(segments, n, out) && CleanPath(out)
    requires forall seg <- segments :: '/' !in seg
    requires forall j | n <= j <= |segments| :: DepthAt(segments, j) >= 0
    ensures WalkedTo(segments, |segments|, Resolve(segments[n..], false, out))
    decreases |segments| - n
  {
    if n < |segments| {
      var seg := segments[n];
      assert segments[n..][0] == seg && segments[n..][1..] == segments[n + 1..];
      DepthStep(segments, n);
      assert DepthAt(segments, n + 1) >= 0;
      if seg == "" || seg == "." {
        StillWalked(segments, n, out, |out|);
        ResolveWalks(segments, n + 1, out);
      } else if seg != ".." {
        StillWalked(segments, n, out, |out|);
        assert Entered(segments, n + 1, |out|, n) && EnteredBy(segments, n + 1, |out|, seg);
        ResolveWalks(segments, n + 1, out + [seg]);
      } else {
        assert out[|out| - 1] in out;
        StillWalked(segments, n, out, |out| - 1);
        ResolveWalks(segments, n + 1, out[..|out| - 1]);
      }
    }
  }

  /** An accepted name means the place that walking its segments, up and down, ends at. */
  lemma SafeRelMeaning(name: string)
    requires SafeRel(name).Some?
    ensures var segments := Split(TrimSlash(name), '/');
            WalkedTo(segments, |segments|, SafeRel(name).value)
  {
    var segments := Split(TrimSlash(name), '/');
    SafeRelAccepts(name);
    SplitParts(TrimSlash(name), '/');
    assert segments[..0] == [] && segments[0..] == segments;
    assert forall j | 0 <= j <= |segments| :: DepthAt(segments, j) == Depth(segments[..j]);
    ResolveWalks(segments, 0, []);
  }

  // ----- names written by Pack read back -----

  lemma {:induction false} ResolveClean(p: Path, out: seq<string>)
    requires CleanPath(p)
    ensures Resolve(p, false, out) == out + p
    decreases |p|
  {
    if p != [] {
      assert p[0] in p;
      assert forall n <- p[1..] :: n in p;
      ResolveClean(p[1..], out + [p[0]]);
      assert out + [p[0]] + p[1..] == out + p;
    }
  }

  lemma {:induction false} JoinStarts(p: Path)
    requires p != [] && CleanPath(p)
    ensures Join(p, '/') != "" && Join(p, '/')[0] != '/' && Join(p, '/')[|Join(p, '/')| - 1] != '/'
  {
    assert p[0] in p;
    assert p[0][0] in p[0] && p[0][|p[0]| - 1] in p[0];
    if |p| > 1 {
      assert forall n <- p[1..] :: n in p;
      JoinStarts(p[1..]);
    }
  }

  /** The header name of a clean path, with or without the slash of a directory, is accepted and names that path. */
  lemma SafeRelReadsBack(p: Path)
    requires p != [] && CleanPath(p)
    ensures SafeRel(Join(p, '/')) == Some(p)
    ensures SafeRel(Join(p, '/') + "/") == Some(p)
    ensures Clean(Join(p, '/')) == Cleaned(false, p)
  {
    JoinStarts(p);
    var name := Join(p, '/');
    assert forall n <- p :: '/' !in n;
    SplitJoin(p, '/');
    ResolveClean(p, []);
    assert [] + p == p;
    assert p[0] in p;
    assert (name + "/")[..|name + "/"| - 1] == name;
  }

  lemma {:induction false} ResolveTail(segments: seq<string>, rooted: bool, out: seq<string>)
    ensures Resolve(segments + [""], rooted, out) == Resolve(segments, rooted, out)
    decreases |segments|
  {
    if segments == [] {
      assert [""][1..] == [];
      assert segments + [""] == [""];
    } else {
      var seg, rest := segments[0], segments[1..];
      assert (segments + [""])[1..] == rest + [""];
      if seg == "" || seg == "." {
        ResolveTail(rest, rooted, out);
      } else if seg != ".." {
        ResolveTail(rest, rooted, out + [seg]);
      } else if out != [] && out[|out| - 1] != ".." {
        ResolveTail(rest, rooted, out[..|out| - 1]);
      } else if rooted {
        ResolveTail(rest, rooted, out);
      } else {
        ResolveTail(rest, rooted, out + [".."]);
      }
    }
  }

  /** Trimming one trailing slash does not change what a relative name cleans to. */
  lemma CleanIgnoresSlash(name: string)
    requires SafeRel(name).Some?
    ensures Clean(name) == Cleaned(false, SafeRel(name).value)
  {
    var bare := TrimSlash(name);
    if bare != name {
      assert name == bare + ['/'] + "";
      SplitAt(bare, "", '/');
      ResolveTail(Split(bare, '/'), false, []);
    }
  }
}
