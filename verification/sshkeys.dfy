/** The block of managed keys inside authorized_keys (internal/sshkeys). */
module SshKeys {
  import opened Text
  import opened Wrappers

  const BEGIN_MARKER := "# yougpu-managed-keys begin"
  const END_MARKER := "# yougpu-managed-keys end"

  // ----- what the rewriting means -----

  predicate HasLineBreak(s: string) {
    '\r' in s || '\n' in s
  }

  predicate IsUsable(key: string) {
    !HasLineBreak(key) && TrimSpace(key) != "" && TrimSpace(key)[0] != '#'
  }

  /** The usable keys, trimmed, in order. */
  function UsableKeys(keys: seq<string>): seq<string> {
    if keys == [] then []
    else if IsUsable(keys[0]) then [TrimSpace(keys[0])] + UsableKeys(keys[1..])
    else UsableKeys(keys[1..])
  }

  /** Line i is part of a managed block: a begin marker at or before it has no end marker between them. */
  predicate Managed(lines: seq<string>, i: nat)
    requires i < |lines|
  {
    exists j | 0 <= j <= i :: lines[j] == BEGIN_MARKER && forall k | j < k < i :: lines[k] != END_MARKER
  }

  /** The lines outside every managed block, in order. */
  function Outside(lines: seq<string>): seq<string> {
    if lines == [] then []
    else
      var last := |lines| - 1;
      Outside(lines[..last]) + if Managed(lines, last) then [] else [lines[last]]
  }

  /** A block is open after the lines: its begin marker has no end marker after it. */
  predicate Open(lines: seq<string>) {
    exists j | 0 <= j < |lines| :: lines[j] == BEGIN_MARKER && forall k | j < k < |lines| :: lines[k] != END_MARKER
  }

  function Base(content: string): string {
    TrimRight(Join(Outside(Split(content, '\n')), '\n'), '\n')
  }

  function Block(keys: seq<string>): seq<string> {
    [BEGIN_MARKER] + keys + [END_MARKER]
  }

  function Rendered(base: string, keys: seq<string>): string {
    (if base == "" then "" else base + "\n") + BlockText(keys)
  }

  function BlockText(keys: seq<string>): string {
    if keys == [] then "" else Join(Block(keys), '\n') + "\n"
  }

  /** The content that applying the keys leaves behind. */
  function Applied(content: string, keys: seq<string>): string {
    Rendered(Base(content), UsableKeys(keys))
  }

  // ----- the loops of the original -----

  method ValidKeys(keys: seq<string>) returns (out: seq<string>)
    ensures out == UsableKeys(keys)
  {
    out := [];
    assert keys[0..] == keys;
    for i := 0 to |keys|
      invariant out + UsableKeys(keys[i..]) == UsableKeys(keys)
    {
      assert keys[i..][1..] == keys[i + 1..];
      var key := keys[i];
      if HasLineBreak(key) {
        continue;
      }
      key := TrimSpace(key);
      if key == "" || key[0] == '#' {
        continue;
      }
      out := out + [key];
    }
  }

  method WithoutBlock(content: string) returns (base: string)
    ensures base == Base(content)
  {
    var kept: seq<string> := [];
    var inside := false;
    var lines := Split(content, '\n');
    for i := 0 to |lines|
      invariant inside == Open(lines[..i])
      invariant kept == Outside(lines[..i])
    {
      LineStep(lines, i);
      var line := lines[i];
      if line == BEGIN_MARKER {
        inside := true;
      } else if line == END_MARKER && inside {
        inside := false;
      } else if !inside {
        kept := kept + [line];
      }
    }
    assert lines[..|lines|] == lines;
    base := TrimRight(Join(kept, '\n'), '\n');
  }

  /** What one line does to the flag and to the lines kept. */
  lemma LineStep(lines: seq<string>, i: nat)
    requires i < |lines|
    ensures var line, before, after := lines[i], lines[..i], lines[..i + 1];
            && (Open(after) <==> line == BEGIN_MARKER || (Open(before) && line != END_MARKER))
            && Outside(after) == Outside(before) + if line == BEGIN_MARKER || Open(before) then [] else [line]
  {
    LineAdded(lines[..i], lines[i]);
    assert lines[..i] + [lines[i]] == lines[..i + 1];
  }

  lemma LineAdded(before: seq<string>, line: string)
    ensures var after := before + [line];
            && (Open(after) <==> line == BEGIN_MARKER || (Open(before) && line != END_MARKER))
            && Outside(after) == Outside(before) + if line == BEGIN_MARKER || Open(before) then [] else [line]
  {
    var after := before + [line];
    OpenStep(before, line);
    assert after[..|before|] == before && after[|before|] == line;
  }

  lemma OpenStep(before: seq<string>, line: string)
    ensures var after := before + [line];
            && (Open(after) <==> line == BEGIN_MARKER || (Open(before) && line != END_MARKER))
            && (Managed(after, |before|) <==> line == BEGIN_MARKER || Open(before))
  {
    var after := before + [line];
    var n := |before|;
    if line == BEGIN_MARKER {
      assert after[n] == BEGIN_MARKER;
    }
    if Open(before) {
      var j :| 0 <= j < n && before[j] == BEGIN_MARKER && forall k | j < k < n :: before[k] != END_MARKER;
      assert after[j] == BEGIN_MARKER;
    }
    if Managed(after, n) && line != BEGIN_MARKER {
      var j :| 0 <= j <= n && after[j] == BEGIN_MARKER && forall k | j < k < n :: after[k] != END_MARKER;
      assert before[j] == BEGIN_MARKER;
      assert forall k | j < k < n :: before[k] == after[k];
    }
    if Open(after) && line != BEGIN_MARKER {
      var j :| 0 <= j < n + 1 && after[j] == BEGIN_MARKER && forall k | j < k < n + 1 :: after[k] != END_MARKER;
      assert before[j] == BEGIN_MARKER;
      assert forall k | j < k < n :: before[k] == after[k];
      assert after[n] == line;
    }
  }

  method Render(base: string, keys: seq<string>) returns (content: string)
    ensures content == Rendered(base, keys)
  {
    content := "";
    if base != "" {
      content := base + "\n";
    }
    if keys == [] {
      return;
    }
    ghost var head := content;
    content := content + (BEGIN_MARKER + "\n");
    ghost var lines := [BEGIN_MARKER];
    for i := 0 to |keys|
      invariant lines == [BEGIN_MARKER] + keys[..i]
      invariant content == head + (Join(lines, '\n') + "\n")
    {
      content := AddLine(content, head, lines, keys[i]);
      assert keys[..i + 1] == keys[..i] + [keys[i]];
      lines := lines + [keys[i]];
    }
    assert keys[..|keys|] == keys;
    content := AddLine(content, head, lines, END_MARKER);
  }

  method AddLine(content: string, ghost head: string, ghost lines: seq<string>, line: string) returns (longer: string)
    requires lines != [] && content == head + (Join(lines, '\n') + "\n")
    ensures longer == head + (Join(lines + [line], '\n') + "\n")
  {
    JoinLine(lines, line, '\n');
    longer := content + (line + "\n");
  }

  /** authorized_keys, absent or with its content. */
  class KeyFile {
    var content: Option<string>

    function Text(): string
      reads this
    {
      if content.Some? then content.value else ""
    }

    /** Reconcile, with the outcome of the file operations before the rename given as `writable`. */
    method Reconcile(keys: seq<string>, writable: bool) returns (ok: bool)
      modifies this
      ensures ok ==> Text() == Applied(old(Text()), keys)
      ensures !ok ==> content == old(content) && !writable && Text() != Applied(Text(), keys)
      ensures old(Text()) == Applied(old(Text()), keys) ==> ok && content == old(content)
    {
      var current := Text();
      var valid := ValidKeys(keys);
      var base := WithoutBlock(current);
      var next := Render(base, valid);
      if next == current {
        return true;
      }
      if !writable {
        return false;
      }
      content := Some(next);
      ok := true;
    }
  }

  // ----- why removing the block undoes rendering it -----

  /** A usable key is one line and no marker. */
  lemma {:induction false} UsableKeysAreNoMarkers(keys: seq<string>)
    ensures forall key <- UsableKeys(keys) ::
              key != "" && key[0] != '#' && '\n' !in key && key != BEGIN_MARKER && key != END_MARKER
  {
    if keys != [] {
      UsableKeysAreNoMarkers(keys[1..]);
      TrimSpaceShape(keys[0]);
    }
  }

  /**
   * A key as a user means it: one line whose first character that is not space is there and does not begin a comment.
   */
  predicate IsKeyLine(key: string) {
    && '\n' !in key && '\r' !in key
    && exists a | 0 <= a < |key| :: FirstSolid(key, a) && key[a] != '#'
  }

  predicate FirstSolid(key: string, a: nat)
    requires a < |key|
  {
    !IsSpace(key[a]) && forall b | 0 <= b < a :: IsSpace(key[b])
  }

  lemma UsableIsKeyLine(key: string)
    ensures IsUsable(key) <==> IsKeyLine(key)
  {
    var before, after := TrimSpaceCuts(key);
    var trimmed := TrimSpace(key);
    TrimSpaceShape(key);
    assert forall i | 0 <= i < |before| :: key[i] == before[i] && before[i] in before;
    if trimmed != "" {
      assert key[|before|] == trimmed[0];
      assert FirstSolid(key, |before|);
      assert forall a | 0 <= a < |key| && FirstSolid(key, a) :: a == |before|;
    } else {
      assert key == before + after;
      assert forall c <- key :: c in before || c in after;
      assert forall a | 0 <= a < |key| :: key[a] in key;
    }
  }

  /** The places of the usable keys from the i-th on. */
  function Picks(keys: seq<string>, i: nat): seq<nat>
    requires i <= |keys|
    decreases |keys| - i
  {
    if i == |keys| then [] else (if IsUsable(keys[i]) then [i] else []) + Picks(keys, i + 1)
  }

  lemma {:induction false} PicksAscend(keys: seq<string>, i: nat)
    requires i <= |keys|
    ensures forall k :: k in Picks(keys, i) <==> i <= k < |keys| && IsUsable(keys[k])
    ensures forall m, n | 0 <= m < n < |Picks(keys, i)| :: Picks(keys, i)[m] < Picks(keys, i)[n]
    decreases |keys| - i
  {
    if i < |keys| {
      PicksAscend(keys, i + 1);
      var later := Picks(keys, i + 1);
      assert forall n | 0 <= n < |later| :: later[n] in later;
    }
  }

  lemma {:induction false} PicksAreListed(keys: seq<string>, i: nat)
    requires i <= |keys|
    ensures |Picks(keys, i)| == |UsableKeys(keys[i..])|
    ensures forall n | 0 <= n < |Picks(keys, i)| ::
              Picks(keys, i)[n] < |keys| && UsableKeys(keys[i..])[n] == TrimSpace(keys[Picks(keys, i)[n]])
    decreases |keys| - i
  {
    if i < |keys| {
      PicksAreListed(keys, i + 1);
      assert keys[i..][1..] == keys[i + 1..];
    }
  }

  /** The keys that are listed: every key that is one, at its place in the order, without the space around it. */
  lemma UsableKeysMeaning(keys: seq<string>) returns (picks: seq<nat>)
    ensures |picks| == |UsableKeys(keys)|
    ensures forall n | 0 <= n < |picks| :: picks[n] < |keys| && UsableKeys(keys)[n] == TrimSpace(keys[picks[n]])
    ensures forall m, n | 0 <= m < n < |picks| :: picks[m] < picks[n]
    ensures forall k | 0 <= k < |keys| :: k in picks <==> IsKeyLine(keys[k])
  {
    picks := Picks(keys, 0);
    assert keys[0..] == keys;
    PicksAreListed(keys, 0);
    PicksAscend(keys, 0);
    forall k | 0 <= k < |keys|
      ensures k in picks <==> IsKeyLine(keys[k])
    {
      UsableIsKeyLine(keys[k]);
    }
  }

  lemma {:induction false} OutsideHasNoBegin(lines: seq<string>)
    ensures BEGIN_MARKER !in Outside(lines)
    ensures forall line <- Outside(lines) :: line in lines
  {
    if lines != [] {
      var last := |lines| - 1;
      OutsideHasNoBegin(lines[..last]);
      LineAdded(lines[..last], lines[last]);
      assert lines[..last] + [lines[last]] == lines;
    }
  }

  lemma {:induction false} NothingManaged(lines: seq<string>)
    requires BEGIN_MARKER !in lines
    ensures Outside(lines) == lines && !Open(lines)
  {
    if lines != [] {
      var last := |lines| - 1;
      NothingManaged(lines[..last]);
      LineAdded(lines[..last], lines[last]);
      assert lines[..last] + [lines[last]] == lines;
    }
  }

  /** Lines without a begin marker, then a block, then one more line: the block goes and the rest stays. */
  lemma {:induction false} BlockVanishes(front: seq<string>, keys: seq<string>, n: nat)
    requires BEGIN_MARKER !in front && n <= |keys|
    requires forall key <- keys :: key != BEGIN_MARKER && key != END_MARKER
    ensures var lines := front + [BEGIN_MARKER] + keys[..n]; Outside(lines) == front && Open(lines)
  {
    if n == 0 {
      NothingManaged(front);
      LineAdded(front, BEGIN_MARKER);
      assert front + [BEGIN_MARKER] + keys[..0] == front + [BEGIN_MARKER];
    } else {
      BlockVanishes(front, keys, n - 1);
      assert keys[n - 1] in keys;
      LineAdded(front + [BEGIN_MARKER] + keys[..n - 1], keys[n - 1]);
      OneMore(front + [BEGIN_MARKER], keys, n - 1);
    }
  }

  lemma OneMore<T>(front: seq<T>, items: seq<T>, n: nat)
    requires n < |items|
    ensures front + items[..n] + [items[n]] == front + items[..n + 1]
  {
  }

  lemma BlockOpens(front: seq<string>, keys: seq<string>)
    requires BEGIN_MARKER !in front
    requires forall key <- keys :: key != BEGIN_MARKER && key != END_MARKER
    ensures Outside(front + [BEGIN_MARKER] + keys) == front && Open(front + [BEGIN_MARKER] + keys)
  {
    BlockVanishes(front, keys, |keys|);
    assert keys[..|keys|] == keys;
  }

  lemma BlockCloses(lines: seq<string>, front: seq<string>)
    requires Outside(lines) == front && Open(lines)
    ensures Outside(lines + [END_MARKER] + [""]) == front + [""]
  {
    LineAdded(lines, END_MARKER);
    LineAdded(lines + [END_MARKER], "");
  }

  lemma RenderedLines(front: seq<string>, keys: seq<string>)
    requires BEGIN_MARKER !in front
    requires forall key <- keys :: key != BEGIN_MARKER && key != END_MARKER
    ensures Outside(front + Block(keys) + [""]) == front + [""]
  {
    BlockOpens(front, keys);
    BlockCloses(front + [BEGIN_MARKER] + keys, front);
    BlockAppended(front, [BEGIN_MARKER], keys, [END_MARKER]);
  }

  lemma BlockAppended<T>(front: seq<T>, begin: seq<T>, keys: seq<T>, end: seq<T>)
    ensures front + (begin + keys + end) == front + begin + keys + end
  {
  }

  lemma {:induction false} TrimmedLines(lines: seq<string>)
    requires lines != [] && forall line <- lines :: '\n' !in line
    ensures exists n :: 0 < n <= |lines| && TrimRight(Join(lines, '\n'), '\n') == Join(lines[..n], '\n')
  {
    var text := Join(lines, '\n');
    if |lines| == 1 {
      assert lines[0] in lines;
      TrimRightShape(text, '\n');
      assert text == lines[0];
      assert lines[..1] == lines;
    } else if lines[|lines| - 1] == "" {
      var front := lines[..|lines| - 1];
      assert forall line <- front :: line in lines;
      assert lines == front + [""];
      JoinAppend(front, [""], '\n');
      TrimRightPadding(Join(front, '\n'), "\n", '\n');
      assert text == Join(front, '\n') + "\n";
      TrimmedLines(front);
      var n :| 0 < n <= |front| && TrimRight(Join(front, '\n'), '\n') == Join(front[..n], '\n');
      assert front[..n] == lines[..n];
    } else {
      var front, last := lines[..|lines| - 1], lines[|lines| - 1];
      assert lines == front + [last];
      JoinAppend(front, [last], '\n');
      assert text[|text| - 1] == last[|last| - 1];
      assert last in lines && last[|last| - 1] in last;
      assert lines[..|lines|] == lines;
    }
  }

  /** What is left of any content: text whose lines hold no begin marker and which does not end in a line break. */
  ghost predicate IsBase(base: string) {
    && BEGIN_MARKER !in Split(base, '\n')
    && (base != "" ==> base[|base| - 1] != '\n')
  }

  lemma BaseIsBase(content: string)
    ensures IsBase(Base(content))
  {
    var lines := Outside(Split(content, '\n'));
    SplitParts(content, '\n');
    OutsideHasNoBegin(Split(content, '\n'));
    TrimRightShape(Join(lines, '\n'), '\n');
    if lines != [] {
      TrimmedLines(lines);
      var n :| 0 < n <= |lines| && Base(content) == Join(lines[..n], '\n');
      assert forall line <- lines[..n] :: line in lines;
      SplitJoin(lines[..n], '\n');
    }
  }

  /** Taking the block out of any rendered file gives back exactly the base it was rendered on. */
  lemma BaseOfRendered(base: string, keys: seq<string>)
    requires IsBase(base)
    requires forall key <- keys :: key != BEGIN_MARKER && key != END_MARKER && '\n' !in key
    ensures Base(Rendered(base, keys)) == base
  {
    var front := if base == "" then [] else Split(base, '\n');
    var tail := if keys == [] then [] else Block(keys);
    var lines := front + tail + [""];
    RenderedSplits(base, keys, front, tail);
    if keys == [] {
      assert lines == front + [""];
      NothingManaged(lines);
    } else {
      RenderedLines(front, keys);
    }
    assert Outside(lines) == front + [""];
    FrontTrims(base, front);
  }

  lemma FrontTrims(base: string, front: seq<string>)
    requires base != "" ==> base[|base| - 1] != '\n'
    requires front == if base == "" then [] else Split(base, '\n')
    ensures TrimRight(Join(front + [""], '\n'), '\n') == base
  {
    if front == [] {
      assert front + [""] == [""];
    } else {
      JoinSplit(base, '\n');
      JoinAppend(front, [""], '\n');
      assert Join(front + [""], '\n') == base + "\n";
      TrimRightPadding(base, "\n", '\n');
    }
  }

  lemma BlockSplits(keys: seq<string>, tail: seq<string>)
    requires tail == if keys == [] then [] else Block(keys)
    requires forall key <- keys :: '\n' !in key
    ensures Split(BlockText(keys), '\n') == tail + [""]
  {
    if keys != [] {
      assert forall line <- tail :: line in keys || line == BEGIN_MARKER || line == END_MARKER;
      SplitJoin(tail, '\n');
      SplitAt(Join(tail, '\n'), "", '\n');
      assert Join(tail, '\n') + ['\n'] + "" == Join(tail, '\n') + "\n";
    }
  }

  lemma RenderedSplits(base: string, keys: seq<string>, front: seq<string>, tail: seq<string>)
    requires front == if base == "" then [] else Split(base, '\n')
    requires tail == if keys == [] then [] else Block(keys)
    requires forall key <- keys :: '\n' !in key
    ensures Split(Rendered(base, keys), '\n') == front + tail + [""]
  {
    BlockSplits(keys, tail);
    FrontSplits(base, front, BlockText(keys));
    ConcatAssociates(front, tail, [""]);
  }

  lemma FrontSplits(base: string, front: seq<string>, rest: string)
    requires front == if base == "" then [] else Split(base, '\n')
    ensures Split((if base == "" then "" else base + "\n") + rest, '\n') == front + Split(rest, '\n')
  {
    if base == "" {
      assert "" + rest == rest;
    } else {
      SplitAt(base, rest, '\n');
      assert base + ['\n'] + rest == base + "\n" + rest;
    }
  }

  // ----- the laws -----

  /** Applying k1 and then k2 is applying k2 alone, whatever the file held. */
  lemma ApplyAbsorbs(content: string, k1: seq<string>, k2: seq<string>)
    ensures Applied(Applied(content, k1), k2) == Applied(content, k2)
  {
    BaseIsBase(content);
    UsableKeysAreNoMarkers(k1);
    BaseOfRendered(Base(content), UsableKeys(k1));
  }

  /** Applying the same keys again changes nothing. */
  lemma ApplyIdempotent(content: string, keys: seq<string>)
    ensures Applied(Applied(content, keys), keys) == Applied(content, keys)
  {
    ApplyAbsorbs(content, keys, keys);
  }

  /** The lines outside the block of an applied file are those outside the blocks before, up to trailing empty ones. */
  lemma OutsideSurvives(content: string, keys: seq<string>)
    ensures TrimRight(Join(Outside(Split(Applied(content, keys), '\n')), '\n'), '\n') ==
            TrimRight(Join(Outside(Split(content, '\n')), '\n'), '\n')
  {
    BaseIsBase(content);
    UsableKeysAreNoMarkers(keys);
    BaseOfRendered(Base(content), UsableKeys(keys));
  }

  /** The managed lines of an applied file are the markers and the usable keys, in order, and nothing else. */
  lemma KeysAreListed(content: string, keys: seq<string>)
    ensures UsableKeys(keys) != [] ==>
              exists front: seq<string> :: BEGIN_MARKER !in front &&
                Split(Applied(content, keys), '\n') == front + Block(UsableKeys(keys)) + [""]
    ensures UsableKeys(keys) == [] ==> BEGIN_MARKER !in Split(Applied(content, keys), '\n')
  {
    BaseIsBase(content);
    UsableKeysAreNoMarkers(keys);
    var base, valid := Base(content), UsableKeys(keys);
    var front := if base == "" then [] else Split(base, '\n');
    RenderedSplits(base, valid, front, if valid == [] then [] else Block(valid));
    assert BEGIN_MARKER !in front;
    if valid == [] {
      assert Split(Applied(content, keys), '\n') == front + [] + [""] == front + [""];
    }
  }
}
