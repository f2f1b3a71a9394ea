/** Splitting, joining and trimming of text, as Go's strings package does it. */
module Text {

  function Split(s: string, sep: char): (parts: seq<string>)
    ensures |parts| >= 1
  {
    if s == "" then [""]
    else
      var rest := Split(s[1..], sep);
      if s[0] == sep then [""] + rest else [[s[0]] + rest[0]] + rest[1..]
  }

  function Join(parts: seq<string>, sep: char): string {
    if |parts| == 0 then ""
    else if |parts| == 1 then parts[0]
    else parts[0] + [sep] + Join(parts[1..], sep)
  }

  function TrimRight(s: string, c: char): string {
    if s != "" && s[|s| - 1] == c then TrimRight(s[..|s| - 1], c) else s
  }

  /** The characters that unicode.IsSpace accepts. */
  predicate IsSpace(c: char) {
    c in {'\t', '\n', '\r', ' ', '\U{0B}', '\U{0C}', '\U{85}', '\U{A0}', '\U{1680}', '\U{2028}', '\U{2029}',
          '\U{202F}', '\U{205F}', '\U{3000}'} || '\U{2000}' <= c <= '\U{200A}'
  }

  function TrimSpaceLeft(s: string): string {
    if s != "" && IsSpace(s[0]) then TrimSpaceLeft(s[1..]) else s
  }

  function TrimSpaceRight(s: string): string {
    if s != "" && IsSpace(s[|s| - 1]) then TrimSpaceRight(s[..|s| - 1]) else s
  }

  function TrimSpace(s: string): string {
    TrimSpaceRight(TrimSpaceLeft(s))
  }

  // ----- splitting and joining undo each other -----

  lemma {:induction false} SplitParts(s: string, sep: char)
    ensures forall part <- Split(s, sep) :: sep !in part
  {
    if s != "" {
      SplitParts(s[1..], sep);
      var rest := Split(s[1..], sep);
      assert rest[0] in rest;
      assert forall part <- rest[1..] :: part in rest;
    }
  }

  lemma {:induction false} JoinSplit(s: string, sep: char)
    ensures Join(Split(s, sep), sep) == s
  {
    if s != "" {
      JoinSplit(s[1..], sep);
      var rest := Split(s[1..], sep);
      if s[0] == sep {
        assert ([""] + rest)[1..] == rest;
      } else {
        var parts := [[s[0]] + rest[0]] + rest[1..];
        assert parts[1..] == rest[1..];
        assert Join(parts, sep) == [s[0]] + Join(rest, sep);
      }
      assert s == [s[0]] + s[1..];
    }
  }

  lemma {:induction false} SplitWhole(s: string, sep: char)
    requires sep !in s
    ensures Split(s, sep) == [s]
  {
    if s != "" {
      SplitWhole(s[1..], sep);
      assert s == [s[0]] + s[1..];
    }
  }

  lemma SplitCons(c: char, s: string, sep: char)
    ensures Split([c] + s, sep) == Prefixed(c, Split(s, sep), sep)
  {
    assert ([c] + s)[1..] == s;
  }

  /** The parts of a text with one more character in front. */
  function Prefixed(c: char, parts: seq<string>, sep: char): seq<string>
    requires parts != []
  {
    if c == sep then [""] + parts else [[c] + parts[0]] + parts[1..]
  }

  lemma PrefixedAppend(c: char, front: seq<string>, back: seq<string>, sep: char)
    requires front != []
    ensures Prefixed(c, front + back, sep) == Prefixed(c, front, sep) + back
  {
    assert (front + back)[1..] == front[1..] + back;
  }

  lemma {:induction false} SplitAt(a: string, b: string, sep: char)
    ensures Split(a + [sep] + b, sep) == Split(a, sep) + Split(b, sep)
  {
    if a == "" {
      SplitCons(sep, b, sep);
      assert a + [sep] + b == [sep] + b;
    } else {
      var c, rest := a[0], a[1..];
      SplitAt(rest, b, sep);
      SplitCons(c, rest + [sep] + b, sep);
      SplitCons(c, rest, sep);
      PrefixedAppend(c, Split(rest, sep), Split(b, sep), sep);
      assert a == [c] + rest && a + [sep] + b == [c] + (rest + [sep] + b);
    }
  }

  lemma {:induction false} SplitJoin(parts: seq<string>, sep: char)
    requires parts != []
    requires forall part <- parts :: sep !in part
    ensures Split(Join(parts, sep), sep) == parts
  {
    SplitWhole(parts[0], sep);
    if |parts| > 1 {
      SplitJoin(parts[1..], sep);
      SplitAt(parts[0], Join(parts[1..], sep), sep);
      assert parts == [parts[0]] + parts[1..];
    }
  }

  lemma {:induction false} JoinAppend(a: seq<string>, b: seq<string>, sep: char)
    requires a != [] && b != []
    ensures Join(a + b, sep) == Join(a, sep) + [sep] + Join(b, sep)
  {
    if |a| > 1 {
      JoinAppend(a[1..], b, sep);
      assert (a + b)[1..] == a[1..] + b;
    } else {
      assert (a + b)[1..] == b;
    }
  }

  /** Text made of whole lines, and one more line. */
  lemma JoinLine(lines: seq<string>, line: string, sep: char)
    requires lines != []
    ensures Join(lines + [line], sep) + [sep] == Join(lines, sep) + [sep] + (line + [sep])
  {
    JoinAppend(lines, [line], sep);
    assert Join([line], sep) == line;
  }

  lemma SplitAround<T>(s: seq<T>, k: nat)
    requires k < |s|
    ensures s == s[..k] + [s[k]] + s[k + 1..]
  {
  }

  lemma ConcatAssociates<T>(a: seq<T>, b: seq<T>, c: seq<T>)
    ensures a + (b + c) == a + b + c
  {
  }

  // ----- trimming -----

  lemma {:induction false} TrimRightShape(s: string, c: char)
    ensures TrimRight(s, c) <= s
    ensures forall i | |TrimRight(s, c)| <= i < |s| :: s[i] == c
    ensures TrimRight(s, c) == "" || TrimRight(s, c)[|TrimRight(s, c)| - 1] != c
  {
    if s != "" && s[|s| - 1] == c {
      TrimRightShape(s[..|s| - 1], c);
    }
  }

  lemma {:induction false} TrimRightPadding(s: string, padding: string, c: char)
    requires forall x <- padding :: x == c
    ensures TrimRight(s + padding, c) == TrimRight(s, c)
  {
    if padding == "" {
      assert s + padding == s;
    } else {
      var shorter := padding[..|padding| - 1];
      assert forall x <- shorter :: x in padding;
      assert padding[|padding| - 1] in padding;
      assert (s + padding)[..|s + padding| - 1] == s + shorter;
      TrimRightPadding(s, shorter, c);
    }
  }

  lemma TrimSpaceSolid(s: string)
    requires s != "" && !IsSpace(s[0]) && !IsSpace(s[|s| - 1])
    ensures TrimSpace(s) == s
  {
  }

  lemma {:induction false} TrimSpaceRightShape(s: string)
    ensures TrimSpaceRight(s) <= s
    ensures TrimSpaceRight(s) == "" || !IsSpace(TrimSpaceRight(s)[|TrimSpaceRight(s)| - 1])
  {
    if s != "" && IsSpace(s[|s| - 1]) {
      TrimSpaceRightShape(s[..|s| - 1]);
    }
  }

  lemma {:induction false} TrimSpaceLeftShape(s: string)
    ensures |TrimSpaceLeft(s)| <= |s| && TrimSpaceLeft(s) == s[|s| - |TrimSpaceLeft(s)|..]
    ensures TrimSpaceLeft(s) == "" || !IsSpace(TrimSpaceLeft(s)[0])
  {
    if s != "" && IsSpace(s[0]) {
      TrimSpaceLeftShape(s[1..]);
    }
  }

  /** Trimming keeps a stretch of the text and leaves no space at either end. */
  lemma TrimSpaceShape(s: string)
    ensures forall c <- TrimSpace(s) :: c in s
    ensures var t := TrimSpace(s); t == "" || (!IsSpace(t[0]) && !IsSpace(t[|t| - 1]))
  {
    TrimSpaceLeftShape(s);
    var left := TrimSpaceLeft(s);
    TrimSpaceRightShape(left);
    assert forall c <- left :: c in s;
  }

  /** What TrimSpace cuts off is space at both ends. */
  lemma TrimSpaceCuts(s: string) returns (before: string, after: string)
    ensures s == before + TrimSpace(s) + after
    ensures (forall c <- before :: IsSpace(c)) && (forall c <- after :: IsSpace(c))
  {
    var left := TrimSpaceLeft(s);
    before := CutLeft(s);
    after := CutRight(left);
    assert before + (TrimSpace(s) + after) == before + TrimSpace(s) + after;
  }

  lemma {:induction false} CutLeft(s: string) returns (before: string)
    ensures s == before + TrimSpaceLeft(s) && forall c <- before :: IsSpace(c)
  {
    before := [];
    if s != "" && IsSpace(s[0]) {
      var more := CutLeft(s[1..]);
      before := [s[0]] + more;
      assert s == [s[0]] + s[1..];
    }
  }

  lemma {:induction false} CutRight(s: string) returns (after: string)
    ensures s == TrimSpaceRight(s) + after && forall c <- after :: IsSpace(c)
    decreases |s|
  {
    after := [];
    if s != "" && IsSpace(s[|s| - 1]) {
      var more := CutRight(s[..|s| - 1]);
      after := more + [s[|s| - 1]];
      assert s == s[..|s| - 1] + [s[|s| - 1]];
    }
  }
}
