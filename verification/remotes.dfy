/** The sections of rclone.conf that the agent owns, one per drive (internal/disk/remotes.go). */
module Remotes {
  import opened Text
  import opened Wrappers

  const REMOTE_PREFIX := "disk-"

  datatype Section = Section(name: string, body: string)

  datatype Credentials = Credentials(accessKey: string, secretKey: string, endpoint: string)

  const NO_SECTION := Section("", "")

  // ----- reading -----

  predicate IsHeader(line: string) {
    var t := TrimSpace(line);
    |t| >= 2 && t[0] == '[' && t[|t| - 1] == ']'
  }

  function HeaderName(line: string): string
    requires IsHeader(line)
  {
    var t := TrimSpace(line);
    TrimSpace(t[1..|t| - 1])
  }

  /** strings.SplitAfter on line breaks: every line but the last keeps its break. */
  function Terminated(lines: seq<string>): seq<string> {
    if |lines| <= 1 then lines else [lines[0] + "\n"] + Terminated(lines[1..])
  }

  /** A section that has neither a name nor anything but space in it is not kept. */
  function Flushed(s: Section): seq<Section> {
    if s.name != "" || TrimSpace(s.body) != "" then [s] else []
  }

  /** The sections that the lines still to come complete, `current` being under way. */
  function Feed(lines: seq<string>, current: Section): seq<Section> {
    if lines == [] then Flushed(current)
    else if IsHeader(lines[0]) then Flushed(current) + Feed(lines[1..], Section(HeaderName(lines[0]), lines[0]))
    else Feed(lines[1..], Section(current.name, current.body + lines[0]))
  }

  function Parse(raw: string): seq<Section> {
    Feed(Terminated(Split(raw, '\n')), NO_SECTION)
  }

  /** readConf. */
  method ReadConf(raw: string) returns (sections: seq<Section>)
    ensures sections == Parse(raw)
  {
    sections := [];
    var current := NO_SECTION;
    var lines := Terminated(Split(raw, '\n'));
    assert lines[0..] == lines;
    for i := 0 to |lines|
      invariant sections + Feed(lines[i..], current) == Parse(raw)
    {
      FeedAt(lines, i, sections, current);
      var line := lines[i];
      if IsHeader(line) {
        sections := Flush(sections, current);
        current := Section(HeaderName(line), "");
      }
      current := Section(current.name, current.body + line);
    }
    assert Feed([], current) == Flushed(current);
    sections := Flush(sections, current);
  }

  method Flush(sections: seq<Section>, current: Section) returns (flushed: seq<Section>)
    ensures flushed == sections + Flushed(current)
  {
    flushed := sections;
    if current.name != "" || TrimSpace(current.body) != "" {
      flushed := flushed + [current];
    }
  }

  lemma FeedAt(lines: seq<string>, i: nat, sections: seq<Section>, current: Section)
    requires i < |lines|
    ensures sections + Feed(lines[i..], current) ==
            if IsHeader(lines[i])
            then sections + Flushed(current) + Feed(lines[i + 1..], Section(HeaderName(lines[i]), "" + lines[i]))
            else sections + Feed(lines[i + 1..], Section(current.name, current.body + lines[i]))
  {
    assert lines[i..][0] == lines[i] && lines[i..][1..] == lines[i + 1..];
    assert "" + lines[i] == lines[i];
    if IsHeader(lines[i]) {
      ConcatAssociates(sections, Flushed(current), Feed(lines[i + 1..], Section(HeaderName(lines[i]), lines[i])));
    }
  }

  // ----- writing -----

  function Printed(s: Section): string {
    TrimRight(s.body, '\n') + "\n"
  }

  function Print(sections: seq<Section>): string {
    if sections == [] then ""
    else if |sections| == 1 then Printed(sections[0])
    else Printed(sections[0]) + "\n" + Print(sections[1..])
  }

  /** The text that writeConf renders. */
  method Render(sections: seq<Section>) returns (text: string)
    ensures text == Print(sections)
  {
    text := "";
    assert sections[0..] == sections;
    for i := 0 to |sections|
      invariant text + (if 0 < i < |sections| then "\n" else "") + Print(sections[i..]) == Print(sections)
    {
      assert sections[i..][0] == sections[i] && sections[i..][1..] == sections[i + 1..];
      if i > 0 {
        text := text + "\n";
      }
      text := text + (TrimRight(sections[i].body, '\n') + "\n");
    }
  }

  // ----- finding and editing -----

  function Find(sections: seq<Section>, name: string): (at: Option<nat>)
    ensures at.Some? ==> at.value < |sections| && sections[at.value].name == name &&
                         forall j | 0 <= j < at.value :: sections[j].name != name
    ensures at.None? ==> forall s <- sections :: s.name != name
  {
    if sections == [] then None
    else if sections[0].name == name then Some(0)
    else
      match Find(sections[1..], name)
      case None => None
      case Some(i) => Some(i + 1)
  }

  method FindSection(sections: seq<Section>, name: string) returns (at: Option<nat>)
    ensures at == Find(sections, name)
  {
    for i := 0 to |sections|
      invariant forall j | 0 <= j < i :: sections[j].name != name
    {
      if sections[i].name == name {
        assert Find(sections, name) == Some(i);
        return Some(i);
      }
    }
    at := None;
  }

  function Put(sections: seq<Section>, s: Section): seq<Section> {
    match Find(sections, s.name)
    case None => sections + [s]
    case Some(i) => sections[i := s]
  }

  function Dropped(sections: seq<Section>, name: string): seq<Section> {
    match Find(sections, name)
    case None => sections
    case Some(i) => Without(sections, i)
  }

  function RemoteName(drive: string): string {
    REMOTE_PREFIX + drive
  }

  predicate WellFormedValue(v: string) {
    '\r' !in v && '\n' !in v
  }

  predicate WellFormedCredentials(c: Credentials) {
    WellFormedValue(c.accessKey) && WellFormedValue(c.secretKey) && WellFormedValue(c.endpoint)
  }

  function Setting(key: string, value: string): string {
    key + " = " + value
  }

  /** The settings of a drive, under its header. */
  function Settings(c: Credentials): seq<string> {
    [Setting("type", "s3"), Setting("provider", "Other"), Setting("env_auth", "false"),
     Setting("access_key_id", c.accessKey), Setting("secret_access_key", c.secretKey),
     Setting("endpoint", c.endpoint), Setting("force_path_style", "false"), Setting("acl", "private")]
  }

  function SectionLines(name: string, c: Credentials): seq<string> {
    ["[" + name + "]"] + Settings(c)
  }

  function RemoteSection(drive: string, c: Credentials): Section {
    Section(RemoteName(drive), Join(SectionLines(RemoteName(drive), c), '\n') + "\n")
  }

  predicate IsDriveChar(c: char) {
    'a' <= c <= 'z' || 'A' <= c <= 'Z' || '0' <= c <= '9' || c == '_' || c == '-'
  }

  /** driveIDPattern. */
  predicate ValidDrive(drive: string) {
    drive != "" && drive[0] != '_' && drive[0] != '-' && forall c <- drive :: IsDriveChar(c)
  }

  // ----- what makes sections readable again -----

  predicate NoHeaders(lines: seq<string>) {
    forall line <- lines :: !IsHeader(line)
  }

  /** The body starts with the header of the name and has no other. */
  predicate Headed(s: Section) {
    var lines := Split(s.body, '\n');
    IsHeader(lines[0]) && HeaderName(lines[0]) == s.name && NoHeaders(lines[1..])
  }

  /** What comes before the first header. */
  predicate Preamble(s: Section) {
    s.name == "" && NoHeaders(Split(s.body, '\n')) && TrimSpace(s.body) != ""
  }

  predicate WellShaped(sections: seq<Section>) {
    && (forall i | 0 <= i < |sections| :: Headed(sections[i]) || Preamble(sections[i]))
    && (forall i | 0 < i < |sections| :: Headed(sections[i]))
  }

  /** Two readings agree, section by section, up to line breaks at the end of each body. */
  predicate Same(a: seq<Section>, b: seq<Section>) {
    && |a| == |b|
    && forall i | 0 <= i < |a| :: SameSection(a[i], b[i])
  }

  predicate SameSection(a: Section, b: Section) {
    a.name == b.name && TrimRight(a.body, '\n') == TrimRight(b.body, '\n')
  }

  // ----- lines -----

  lemma {:induction false} TrimSpaceRightIgnoresBreak(s: string)
    ensures TrimSpaceRight(s + "\n") == TrimSpaceRight(s)
  {
    assert (s + "\n")[..|s|] == s;
  }

  lemma {:induction false} TrimSpaceIgnoresBreak(s: string)
    ensures TrimSpace(s + "\n") == TrimSpace(s)
  {
    if s == "" {
      assert TrimSpaceLeft("\n") == TrimSpaceLeft("\n"[1..]);
      assert "" + "\n" == "\n" && "\n"[1..] == "";
    } else if IsSpace(s[0]) {
      TrimSpaceIgnoresBreak(s[1..]);
      assert (s + "\n")[1..] == s[1..] + "\n";
    } else {
      TrimSpaceRightIgnoresBreak(s);
    }
  }

  /** A line that starts with something other than space and an opening bracket is no header. */
  lemma PlainLine(line: string)
    requires line == "" || (!IsSpace(line[0]) && line[0] != '[')
    ensures !IsHeader(line)
  {
    TrimSpaceRightShape(line);
  }

  lemma {:induction false} Blankness(s: string)
    ensures TrimSpace(s) == "" <==> forall c <- s :: IsSpace(c)
  {
    if s != "" {
      if IsSpace(s[0]) {
        Blankness(s[1..]);
        assert s == [s[0]] + s[1..];
      } else {
        assert s[0] in s;
        TrimSpaceRightShape(s);
        SolidFront(s);
      }
    }
  }

  lemma {:induction false} SolidFront(s: string)
    requires s != "" && !IsSpace(s[0])
    ensures TrimSpaceRight(s) != ""
  {
    if IsSpace(s[|s| - 1]) {
      SolidFront(s[..|s| - 1]);
    }
  }

  /** The lines of a text without its trailing breaks are the first of its lines. */
  lemma {:induction false} TrimmedLines(s: string)
    ensures Split(TrimRight(s, '\n'), '\n') <= Split(s, '\n')
    ensures forall i | |Split(TrimRight(s, '\n'), '\n')| <= i < |Split(s, '\n')| :: Split(s, '\n')[i] == ""
  {
    if s != "" && s[|s| - 1] == '\n' {
      var front := s[..|s| - 1];
      TrimmedLines(front);
      SplitAt(front, "", '\n');
      assert s == front + ['\n'] + "";
    }
  }

  // ----- reading back what was written -----

  /** The lines that a section's printed text has, the last one being the empty one after its break. */
  function Chunk(s: Section): seq<string> {
    Split(TrimRight(s.body, '\n'), '\n') + [""]
  }

  function Chunks(sections: seq<Section>): seq<string> {
    if sections == [] then [] else Chunk(sections[0]) + Chunks(sections[1..])
  }

  lemma SplitPrinted(s: Section)
    ensures Split(Printed(s), '\n') == Chunk(s)
  {
    SplitAt(TrimRight(s.body, '\n'), "", '\n');
    assert TrimRight(s.body, '\n') + ['\n'] + "" == Printed(s);
  }

  lemma {:induction false} SplitPrint(sections: seq<Section>)
    requires sections != []
    ensures Split(Print(sections), '\n') == Chunks(sections)
  {
    SplitPrinted(sections[0]);
    if |sections| == 1 {
      assert Chunks(sections[1..]) == [];
    } else {
      SplitPrint(sections[1..]);
      SplitAt(Printed(sections[0]), Print(sections[1..]), '\n');
    }
  }

  /** Lines with a break after each. */
  function Closed(lines: seq<string>): seq<string> {
    if lines == [] then [] else [lines[0] + "\n"] + Closed(lines[1..])
  }

  lemma {:induction false} TerminatedConcat(a: seq<string>, b: seq<string>)
    requires b != []
    ensures Terminated(a + b) == Closed(a) + Terminated(b)
  {
    if a == [] {
      assert a + b == b;
    } else {
      TerminatedConcat(a[1..], b);
      var both := a + b;
      assert |both| > 1 && both[0] == a[0] && both[1..] == a[1..] + b;
      ConcatAssociates([a[0] + "\n"], Closed(a[1..]), Terminated(b));
    }
  }

  /** The text of lines with a break after each. */
  function TextOf(lines: seq<string>): string {
    if lines == [] then "" else lines[0] + "\n" + TextOf(lines[1..])
  }

  lemma {:induction false} TextOfJoin(lines: seq<string>)
    requires lines != []
    ensures TextOf(lines) == Join(lines, '\n') + "\n"
  {
    if |lines| > 1 {
      TextOfJoin(lines[1..]);
    }
  }

  lemma WholeText(text: string)
    ensures TextOf(Split(text, '\n')) == text + "\n"
  {
    TextOfJoin(Split(text, '\n'));
    JoinSplit(text, '\n');
  }

  lemma {:induction false} FeedPlain(lines: seq<string>, rest: seq<string>, current: Section)
    requires NoHeaders(lines)
    ensures Feed(Closed(lines) + rest, current) == Feed(rest, Section(current.name, current.body + TextOf(lines)))
    decreases |lines|
  {
    if lines == [] {
      assert Closed(lines) + rest == rest;
      assert current.body + "" == current.body;
    } else {
      var line := lines[0];
      assert line in lines;
      TrimSpaceIgnoresBreak(line);
      ConcatAssociates([line + "\n"], Closed(lines[1..]), rest);
      FeedCons(line + "\n", Closed(lines[1..]) + rest, current);
      assert forall l <- lines[1..] :: l in lines;
      FeedPlain(lines[1..], rest, Section(current.name, current.body + (line + "\n")));
      ConcatAssociates(current.body, line + "\n", TextOf(lines[1..]));
    }
  }

  /** A printed section, as it reads when `pad` lines follow its text before the next header. */
  function Reread(s: Section, pad: string): Section {
    Section(s.name, TrimRight(s.body, '\n') + "\n" + pad)
  }

  lemma HeadedChunk(s: Section)
    requires Headed(s)
    ensures var lines := Split(TrimRight(s.body, '\n'), '\n');
            IsHeader(lines[0]) && HeaderName(lines[0]) == s.name && NoHeaders(lines[1..])
  {
    TrimmedLines(s.body);
    var lines, all := Split(TrimRight(s.body, '\n'), '\n'), Split(s.body, '\n');
    assert lines[0] == all[0];
    assert forall i | 0 <= i < |lines[1..]| :: lines[1..][i] == all[1..][i];
    assert forall line <- lines[1..] :: line in all[1..];
  }

  lemma FeedHeaded(s: Section, rest: seq<string>, current: Section)
    requires Headed(s)
    ensures Feed(Closed(Split(TrimRight(s.body, '\n'), '\n')) + rest, current) ==
            Flushed(current) + Feed(rest, Reread(s, ""))
  {
    HeadedChunk(s);
    var text := TrimRight(s.body, '\n');
    var lines := Split(text, '\n');
    var header := lines[0] + "\n";
    FeedHeader(lines, rest, current);
    FeedPlain(lines[1..], rest, Section(s.name, header));
    WholeText(text);
    assert header + TextOf(lines[1..]) == text + "\n" == text + "\n" + "";
  }

  lemma FeedCons(line: string, rest: seq<string>, current: Section)
    ensures Feed([line] + rest, current) ==
            if IsHeader(line) then Flushed(current) + Feed(rest, Section(HeaderName(line), line))
            else Feed(rest, Section(current.name, current.body + line))
  {
    assert ([line] + rest)[1..] == rest;
  }

  lemma FeedHeader(lines: seq<string>, rest: seq<string>, current: Section)
    requires lines != [] && IsHeader(lines[0])
    ensures Feed(Closed(lines) + rest, current) ==
            Flushed(current) + Feed(Closed(lines[1..]) + rest, Section(HeaderName(lines[0]), lines[0] + "\n"))
  {
    var header, tail := lines[0] + "\n", Closed(lines[1..]) + rest;
    assert Closed(lines) + rest == [header] + tail by {
      ConcatAssociates([header], Closed(lines[1..]), rest);
    }
    assert IsHeader(header) && HeaderName(header) == HeaderName(lines[0]) by {
      TrimSpaceIgnoresBreak(lines[0]);
    }
    FeedCons(header, tail, current);
  }

  lemma FeedPreamble(s: Section, rest: seq<string>)
    requires Preamble(s)
    ensures Feed(Closed(Split(TrimRight(s.body, '\n'), '\n')) + rest, NO_SECTION) == Feed(rest, Reread(s, ""))
  {
    var text := TrimRight(s.body, '\n');
    var lines := Split(text, '\n');
    TrimmedLines(s.body);
    assert forall line <- lines :: line in Split(s.body, '\n');
    FeedPlain(lines, rest, NO_SECTION);
    WholeText(text);
    assert NO_SECTION.body + TextOf(lines) == text + "\n" + "";
  }

  predicate HasSolid(text: string) {
    exists c <- text :: !IsSpace(c)
  }

  lemma HeadedSolid(s: Section)
    requires Headed(s)
    ensures HasSolid(TrimRight(s.body, '\n'))
  {
    HeadedChunk(s);
    var text := TrimRight(s.body, '\n');
    var line := Split(text, '\n')[0];
    TrimSpaceShape(line);
    assert TrimSpace(line)[0] in line;
    FirstLineInText(text);
    assert '[' in text;
  }

  lemma PreambleSolid(s: Section)
    requires Preamble(s)
    ensures HasSolid(TrimRight(s.body, '\n'))
  {
    var text := TrimRight(s.body, '\n');
    TrimRightShape(s.body, '\n');
    Blankness(s.body);
    var c :| c in s.body && !IsSpace(c);
    var i :| 0 <= i < |s.body| && s.body[i] == c;
    assert i < |text| && text[i] == c;
  }

  /** A shaped section is kept however many breaks follow it. */
  lemma KeptSection(s: Section, pad: string)
    requires Headed(s) || Preamble(s)
    requires forall c <- pad :: c == '\n'
    ensures Flushed(Reread(s, pad)) == [Reread(s, pad)] && SameSection(Reread(s, pad), s)
  {
    var text := TrimRight(s.body, '\n');
    if Headed(s) {
      HeadedSolid(s);
    } else {
      PreambleSolid(s);
    }
    PaddedTwin(s, text, pad);
  }

  lemma PaddedTwin(s: Section, text: string, pad: string)
    requires text == TrimRight(s.body, '\n') && HasSolid(text) && forall c <- pad :: c == '\n'
    ensures Flushed(Reread(s, pad)) == [Reread(s, pad)] && SameSection(Reread(s, pad), s)
  {
    TrimRightShape(s.body, '\n');
    assert text + "\n" + pad == text + ("\n" + pad);
    TrimRightPadding(text, "\n" + pad, '\n');
    TrimRightPadding(text, "", '\n');
    Blankness(text + "\n" + pad);
    var c :| c in text && !IsSpace(c);
    assert c in text + "\n" + pad;
  }

  lemma {:induction false} FirstLineInText(text: string)
    ensures forall c <- Split(text, '\n')[0] :: c in text
  {
    if text != "" {
      FirstLineInText(text[1..]);
      assert text == [text[0]] + text[1..];
    }
  }

  /** What is read back from the printed text of headed sections. */
  function Rereads(sections: seq<Section>): seq<Section> {
    if sections == [] then []
    else [Reread(sections[0], if |sections| == 1 then "" else "\n")] + Rereads(sections[1..])
  }

  lemma {:induction false} FeedChunks(sections: seq<Section>, current: Section)
    requires sections != [] && forall s <- sections :: Headed(s)
    ensures Feed(Terminated(Chunks(sections)), current) == Flushed(current) + Rereads(sections)
    decreases |sections|
  {
    var s, rest := sections[0], sections[1..];
    assert s in sections;
    var lines := Split(TrimRight(s.body, '\n'), '\n');
    ChunkEnds(s, rest);
    FeedHeaded(s, Terminated([""] + Chunks(rest)), current);
    FeedEnd(s, rest);
    if rest != [] {
      assert forall r <- rest :: r in sections;
      FeedChunks(rest, Reread(s, "\n"));
      KeptSection(s, "\n");
    } else {
      KeptSection(s, "");
    }
  }

  lemma ChunkEnds(s: Section, rest: seq<Section>)
    ensures var lines := Split(TrimRight(s.body, '\n'), '\n');
            Terminated(Chunk(s) + Chunks(rest)) == Closed(lines) + Terminated([""] + Chunks(rest))
  {
    var lines := Split(TrimRight(s.body, '\n'), '\n');
    TerminatedConcat(lines, [""] + Chunks(rest));
    ConcatAssociates(lines, [""], Chunks(rest));
  }

  /** The empty line after a section's text adds a break when another section follows, and nothing at the end. */
  lemma FeedEnd(s: Section, rest: seq<Section>)
    ensures Feed(Terminated([""] + Chunks(rest)), Reread(s, "")) ==
            if rest == [] then Flushed(Reread(s, "")) else Feed(Terminated(Chunks(rest)), Reread(s, "\n"))
  {
    var body := Reread(s, "").body;
    assert body + "" == body;
    if rest == [] {
      assert [""] + Chunks(rest) == [""];
      assert [""][1..] == [];
      assert Terminated([""]) == [""] && !IsHeader("");
      assert Feed([""][1..], Reread(s, "")) == Flushed(Reread(s, ""));
    } else {
      var all := Terminated([""] + Chunks(rest));
      TerminatedConcat([""], Chunks(rest));
      assert [""][1..] == [] && Closed([""][1..]) == [] && "" + "\n" == "\n";
      assert all[0] == "\n" && all[1..] == Terminated(Chunks(rest));
      TrimSpaceIgnoresBreak("");
      assert body + "\n" == Reread(s, "\n").body;
    }
  }

  lemma {:induction false} RereadsSame(sections: seq<Section>)
    requires forall s <- sections :: Headed(s) || Preamble(s)
    ensures Same(Rereads(sections), sections)
  {
    if sections != [] {
      assert sections[0] in sections;
      KeptSection(sections[0], if |sections| == 1 then "" else "\n");
      assert forall s <- sections[1..] :: s in sections;
      RereadsSame(sections[1..]);
      var r := Rereads(sections);
      forall i | 0 <= i < |r|
        ensures SameSection(r[i], sections[i])
      {
        if i > 0 {
          assert r[i] == Rereads(sections[1..])[i - 1] && sections[i] == sections[1..][i - 1];
        }
      }
    }
  }

  lemma ReadsNothing()
    ensures Parse("") == []
  {
    assert Terminated([""]) == [""] && !IsHeader("") && "" + "" == "";
    assert [""][1..] == [];
    assert Feed([""], NO_SECTION) == Feed([], NO_SECTION);
  }

  lemma ReadsPreambleFirst(sections: seq<Section>)
    requires sections != [] && Preamble(sections[0]) && forall r <- sections[1..] :: Headed(r)
    ensures Feed(Terminated(Chunks(sections)), NO_SECTION) == Rereads(sections)
  {
    var s, rest := sections[0], sections[1..];
    ChunkEnds(s, rest);
    FeedPreamble(s, Terminated([""] + Chunks(rest)));
    FeedEnd(s, rest);
    if rest == [] {
      KeptSection(s, "");
    } else {
      KeptSection(s, "\n");
      FeedChunks(rest, Reread(s, "\n"));
    }
  }

  /** A written file parses back to the sections it was written from. */
  lemma ReadsBack(sections: seq<Section>)
    requires WellShaped(sections)
    ensures Same(Parse(Print(sections)), sections)
  {
    if sections == [] {
      ReadsNothing();
    } else {
      SplitPrint(sections);
      RereadsSame(sections);
      if Headed(sections[0]) {
        FeedChunks(sections, NO_SECTION);
      } else {
        ReadsPreambleFirst(sections);
      }
    }
  }

  // ----- whatever is read is well shaped -----

  /** A section as it is read: it has its header and no other, or it stands before the first one. */
  predicate Shaped(s: Section) {
    Headed(s) || (s.name == "" && NoHeaders(Split(s.body, '\n')))
  }

  predicate WholeLines(body: string) {
    body == "" || body[|body| - 1] == '\n'
  }

  /** A section under way: its text is whole lines, so its last line is empty. */
  predicate Begun(s: Section) {
    WholeLines(s.body) && Shaped(s)
  }

  predicate AllHeaded(sections: seq<Section>) {
    forall r <- sections :: Headed(r)
  }

  /** Adding text to whole lines. */
  lemma SplitGlue(body: string, more: string)
    requires WholeLines(body)
    ensures var lines := Split(body, '\n');
            lines[|lines| - 1] == "" && Split(body + more, '\n') == lines[..|lines| - 1] + Split(more, '\n')
  {
    if body == "" {
      assert body + more == more;
      assert [""][..0] + Split(more, '\n') == Split(more, '\n');
    } else {
      var front := body[..|body| - 1];
      SplitAt(front, "", '\n');
      SplitAt(front, more, '\n');
      assert body == front + ['\n'] + "";
      assert body + more == front + ['\n'] + more;
      var lines := Split(body, '\n');
      assert lines[..|lines| - 1] == Split(front, '\n');
    }
  }

  /** What the last line, with its break or without one, splits into. */
  function LastLines(line: string, end: string): seq<string> {
    if end == "" then [line] else [line, ""]
  }

  lemma LastLinesPlain(line: string, end: string)
    requires !IsHeader(line)
    ensures NoHeaders(LastLines(line, end))
  {
    assert !IsHeader("");
  }

  /** One more line after whole lines. */
  lemma LineAfter(body: string, line: string, end: string)
    requires WholeLines(body) && '\n' !in line && (end == "" || end == "\n")
    ensures var lines := Split(body, '\n');
            && lines[|lines| - 1] == ""
            && Split(body + (line + end), '\n') == lines[..|lines| - 1] + LastLines(line, end)
    ensures end == "\n" ==> WholeLines(body + (line + end))
  {
    SplitGlue(body, line + end);
    LineSplits(line, end);
  }

  lemma PlainConcat(lines: seq<string>, more: seq<string>)
    requires lines != [] && NoHeaders(lines) && NoHeaders(more)
    ensures NoHeaders(lines[..|lines| - 1] + more)
  {
    var front := lines[..|lines| - 1];
    forall l <- front + more
      ensures !IsHeader(l)
    {
      assert l in front ==> l in lines;
    }
  }

  /** One more line that is no header, with its break or without one, keeps a section's shape. */
  lemma LineAdded(s: Section, line: string, end: string)
    requires Begun(s) && '\n' !in line && !IsHeader(line) && (end == "" || end == "\n")
    ensures var t := Section(s.name, s.body + (line + end));
            Shaped(t) && (Headed(s) ==> Headed(t)) && (end == "\n" ==> Begun(t))
  {
    LineAfter(s.body, line, end);
    LastLinesPlain(line, end);
    if Headed(s) {
      StillHeaded(Split(s.body, '\n'), LastLines(line, end));
    } else {
      PlainConcat(Split(s.body, '\n'), LastLines(line, end));
    }
  }

  lemma StillHeaded(lines: seq<string>, more: seq<string>)
    requires lines != [] && lines[|lines| - 1] == "" && IsHeader(lines[0]) && NoHeaders(lines[1..]) && NoHeaders(more)
    ensures var all := lines[..|lines| - 1] + more; all[0] == lines[0] && NoHeaders(all[1..])
  {
    assert lines[0] != "";
    var front := lines[..|lines| - 1];
    assert (front + more)[1..] == front[1..] + more;
    assert forall l <- front[1..] :: l in lines[1..];
    assert forall l <- front[1..] + more :: l in front[1..] || l in more;
  }

  lemma LineSplits(line: string, end: string)
    requires '\n' !in line && (end == "" || end == "\n")
    ensures Split(line + end, '\n') == LastLines(line, end)
  {
    SplitWhole(line, '\n');
    if end == "" {
      assert line + end == line;
    } else {
      SplitAt(line, "", '\n');
      assert line + ['\n'] + "" == line + end;
    }
  }

  lemma HeaderBegins(line: string, end: string)
    requires '\n' !in line && IsHeader(line) && (end == "" || end == "\n")
    ensures IsHeader(line + end)
    ensures var s := Section(HeaderName(line + end), line + end); Headed(s) && (end == "\n" ==> Begun(s))
  {
    LineSplits(line, end);
    assert line + "" == line;
    TrimSpaceIgnoresBreak(line);
    assert !IsHeader("");
  }

  lemma FlushedShape(s: Section)
    requires Shaped(s)
    ensures WellShaped(Flushed(s)) && (Headed(s) ==> AllHeaded(Flushed(s)))
  {
  }

  lemma ShapedConcat(a: seq<Section>, b: seq<Section>)
    requires WellShaped(a) && AllHeaded(b)
    ensures WellShaped(a + b) && (AllHeaded(a) ==> AllHeaded(a + b))
  {
    forall i | 0 <= i < |a + b|
      ensures Headed((a + b)[i]) || (i == 0 && Preamble((a + b)[i]))
      ensures AllHeaded(a) ==> Headed((a + b)[i])
    {
      if i >= |a| {
        assert (a + b)[i] == b[i - |a|];
      } else {
        assert a[i] in a;
      }
    }
  }

  /** The section under way after one more line. */
  function NextSection(current: Section, line: string, end: string): Section {
    if IsHeader(line + end) then Section(HeaderName(line + end), line + end)
    else Section(current.name, current.body + (line + end))
  }

  lemma NextShaped(current: Section, line: string, end: string)
    requires Begun(current) && '\n' !in line && (end == "" || end == "\n")
    ensures IsHeader(line + end) == IsHeader(line)
    ensures var next := NextSection(current, line, end);
            && Shaped(next) && (Headed(current) || IsHeader(line) ==> Headed(next))
            && (end == "\n" ==> Begun(next))
  {
    assert line + "" == line;
    TrimSpaceIgnoresBreak(line);
    if IsHeader(line) {
      HeaderBegins(line, end);
    } else {
      LineAdded(current, line, end);
    }
  }

  /** What reading one line adds to what the rest gives. */
  lemma FeedLine(lines: seq<string>, current: Section)
    requires lines != []
    ensures var end := if |lines| == 1 then "" else "\n";
            var next := NextSection(current, lines[0], end);
            var rest := if |lines| == 1 then Flushed(next) else Feed(Terminated(lines[1..]), next);
            Feed(Terminated(lines), current) == if IsHeader(lines[0] + end) then Flushed(current) + rest else rest
  {
    assert lines[0] + "" == lines[0];
    assert Terminated(lines)[1..] == if |lines| == 1 then [] else Terminated(lines[1..]);
  }

  lemma {:induction false} FeedShaped(lines: seq<string>, current: Section)
    requires lines != [] && Begun(current) && forall line <- lines :: '\n' !in line
    ensures WellShaped(Feed(Terminated(lines), current))
    ensures Headed(current) ==> AllHeaded(Feed(Terminated(lines), current))
    decreases |lines|
  {
    var line, end := lines[0], if |lines| == 1 then "" else "\n";
    assert line in lines;
    var next := NextSection(current, line, end);
    NextShaped(current, line, end);
    FeedLine(lines, current);
    if |lines| == 1 {
      FlushedShape(next);
      HeaderFlushes(current, line, end, Flushed(next));
    } else {
      assert forall l <- lines[1..] :: l in lines;
      FeedShaped(lines[1..], next);
      HeaderFlushes(current, line, end, Feed(Terminated(lines[1..]), next));
    }
  }

  lemma HeaderFlushes(current: Section, line: string, end: string, rest: seq<Section>)
    requires Shaped(current) && (IsHeader(line + end) ==> AllHeaded(rest))
    ensures IsHeader(line + end) ==> WellShaped(Flushed(current) + rest)
    ensures IsHeader(line + end) && Headed(current) ==> AllHeaded(Flushed(current) + rest)
  {
    if IsHeader(line + end) {
      FlushedShape(current);
      ShapedConcat(Flushed(current), rest);
    }
  }

  /** Whatever the file holds, its sections are well shaped. */
  lemma ParseShaped(raw: string)
    ensures WellShaped(Parse(raw))
  {
    SplitParts(raw, '\n');
    assert Split("", '\n') == [""] && !IsHeader("");
    FeedShaped(Split(raw, '\n'), NO_SECTION);
  }

  /** The section that is written for a drive reads as one headed section of that name. */
  lemma RemoteSectionHeaded(drive: string, c: Credentials)
    requires ValidDrive(drive) && WellFormedCredentials(c)
    ensures Headed(RemoteSection(drive, c))
  {
    var name := RemoteName(drive);
    var lines := SectionLines(name, c);
    NoBreaks(drive, c);
    SplitJoin(lines, '\n');
    SplitAt(Join(lines, '\n'), "", '\n');
    assert Join(lines, '\n') + ['\n'] + "" == RemoteSection(drive, c).body;
    RemoteHeader(drive);
    PlainLines(name, c);
    assert (lines + [""])[1..] == lines[1..] + [""];
    assert !IsHeader("");
  }

  lemma RemoteHeader(drive: string)
    requires ValidDrive(drive)
    ensures var header := "[" + RemoteName(drive) + "]"; IsHeader(header) && HeaderName(header) == RemoteName(drive)
  {
    var name := RemoteName(drive);
    var header := "[" + name + "]";
    assert header[0] == '[' && header[|header| - 1] == ']' && header[1..|header| - 1] == name;
    TrimSpaceSolid(header);
    assert name[|name| - 1] == drive[|drive| - 1] && drive[|drive| - 1] in drive;
    TrimSpaceSolid(name);
  }

  /** A setting of the agent is one line that is no header. */
  predicate IsSetting(line: string) {
    '\n' !in line && line != "" && 'a' <= line[0] <= 'z'
  }

  lemma OneSetting(key: string, value: string)
    requires key != "" && 'a' <= key[0] <= 'z' && '\n' !in key
    ensures Setting(key, value) != "" && 'a' <= Setting(key, value)[0] <= 'z'
    ensures '\n' !in value ==> IsSetting(Setting(key, value))
  {
    assert Setting(key, value)[0] == key[0];
  }

  lemma AllSettings(c: Credentials)
    requires WellFormedCredentials(c)
    ensures forall line <- Settings(c) :: IsSetting(line)
  {
    OneSetting("type", "s3");
    OneSetting("provider", "Other");
    OneSetting("env_auth", "false");
    OneSetting("access_key_id", c.accessKey);
    OneSetting("secret_access_key", c.secretKey);
    OneSetting("endpoint", c.endpoint);
    OneSetting("force_path_style", "false");
    OneSetting("acl", "private");
  }

  lemma NoBreaks(drive: string, c: Credentials)
    requires ValidDrive(drive) && WellFormedCredentials(c)
    ensures forall line <- SectionLines(RemoteName(drive), c) :: '\n' !in line
  {
    AllSettings(c);
    assert '\n' !in drive && '\n' !in REMOTE_PREFIX;
  }

  lemma PlainLines(name: string, c: Credentials)
    requires WellFormedCredentials(c)
    ensures NoHeaders(SectionLines(name, c)[1..])
  {
    AllSettings(c);
    assert SectionLines(name, c)[1..] == Settings(c);
    forall line <- Settings(c)
      ensures !IsHeader(line)
    {
      PlainLine(line);
    }
  }

  // ----- the file as a map from drive to section, beside what is not the agent's -----

  predicate IsRemote(name: string) {
    REMOTE_PREFIX <= name
  }

  function BodyText(s: Section): string {
    TrimRight(s.body, '\n')
  }

  /** What the file holds for each remote. */
  function View(sections: seq<Section>): map<string, string> {
    if sections == [] then map[]
    else
      var last := sections[|sections| - 1];
      var front := View(sections[..|sections| - 1]);
      if IsRemote(last.name) then front[last.name := BodyText(last)] else front
  }

  /** The sections that are nobody's drive, and the preamble, in order. */
  function Foreign(sections: seq<Section>): seq<(string, string)> {
    if sections == [] then []
    else
      var last := sections[|sections| - 1];
      Foreign(sections[..|sections| - 1]) + if IsRemote(last.name) then [] else [(last.name, BodyText(last))]
  }

  predicate UniqueRemotes(sections: seq<Section>) {
    forall i, j | 0 <= i < j < |sections| :: IsRemote(sections[i].name) ==> sections[i].name != sections[j].name
  }

  lemma {:induction false} ViewMeaning(sections: seq<Section>)
    requires UniqueRemotes(sections)
    ensures forall i | 0 <= i < |sections| && IsRemote(sections[i].name) ::
              sections[i].name in View(sections) && View(sections)[sections[i].name] == BodyText(sections[i])
    ensures forall name <- View(sections) ::
              IsRemote(name) && exists i :: 0 <= i < |sections| && sections[i].name == name
  {
    if sections != [] {
      var n := |sections| - 1;
      var front := sections[..n];
      ViewMeaning(front);
      forall i | 0 <= i < |sections| && IsRemote(sections[i].name)
        ensures sections[i].name in View(sections) && View(sections)[sections[i].name] == BodyText(sections[i])
      {
        if i < n {
          assert front[i] == sections[i];
        }
      }
      forall name <- View(sections)
        ensures IsRemote(name) && exists i :: 0 <= i < |sections| && sections[i].name == name
      {
        if name in View(front) {
          var i :| 0 <= i < |front| && front[i].name == name;
          assert sections[i].name == name;
        } else {
          assert sections[n].name == name;
        }
      }
    }
  }

  lemma {:induction false} ForeignConcat(a: seq<Section>, b: seq<Section>)
    ensures Foreign(a + b) == Foreign(a) + Foreign(b)
  {
    if b == [] {
      assert a + b == a;
    } else {
      var n := |b| - 1;
      ForeignConcat(a, b[..n]);
      assert (a + b)[..|a + b| - 1] == a + b[..n];
    }
  }

  lemma ForeignOne(s: Section)
    ensures Foreign([s]) == if IsRemote(s.name) then [] else [(s.name, BodyText(s))]
  {
    assert [s][..0] == [];
  }

  lemma {:induction false} SameViews(a: seq<Section>, b: seq<Section>)
    requires Same(a, b)
    ensures View(a) == View(b) && Foreign(a) == Foreign(b)
    ensures UniqueRemotes(a) <==> UniqueRemotes(b)
  {
    if a != [] {
      var n := |a| - 1;
      assert SameSection(a[n], b[n]);
      forall i | 0 <= i < n
        ensures SameSection(a[..n][i], b[..n][i])
      {
        assert SameSection(a[i], b[i]);
      }
      SameViews(a[..n], b[..n]);
    }
    forall i | 0 <= i < |a|
      ensures a[i].name == b[i].name
    {
      assert SameSection(a[i], b[i]);
    }
  }

  // ----- putting and dropping -----

  lemma PutKeepsShape(sections: seq<Section>, s: Section)
    requires WellShaped(sections) && Headed(s)
    ensures WellShaped(Put(sections, s))
  {
  }

  lemma DropKeepsShape(sections: seq<Section>, name: string)
    requires WellShaped(sections) && name != ""
    ensures WellShaped(Dropped(sections, name))
  {
    var at := Find(sections, name);
    if at.Some? {
      var dropped := Dropped(sections, name);
      forall k | 0 <= k < |dropped|
        ensures Headed(dropped[k]) || (k == 0 && Preamble(dropped[k]))
      {
        WithoutAt(sections, at.value, k);
      }
    }
  }

  lemma PutUnique(sections: seq<Section>, s: Section)
    requires UniqueRemotes(sections)
    ensures UniqueRemotes(Put(sections, s))
  {
    var put := Put(sections, s);
    var at := Find(sections, s.name);
    forall i, j | 0 <= i < j < |put| && IsRemote(put[i].name)
      ensures put[i].name != put[j].name
    {
      if at.None? && j == |sections| {
        assert sections[i] in sections;
      }
    }
  }

  lemma ForeignAround(a: seq<Section>, s: Section, b: seq<Section>)
    requires IsRemote(s.name)
    ensures Foreign(a + [s] + b) == Foreign(a) + Foreign(b)
  {
    ForeignOne(s);
    ForeignConcat(a, [s]);
    ForeignConcat(a + [s], b);
  }

  /** A map that says of every remote what its section says, and of nothing else, is the view. */
  ghost predicate Describes(m: map<string, string>, sections: seq<Section>) {
    && (forall i | 0 <= i < |sections| && IsRemote(sections[i].name) ::
          sections[i].name in m && m[sections[i].name] == BodyText(sections[i]))
    && (forall name <- m :: IsRemote(name) && exists i :: 0 <= i < |sections| && sections[i].name == name)
  }

  lemma ViewIs(m: map<string, string>, sections: seq<Section>)
    requires UniqueRemotes(sections) && Describes(m, sections)
    ensures View(sections) == m
  {
    ViewMeaning(sections);
    var view := View(sections);
    forall name
      ensures name in view <==> name in m
      ensures name in view && name in m ==> view[name] == m[name]
    {
      if name in view || name in m {
        var i :| 0 <= i < |sections| && sections[i].name == name;
      }
    }
  }

  lemma PutView(sections: seq<Section>, s: Section)
    requires UniqueRemotes(sections) && IsRemote(s.name)
    ensures View(Put(sections, s)) == View(sections)[s.name := BodyText(s)]
    ensures Foreign(Put(sections, s)) == Foreign(sections)
  {
    var at := Find(sections, s.name);
    match at {
      case None =>
        ForeignConcat(sections, [s]);
        ForeignOne(s);
        assert (sections + [s])[..|sections|] == sections;
      case Some(k) =>
        ForeignReplaced(sections, k, s);
        PutUnique(sections, s);
        ReplacedView(sections, k, s);
    }
  }

  lemma ReplacedView(sections: seq<Section>, k: nat, s: Section)
    requires k < |sections| && UniqueRemotes(sections) && UniqueRemotes(sections[k := s])
    requires sections[k].name == s.name && IsRemote(s.name)
    ensures View(sections[k := s]) == View(sections)[s.name := BodyText(s)]
  {
    var put := sections[k := s];
    var m := View(sections)[s.name := BodyText(s)];
    ViewMeaning(sections);
    forall i | 0 <= i < |put| && IsRemote(put[i].name)
      ensures put[i].name in m && m[put[i].name] == BodyText(put[i])
    {
      assert i < k || i == k || i > k;
      assert put[i].name == sections[i].name;
    }
    forall name <- m
      ensures IsRemote(name) && exists i :: 0 <= i < |put| && put[i].name == name
    {
      if name == s.name {
        assert put[k].name == name;
      } else {
        var i :| 0 <= i < |sections| && sections[i].name == name;
        assert put[i].name == name;
      }
    }
    ViewIs(m, put);
  }

  lemma ForeignWithout(sections: seq<Section>, k: nat)
    requires k < |sections| && IsRemote(sections[k].name)
    ensures Foreign(Without(sections, k)) == Foreign(sections)
  {
    ForeignConcat(sections[..k], sections[k + 1..]);
    ForeignAround(sections[..k], sections[k], sections[k + 1..]);
    SplitAround(sections, k);
  }

  lemma ForeignReplaced(sections: seq<Section>, k: nat, s: Section)
    requires k < |sections| && IsRemote(sections[k].name) && IsRemote(s.name)
    ensures Foreign(sections[k := s]) == Foreign(sections)
  {
    ForeignAround(sections[..k], s, sections[k + 1..]);
    ForeignAround(sections[..k], sections[k], sections[k + 1..]);
    SplitAround(sections, k);
    SplitAround(sections[k := s], k);
    assert sections[k := s][..k] == sections[..k] && sections[k := s][k + 1..] == sections[k + 1..];
  }

  lemma DropView(sections: seq<Section>, name: string)
    requires UniqueRemotes(sections) && IsRemote(name)
    ensures UniqueRemotes(Dropped(sections, name))
    ensures View(Dropped(sections, name)) == View(sections) - {name}
    ensures Foreign(Dropped(sections, name)) == Foreign(sections)
  {
    var at := Find(sections, name);
    match at {
      case None =>
        ViewMeaning(sections);
        assert name !in View(sections);
      case Some(k) =>
        ForeignWithout(sections, k);
        RemovedUnique(sections, k);
        RemovedView(sections, k);
    }
  }

  function Without(sections: seq<Section>, k: nat): seq<Section>
    requires k < |sections|
  {
    sections[..k] + sections[k + 1..]
  }

  lemma WithoutAt(sections: seq<Section>, k: nat, i: nat)
    requires k < |sections| && i < |sections| - 1
    ensures Without(sections, k)[i] == sections[Shifted(i, k)]
  {
  }

  function Shifted(i: nat, k: nat): nat {
    if i < k then i else i + 1
  }

  lemma RemovedUnique(sections: seq<Section>, k: nat)
    requires k < |sections| && UniqueRemotes(sections)
    ensures UniqueRemotes(Without(sections, k))
  {
    var rest := Without(sections, k);
    forall i, j | 0 <= i < j < |rest| && IsRemote(rest[i].name)
      ensures rest[i].name != rest[j].name
    {
      WithoutAt(sections, k, i);
      WithoutAt(sections, k, j);
    }
  }

  lemma RemovedView(sections: seq<Section>, k: nat)
    requires k < |sections| && UniqueRemotes(sections) && IsRemote(sections[k].name)
    requires UniqueRemotes(Without(sections, k))
    ensures View(Without(sections, k)) == View(sections) - {sections[k].name}
  {
    var rest := Without(sections, k);
    var m := View(sections) - {sections[k].name};
    forall i | 0 <= i < |rest| && IsRemote(rest[i].name)
      ensures rest[i].name in m && m[rest[i].name] == BodyText(rest[i])
    {
      WithoutAt(sections, k, i);
      RemainingSection(sections, k, Shifted(i, k));
    }
    forall name <- m
      ensures IsRemote(name) && exists i :: 0 <= i < |rest| && rest[i].name == name
    {
      RemainingName(sections, k, name);
    }
    ViewIs(m, rest);
  }

  lemma RemainingSection(sections: seq<Section>, k: nat, j: nat)
    requires k < |sections| && j < |sections| && j != k && UniqueRemotes(sections) && IsRemote(sections[j].name)
    ensures sections[j].name != sections[k].name
    ensures sections[j].name in View(sections) && View(sections)[sections[j].name] == BodyText(sections[j])
  {
    ViewMeaning(sections);
    assert j < k || k < j;
  }

  lemma RemainingName(sections: seq<Section>, k: nat, name: string)
    requires k < |sections| && UniqueRemotes(sections) && name in View(sections) && name != sections[k].name
    ensures IsRemote(name) && exists i :: 0 <= i < |Without(sections, k)| && Without(sections, k)[i].name == name
  {
    var j := IndexOf(sections, name);
    StillThere(sections, k, j);
  }

  lemma IndexOf(sections: seq<Section>, name: string) returns (j: nat)
    requires UniqueRemotes(sections) && name in View(sections)
    ensures IsRemote(name) && j < |sections| && sections[j].name == name
  {
    ViewMeaning(sections);
    j :| 0 <= j < |sections| && sections[j].name == name;
  }

  lemma StillThere(sections: seq<Section>, k: nat, j: nat)
    requires k < |sections| && j < |sections| && j != k
    ensures exists i :: 0 <= i < |Without(sections, k)| && Without(sections, k)[i].name == sections[j].name
  {
    var i := if j < k then j else j - 1;
    assert Without(sections, k)[i] == sections[j];
  }

  // ----- runs -----

  datatype Op = PutOp(drive: string, creds: Credentials) | DropOp(drive: string)

  /** The file after putRemote or dropRemote; a put with a malformed value is refused and changes nothing. */
  function Step(raw: string, op: Op): string {
    match op
    case PutOp(drive, c) => if WellFormedCredentials(c) then Print(Put(Parse(raw), RemoteSection(drive, c))) else raw
    case DropOp(drive) =>
      if Find(Parse(raw), RemoteName(drive)).None? then raw else Print(Dropped(Parse(raw), RemoteName(drive)))
  }

  function Run(raw: string, ops: seq<Op>): string
    decreases |ops|
  {
    if ops == [] then raw else Run(Step(raw, ops[0]), ops[1..])
  }

  /** What a remote's section says: nothing but its credentials. */
  function RemoteText(drive: string, c: Credentials): string {
    BodyText(RemoteSection(drive, c))
  }

  function StepView(view: map<string, string>, op: Op): map<string, string> {
    match op
    case PutOp(drive, c) => if WellFormedCredentials(c) then view[RemoteName(drive) := RemoteText(drive, c)] else view
    case DropOp(drive) => view - {RemoteName(drive)}
  }

  function RunView(view: map<string, string>, ops: seq<Op>): map<string, string>
    decreases |ops|
  {
    if ops == [] then view else RunView(StepView(view, ops[0]), ops[1..])
  }

  ghost predicate ValidOp(op: Op) {
    op.PutOp? ==> ValidDrive(op.drive)
  }

  // ----- reading a section's settings -----

  /** What a section sets a key to: the rest of the first line that begins with the key and an equals sign. */
  function ValueOf(lines: seq<string>, key: string): Option<string> {
    if lines == [] then None
    else if key + " = " <= lines[0] then Some(lines[0][|key + " = "|..])
    else ValueOf(lines[1..], key)
  }

  /** The credentials that a section of a drive holds, if it is one of the agent's kind. */
  function CredentialsIn(text: string): Option<Credentials> {
    var lines := Split(text, '\n');
    var accessKey, secretKey := ValueOf(lines, "access_key_id"), ValueOf(lines, "secret_access_key");
    var endpoint := ValueOf(lines, "endpoint");
    if && ValueOf(lines, "type") == Some("s3") && ValueOf(lines, "provider") == Some("Other")
       && ValueOf(lines, "env_auth") == Some("false") && ValueOf(lines, "force_path_style") == Some("false")
       && ValueOf(lines, "acl") == Some("private")
       && accessKey.Some? && secretKey.Some? && endpoint.Some?
    then Some(Credentials(accessKey.value, secretKey.value, endpoint.value))
    else None
  }

  /** Keys without spaces: a setting begins like that of a key only if it is the key's own. */
  lemma OwnKey(key: string, other: string, value: string)
    requires ' ' !in key && ' ' !in other
    ensures key + " = " <= Setting(other, value) <==> key == other
  {
    var begin, line := key + " = ", Setting(other, value);
    assert begin[|key|] == ' ' && line[|other|] == ' ';
    assert forall i | 0 <= i < |key| :: begin[i] == key[i] && key[i] in key;
    assert forall i | 0 <= i < |other| :: line[i] == other[i] && other[i] in other;
    assert begin <= line ==> |key| == |other| && key == line[..|key|] && other == line[..|other|];
    assert key == other ==> line == begin + value;
  }

  function Lines(pairs: seq<(string, string)>): (lines: seq<string>)
    ensures |lines| == |pairs| && forall i | 0 <= i < |pairs| :: lines[i] == Setting(pairs[i].0, pairs[i].1)
  {
    seq(|pairs|, i requires 0 <= i < |pairs| => Setting(pairs[i].0, pairs[i].1))
  }

  lemma {:induction false} FoundSetting(pairs: seq<(string, string)>, i: nat)
    requires i < |pairs| && forall j | 0 <= j < |pairs| :: ' ' !in pairs[j].0
    requires forall j | 0 <= j < i :: pairs[j].0 != pairs[i].0
    ensures ValueOf(Lines(pairs), pairs[i].0) == Some(pairs[i].1)
    decreases i
  {
    OwnKey(pairs[i].0, pairs[0].0, pairs[0].1);
    if i > 0 {
      assert Lines(pairs)[1..] == Lines(pairs[1..]);
      FoundSetting(pairs[1..], i - 1);
    } else {
      var begin := pairs[0].0 + " = ";
      assert Lines(pairs)[0] == begin + pairs[0].1;
    }
  }

  function Pairs(c: Credentials): seq<(string, string)> {
    [("type", "s3"), ("provider", "Other"), ("env_auth", "false"), ("access_key_id", c.accessKey),
     ("secret_access_key", c.secretKey), ("endpoint", c.endpoint), ("force_path_style", "false"), ("acl", "private")]
  }

  lemma SettingsAreFound(c: Credentials, i: nat)
    requires i < 8
    ensures ValueOf(Settings(c), Pairs(c)[i].0) == Some(Pairs(c)[i].1)
  {
    var pairs := Pairs(c);
    assert Lines(pairs) == Settings(c);
    FoundSetting(pairs, i);
  }

  lemma HeaderIsNoSetting(name: string, lines: seq<string>, key: string)
    requires key != "" && key[0] != '['
    ensures ValueOf(["[" + name + "]"] + lines, key) == ValueOf(lines, key)
  {
    var header := "[" + name + "]";
    assert header[0] == '[' && (key + " = ")[0] == key[0];
    assert ([header] + lines)[1..] == lines;
  }

  lemma SectionIsFound(name: string, c: Credentials, i: nat)
    requires i < 8
    ensures ValueOf(SectionLines(name, c), Pairs(c)[i].0) == Some(Pairs(c)[i].1)
  {
    HeaderIsNoSetting(name, Settings(c), Pairs(c)[i].0);
    SettingsAreFound(c, i);
  }

  /** A drive's section holds its credentials, each under its key. */
  lemma CredentialsReadBack(drive: string, c: Credentials)
    requires ValidDrive(drive) && WellFormedCredentials(c)
    ensures CredentialsIn(RemoteText(drive, c)) == Some(c)
  {
    RemoteTextLines(drive, c);
    var name := RemoteName(drive);
    SectionIsFound(name, c, 0);
    SectionIsFound(name, c, 1);
    SectionIsFound(name, c, 2);
    SectionIsFound(name, c, 3);
    SectionIsFound(name, c, 4);
    SectionIsFound(name, c, 5);
    SectionIsFound(name, c, 6);
    SectionIsFound(name, c, 7);
  }

  lemma RemoteTextLines(drive: string, c: Credentials)
    requires ValidDrive(drive) && WellFormedCredentials(c)
    ensures Split(RemoteText(drive, c), '\n') == SectionLines(RemoteName(drive), c)
  {
    var lines := SectionLines(RemoteName(drive), c);
    NoBreaks(drive, c);
    SplitJoin(lines, '\n');
    var text := Join(lines, '\n');
    var n := |lines| - 1;
    JoinAppend(lines[..n], [lines[n]], '\n');
    assert lines[..n] + [lines[n]] == lines;
    assert Join([lines[n]], '\n') == lines[n];
    assert text[|text| - 1] == lines[n][|lines[n]| - 1] == 'e';
    TrimRightPadding(text, "\n", '\n');
  }

  /** The credentials that the file holds for each remote, None for one that is not of the agent's kind. */
  function Stored(sections: seq<Section>): map<string, Option<Credentials>> {
    var view := View(sections);
    map name | name in view :: CredentialsIn(view[name])
  }

  function StepStored(stored: map<string, Option<Credentials>>, op: Op): map<string, Option<Credentials>> {
    match op
    case PutOp(drive, c) => if WellFormedCredentials(c) then stored[RemoteName(drive) := Some(c)] else stored
    case DropOp(drive) => stored - {RemoteName(drive)}
  }

  function RunStored(stored: map<string, Option<Credentials>>, ops: seq<Op>): map<string, Option<Credentials>>
    decreases |ops|
  {
    if ops == [] then stored else RunStored(StepStored(stored, ops[0]), ops[1..])
  }

  lemma StoredSteps(before: seq<Section>, after: seq<Section>, op: Op)
    requires ValidOp(op) && View(after) == StepView(View(before), op)
    ensures Stored(after) == StepStored(Stored(before), op)
  {
    if op.PutOp? && WellFormedCredentials(op.creds) {
      CredentialsReadBack(op.drive, op.creds);
    }
  }

  lemma StepRefines(raw: string, op: Op)
    requires UniqueRemotes(Parse(raw)) && ValidOp(op)
    ensures var before, after := Parse(raw), Parse(Step(raw, op));
            && UniqueRemotes(after)
            && View(after) == StepView(View(before), op)
            && Stored(after) == StepStored(Stored(before), op)
            && Foreign(after) == Foreign(before)
  {
    StepKeepsView(raw, op);
    StoredSteps(Parse(raw), Parse(Step(raw, op)), op);
  }

  lemma StepKeepsView(raw: string, op: Op)
    requires UniqueRemotes(Parse(raw)) && ValidOp(op)
    ensures var before, after := Parse(raw), Parse(Step(raw, op));
            && UniqueRemotes(after)
            && View(after) == StepView(View(before), op)
            && Foreign(after) == Foreign(before)
  {
    var sections := Parse(raw);
    ParseShaped(raw);
    match op {
      case PutOp(drive, c) =>
        if WellFormedCredentials(c) {
          var s := RemoteSection(drive, c);
          RemoteSectionHeaded(drive, c);
          PutKeepsShape(sections, s);
          PutUnique(sections, s);
          PutView(sections, s);
          ReadsBack(Put(sections, s));
          SameViews(Parse(Step(raw, op)), Put(sections, s));
        }
      case DropOp(drive) =>
        var name := RemoteName(drive);
        DropKeepsShape(sections, name);
        DropView(sections, name);
        ReadsBack(Dropped(sections, name));
        if Find(sections, name).Some? {
          SameViews(Parse(Step(raw, op)), Dropped(sections, name));
        }
    }
  }

  /**
   * Any run of puts and drops on any file whose remotes have distinct names is the same run on a map from remotes to
   * credentials, and what is not the agent's keeps its content and its order.
   */
  lemma {:induction false} RunRefines(raw: string, ops: seq<Op>)
    requires UniqueRemotes(Parse(raw)) && forall op <- ops :: ValidOp(op)
    ensures UniqueRemotes(Parse(Run(raw, ops)))
    ensures View(Parse(Run(raw, ops))) == RunView(View(Parse(raw)), ops)
    ensures Stored(Parse(Run(raw, ops))) == RunStored(Stored(Parse(raw)), ops)
    ensures Foreign(Parse(Run(raw, ops))) == Foreign(Parse(raw))
    decreases |ops|
  {
    if ops != [] {
      assert ops[0] in ops;
      StepRefines(raw, ops[0]);
      assert forall op <- ops[1..] :: op in ops;
      RunRefines(Step(raw, ops[0]), ops[1..]);
    }
  }

  /** After a put, on any file, the section that is found for the drive holds its credentials. */
  lemma PutIsRead(raw: string, drive: string, c: Credentials)
    requires ValidDrive(drive) && WellFormedCredentials(c)
    ensures var sections := Parse(Step(raw, PutOp(drive, c)));
            var at := Find(sections, RemoteName(drive));
            at.Some? && CredentialsIn(BodyText(sections[at.value])) == Some(c)
  {
    var sections, s := Parse(raw), RemoteSection(drive, c);
    var put := Put(sections, s);
    ParseShaped(raw);
    RemoteSectionHeaded(drive, c);
    PutKeepsShape(sections, s);
    ReadsBack(put);
    var k := match Find(sections, s.name) case None => |sections| case Some(i) => i;
    assert put[k] == s && forall j | 0 <= j < k :: put[j].name != s.name by {
      forall j | 0 <= j < k
        ensures put[j].name != s.name
      {
        assert put[j] == sections[j] && sections[j] in sections;
      }
    }
    SameFind(Parse(Print(put)), put, s.name, k);
    CredentialsReadBack(drive, c);
  }

  lemma SameFind(a: seq<Section>, b: seq<Section>, name: string, k: nat)
    requires Same(a, b) && k < |b| && b[k].name == name && forall j | 0 <= j < k :: b[j].name != name
    ensures Find(a, name) == Some(k) && BodyText(a[k]) == BodyText(b[k])
  {
    assert SameSection(a[k], b[k]);
    assert a[k] in a;
    forall j | 0 <= j < k
      ensures a[j].name != name
    {
      assert SameSection(a[j], b[j]);
    }
  }

  /** Putting a drive that the file did not have and dropping it again gives back the sections, in order. */
  lemma PutThenDrop(raw: string, drive: string, c: Credentials)
    requires ValidDrive(drive) && WellFormedCredentials(c)
    requires forall s <- Parse(raw) :: s.name != RemoteName(drive)
    ensures Same(Parse(Step(Step(raw, PutOp(drive, c)), DropOp(drive))), Parse(raw))
  {
    var sections, s := Parse(raw), RemoteSection(drive, c);
    ParseShaped(raw);
    RemoteSectionHeaded(drive, c);
    AbsentName(sections, s.name);
    PutKeepsShape(sections, s);
    ReadsBack(sections + [s]);
    var written := Step(raw, PutOp(drive, c));
    var put := Parse(written);
    ParseShaped(written);
    FoundLast(put, sections, s);
    DropKeepsShape(put, s.name);
    ReadsBack(Dropped(put, s.name));
    SameTransitive(Parse(Print(Dropped(put, s.name))), Dropped(put, s.name), sections);
  }

  lemma AbsentName(sections: seq<Section>, name: string)
    requires forall s <- sections :: s.name != name
    ensures Find(sections, name).None?
  {
    assert forall i | 0 <= i < |sections| :: sections[i] in sections;
  }

  lemma SameTransitive(a: seq<Section>, b: seq<Section>, c: seq<Section>)
    requires Same(a, b) && Same(b, c)
    ensures Same(a, c)
  {
    forall i | 0 <= i < |a|
      ensures SameSection(a[i], c[i])
    {
      assert SameSection(a[i], b[i]) && SameSection(b[i], c[i]);
    }
  }

  /** A section that was appended is the one that is found, and without it the others are left. */
  lemma FoundLast(put: seq<Section>, sections: seq<Section>, s: Section)
    requires Same(put, sections + [s]) && forall r <- sections :: r.name != s.name
    ensures Find(put, s.name) == Some(|sections|) && Same(Dropped(put, s.name), sections)
  {
    var n := |sections|;
    assert SameSection(put[n], (sections + [s])[n]);
    forall i | 0 <= i < n
      ensures SameSection(put[i], sections[i]) && put[i].name != s.name
    {
      assert SameSection(put[i], (sections + [s])[i]);
      assert sections[i] in sections;
    }
    assert put[n] in put;
    assert Without(put, n) == put[..n];
  }

  /** rclone.conf, absent or with its content. */
  class RcloneConf {
    var content: Option<string>

    function Text(): string
      reads this
    {
      if content.Some? then content.value else ""
    }

    /** putRemote; `writable` is the outcome of the file operations before the rename. */
    method PutRemote(drive: string, c: Credentials, writable: bool) returns (ok: bool)
      modifies this
      ensures ok ==> WellFormedCredentials(c) && content == Some(Step(old(Text()), PutOp(drive, c)))
      ensures !ok ==> content == old(content) && (!WellFormedCredentials(c) || !writable)
      ensures ok && ValidDrive(drive) ==>
                var sections := Parse(Text());
                var at := Find(sections, RemoteName(drive));
                at.Some? && CredentialsIn(BodyText(sections[at.value])) == Some(c)
    {
      if '\r' in c.accessKey || '\n' in c.accessKey || '\r' in c.secretKey || '\n' in c.secretKey
         || '\r' in c.endpoint || '\n' in c.endpoint {
        return false;
      }
      var section := RemoteSection(drive, c);
      var sections := ReadConf(Text());
      var at := FindSection(sections, section.name);
      if at.Some? {
        sections := sections[at.value := section];
      } else {
        sections := sections + [section];
      }
      ok := WriteConf(sections, writable);
      if ok && ValidDrive(drive) {
        PutIsRead(old(Text()), drive, c);
      }
    }

    /** dropRemote: a file without the section is left as it is. */
    method DropRemote(drive: string, writable: bool) returns (ok: bool)
      modifies this
      ensures ok ==> Text() == Step(old(Text()), DropOp(drive))
      ensures !ok ==> content == old(content) && !writable
      ensures Find(Parse(old(Text())), RemoteName(drive)).None? ==> ok && content == old(content)
    {
      var name := RemoteName(drive);
      var sections := ReadConf(Text());
      var at := FindSection(sections, name);
      if at.None? {
        return true;
      }
      sections := Without(sections, at.value);
      ok := WriteConf(sections, writable);
    }

    /** writeConf: the new file is written aside and renamed, or nothing changes. */
    method WriteConf(sections: seq<Section>, writable: bool) returns (ok: bool)
      modifies this
      ensures ok == writable
      ensures content == if ok then Some(Print(sections)) else old(content)
    {
      var text := Render(sections);
      if writable {
        content := Some(text);
      }
      ok := writable;
    }
  }
}
