/** Section parser for model cards (agentpick_data/src/hf_vectorizer/parsing.py). Reading
    the file is not modelled: parsing starts from its text. */
module Readme {
  import opened Basics
  import opened Text

  datatype Section = Section(header: string, content: string)

  // ----- What parsing means, in three passes -----

  predicate IsFence(line: string) { Strip(line) == "---" }

  predicate IsHeader(line: string) { "## " <= line }

  /** Fences toggle front matter; fences and front matter are not visible. The second
      component says whether front matter is open at the end. */
  function Visible(lines: seq<string>): (seq<string>, bool) {
    if lines == [] then ([], false)
    else
      var n := |lines| - 1;
      var (before, hidden) := Visible(lines[..n]);
      if IsFence(lines[n]) then (before, !hidden)
      else if hidden then (before, hidden)
      else (before + [lines[n]], hidden)
  }

  datatype Block = Block(header: string, body: seq<string>)

  /** A header line opens a block; other lines go to the last block, if there is one. */
  function Blocks(lines: seq<string>): seq<Block> {
    if lines == [] then []
    else
      var n := |lines| - 1;
      var before := Blocks(lines[..n]);
      if IsHeader(lines[n]) then before + [Block(Strip(lines[n][3..]), [])]
      else if before == [] then []
      else before[..|before| - 1] + [Extended(before[|before| - 1], lines[n])]
  }

  function Extended(b: Block, line: string): Block { Block(b.header, b.body + [line]) }

  function BlockText(b: Block): string { Strip(JoinLines(b.body)) }

  predicate Kept(b: Block) { b.header != "" && BlockText(b) != "" }

  function Saved(blocks: seq<Block>): seq<Section> {
    if blocks == [] then []
    else
      var n := |blocks| - 1;
      var before := Saved(blocks[..n]);
      if Kept(blocks[n]) then before + [Section(blocks[n].header, BlockText(blocks[n]))] else before
  }

  function Sections(text: string): seq<Section> {
    var sections := Saved(Blocks(Visible(Lines(text)).0));
    if sections == [] && Strip(text) != "" then [Section("Full Content", Strip(text))] else sections
  }

  // ----- The program: one pass over the lines -----

  /** The sections so far, without the open block. */
  ghost predicate InProgress(blocks: seq<Block>, sections: seq<Section>, current: Option<string>, body: seq<string>) {
    if current == None then blocks == [] && sections == [] && body == []
    else
      && |blocks| > 0
      && sections == Saved(blocks[..|blocks| - 1])
      && blocks[|blocks| - 1] == Block(current.value, body)
  }

  lemma VisibleNext(lines: seq<string>, i: nat)
    requires i < |lines|
    ensures var (before, hidden) := Visible(lines[..i]);
      Visible(lines[..i + 1]) == if IsFence(lines[i]) then (before, !hidden)
                                 else if hidden then (before, hidden) else (before + [lines[i]], hidden)
  {
    assert lines[..i + 1][..i] == lines[..i];
  }

  lemma BlocksNext(lines: seq<string>, line: string)
    ensures var before := Blocks(lines);
      Blocks(lines + [line]) == if IsHeader(line) then before + [Block(Strip(line[3..]), [])]
                                else if before == [] then []
                                else before[..|before| - 1] + [Extended(before[|before| - 1], line)]
  {
    assert (lines + [line])[..|lines|] == lines;
  }

  lemma HeaderStep(blocks: seq<Block>, sections: seq<Section>, current: Option<string>, body: seq<string>, header: string)
    requires InProgress(blocks, sections, current, body)
    ensures InProgress(blocks + [Block(header, [])], Save(sections, current, body), Some(header), [])
  {
    assert (blocks + [Block(header, [])])[..|blocks|] == blocks;
    if current.Some? {
      SavedLast(blocks);
    }
  }

  lemma ContentStep(blocks: seq<Block>, sections: seq<Section>, current: Option<string>, body: seq<string>, line: string)
    requires InProgress(blocks, sections, current, body) && current.Some?
    ensures InProgress(blocks[..|blocks| - 1] + [Extended(blocks[|blocks| - 1], line)], sections, current, body + [line])
  {
    var init := blocks[..|blocks| - 1];
    assert (init + [Extended(blocks[|blocks| - 1], line)])[..|init|] == init;
  }

  method ParseReadme(text: string) returns (sections: seq<Section>)
    ensures sections == Sections(text)
  {
    sections := [];
    var lines := Lines(text);
    var current: Option<string> := None;
    var content: seq<string> := [];
    var inFrontmatter := false;
    for i := 0 to |lines|
      invariant inFrontmatter == Visible(lines[..i]).1
      invariant InProgress(Blocks(Visible(lines[..i]).0), sections, current, content)
    {
      var line := lines[i];
      VisibleNext(lines, i);
      if IsFence(line) {
        inFrontmatter := !inFrontmatter;
        continue;
      }
      if inFrontmatter {
        continue;
      }
      ghost var seen := Visible(lines[..i]).0;
      BlocksNext(seen, line);
      if IsHeader(line) {
        HeaderStep(Blocks(seen), sections, current, content, Strip(line[3..]));
        sections := Save(sections, current, content);
        current := Some(Strip(line[3..]));
        content := [];
      } else if current.Some? {
        ContentStep(Blocks(seen), sections, current, content, line);
        content := content + [line];
      }
    }
    assert lines[..|lines|] == lines;
    if current.Some? {
      SavedLast(Blocks(Visible(lines).0));
    }
    sections := Save(sections, current, content);
    if sections == [] && Strip(text) != "" {
      sections := [Section("Full Content", Strip(text))];
    }
  }

  /** Saving the open section: it needs a header and text. */
  function Save(sections: seq<Section>, current: Option<string>, body: seq<string>): seq<Section> {
    if current.Some? && Kept(Block(current.value, body))
    then sections + [Section(current.value, BlockText(Block(current.value, body)))] else sections
  }

  lemma SavedLast(blocks: seq<Block>)
    requires |blocks| > 0
    ensures var last := blocks[|blocks| - 1];
      Saved(blocks) == Save(Saved(blocks[..|blocks| - 1]), Some(last.header), last.body)
  {
    assert blocks[|blocks| - 1] == Block(blocks[|blocks| - 1].header, blocks[|blocks| - 1].body);
  }

  // ----- Every parse -----

  lemma {:induction false} SavedNonempty(blocks: seq<Block>)
    ensures forall i :: 0 <= i < |Saved(blocks)| ==>
      Saved(blocks)[i].header != "" && Saved(blocks)[i].content != "" && Trimmed(Saved(blocks)[i].content)
  {
    if blocks != [] {
      var n := |blocks| - 1;
      SavedNonempty(blocks[..n]);
      StripTrims(JoinLines(blocks[n].body));
    }
  }

  /** No section is empty, and only blank cards have no section. */
  lemma SectionsNonempty(text: string)
    ensures forall i :: 0 <= i < |Sections(text)| ==>
      Sections(text)[i].header != "" && Sections(text)[i].content != "" && Trimmed(Sections(text)[i].content)
    ensures Sections(text) == [] ==> Strip(text) == ""
  {
    SavedNonempty(Blocks(Visible(Lines(text)).0));
    StripTrims(text);
  }

  // ----- Parsing undoes printing -----

  ghost predicate Printable(s: Section) {
    && s.header != "" && Trimmed(s.header) && IsLine(s.header)
    && s.content != "" && Trimmed(s.content)
    && forall i :: 0 <= i < |Lines(s.content)| ==> !IsFence(Lines(s.content)[i]) && !IsHeader(Lines(s.content)[i])
  }

  function HeaderLine(s: Section): string { "## " + s.header }

  function Printed(sections: seq<Section>): seq<string> {
    if sections == [] then []
    else
      var n := |sections| - 1;
      Printed(sections[..n]) + [HeaderLine(sections[n])] + Lines(sections[n].content)
  }

  function Print(sections: seq<Section>): string { JoinLines(Printed(sections)) }

  ghost predicate IsVisibleLine(line: string) { IsLine(line) && !IsFence(line) }

  ghost predicate AreVisible(lines: seq<string>) {
    forall i :: 0 <= i < |lines| ==> IsVisibleLine(lines[i])
  }

  lemma HeaderLineVisible(s: Section)
    requires Printable(s)
    ensures IsVisibleLine(HeaderLine(s)) && IsHeader(HeaderLine(s))
    ensures Strip(HeaderLine(s)[3..]) == s.header
  {
    var line := HeaderLine(s);
    assert line[3..] == s.header;
    StripOfTrimmed(s.header);
    StripOfTrimmed(line);
    assert line[0] == '#';
  }

  lemma SectionVisible(s: Section)
    requires Printable(s)
    ensures IsVisibleLine(HeaderLine(s)) && AreVisible(Lines(s.content))
  {
    HeaderLineVisible(s);
    LinesAreLines(s.content);
  }

  lemma VisibleConcat(before: seq<string>, header: string, body: seq<string>)
    requires AreVisible(before) && IsVisibleLine(header) && AreVisible(body)
    ensures AreVisible(before + [header] + body) && before + [header] + body != []
  {
  }

  lemma {:induction false} PrintedVisible(sections: seq<Section>)
    requires forall i :: 0 <= i < |sections| ==> Printable(sections[i])
    ensures AreVisible(Printed(sections))
    ensures sections != [] ==> Printed(sections) != []
  {
    if sections != [] {
      var n := |sections| - 1;
      PrintedVisible(sections[..n]);
      SectionVisible(sections[n]);
      VisibleConcat(Printed(sections[..n]), HeaderLine(sections[n]), Lines(sections[n].content));
    }
  }

  lemma {:induction false} VisibleAll(lines: seq<string>)
    requires AreVisible(lines)
    ensures Visible(lines) == (lines, false)
  {
    if lines != [] {
      var n := |lines| - 1;
      VisibleAll(lines[..n]);
      assert IsVisibleLine(lines[n]);
      assert lines == lines[..n] + [lines[n]];
    }
  }

  /** Lines that are no headers extend the open block. */
  lemma {:induction false} BlocksExtended(lines: seq<string>, open: Block, before: seq<Block>, body: seq<string>, all: seq<string>)
    requires Blocks(lines) == before + [open] && all == lines + body
    requires forall i :: 0 <= i < |body| ==> !IsHeader(body[i])
    ensures Blocks(all) == before + [Block(open.header, open.body + body)]
    decreases |body|
  {
    if body == [] {
      assert all == lines;
      assert open.body + body == open.body;
    } else {
      var n := |body| - 1;
      var shorter := lines + body[..n];
      BlocksExtended(lines, open, before, body[..n], shorter);
      assert all == shorter + [body[n]];
      BlocksNext(shorter, body[n]);
      assert open.body + body[..n] + [body[n]] == open.body + body;
    }
  }

  function BlocksOf(sections: seq<Section>): (r: seq<Block>)
    ensures |r| == |sections|
  {
    if sections == [] then []
    else
      var n := |sections| - 1;
      BlocksOf(sections[..n]) + [Block(sections[n].header, Lines(sections[n].content))]
  }

  lemma BlocksNextSection(printed: seq<string>, blocks: seq<Block>, s: Section, headed: seq<string>, all: seq<string>)
    requires Blocks(printed) == blocks && Printable(s)
    requires headed == printed + [HeaderLine(s)] && all == headed + Lines(s.content)
    ensures Blocks(all) == blocks + [Block(s.header, Lines(s.content))]
  {
    HeaderLineVisible(s);
    BlocksNext(printed, HeaderLine(s));
    BlocksExtended(headed, Block(s.header, []), blocks, Lines(s.content), all);
    assert [] + Lines(s.content) == Lines(s.content);
  }

  lemma {:induction false} BlocksOfPrinted(sections: seq<Section>)
    requires forall i :: 0 <= i < |sections| ==> Printable(sections[i])
    ensures Blocks(Printed(sections)) == BlocksOf(sections)
  {
    if sections != [] {
      var n := |sections| - 1;
      BlocksOfPrinted(sections[..n]);
      BlocksNextSection(Printed(sections[..n]), BlocksOf(sections[..n]), sections[n],
                        Printed(sections[..n]) + [HeaderLine(sections[n])], Printed(sections));
    }
  }

  lemma SavedNext(blocks: seq<Block>, b: Block)
    requires Kept(b)
    ensures Saved(blocks + [b]) == Saved(blocks) + [Section(b.header, BlockText(b))]
  {
    assert (blocks + [b])[..|blocks|] == blocks;
  }

  lemma SectionKept(s: Section)
    requires Printable(s)
    ensures Kept(Block(s.header, Lines(s.content))) && BlockText(Block(s.header, Lines(s.content))) == s.content
  {
    JoinOfLines(s.content);
    StripOfTrimmed(s.content);
  }

  lemma {:induction false} SavedOfBlocks(sections: seq<Section>)
    requires forall i :: 0 <= i < |sections| ==> Printable(sections[i])
    ensures Saved(BlocksOf(sections)) == sections
  {
    if sections != [] {
      var n := |sections| - 1;
      var s := sections[n];
      SavedOfBlocks(sections[..n]);
      SectionKept(s);
      SavedNext(BlocksOf(sections[..n]), Block(s.header, Lines(s.content)));
      assert sections == sections[..n] + [s];
    }
  }

  /** Printing a list of sections and parsing the text gives the list back. */
  lemma ParseUndoesPrint(sections: seq<Section>)
    requires sections != [] && forall i :: 0 <= i < |sections| ==> Printable(sections[i])
    ensures Sections(Print(sections)) == sections
  {
    var printed := Printed(sections);
    PrintedVisible(sections);
    assert AreLines(printed) by {
      forall i | 0 <= i < |printed| ensures IsLine(printed[i]) {
        assert IsVisibleLine(printed[i]);
      }
    }
    LinesOfJoin(printed);
    VisibleAll(printed);
    BlocksOfPrinted(sections);
    SavedOfBlocks(sections);
  }

  // ----- Cards without sections, and front matter -----

  lemma {:induction false} NoHeaderNoBlock(lines: seq<string>)
    requires forall i :: 0 <= i < |lines| ==> !("## " <= lines[i])
    ensures Blocks(Visible(lines).0) == []
    ensures forall i :: 0 <= i < |Visible(lines).0| ==> !("## " <= Visible(lines).0[i])
  {
    if lines != [] {
      var n := |lines| - 1;
      NoHeaderNoBlock(lines[..n]);
      var before := Visible(lines[..n]).0;
      assert (before + [lines[n]])[..|before|] == before;
    }
  }

  /** A card without a header line is one section, its whole text. */
  lemma NoHeaderWholeCard(text: string)
    requires forall i :: 0 <= i < |Lines(text)| ==> !("## " <= Lines(text)[i])
    ensures Sections(text) == if Strip(text) == "" then [] else [Section("Full Content", Strip(text))]
  {
    NoHeaderNoBlock(Lines(text));
  }

  lemma {:induction false} HiddenLines(lines: seq<string>, fence: string, front: seq<string>)
    requires lines == [fence] + front && Strip(fence) == "---"
    requires forall i :: 0 <= i < |front| ==> Strip(front[i]) != "---"
    ensures Visible(lines) == ([], true)
    decreases |front|
  {
    if front == [] {
      assert lines[..0] == [] && lines[0] == fence;
    } else {
      var n := |lines| - 1;
      assert lines[..n] == [fence] + front[..|front| - 1];
      HiddenLines(lines[..n], fence, front[..|front| - 1]);
    }
  }

  lemma {:induction false} VisibleAfter(before: seq<string>, rest: seq<string>, all: seq<string>)
    requires Visible(before) == ([], false) && AreVisible(rest) && all == before + rest
    ensures Visible(all) == (rest, false)
    decreases |rest|
  {
    if rest == [] {
      assert all == before;
    } else {
      var n := |rest| - 1;
      assert all == before + rest[..n] + [rest[n]] && rest == rest[..n] + [rest[n]];
      VisibleAfter(before, rest[..n], before + rest[..n]);
      assert IsVisibleLine(rest[n]);
      VisibleLast(before + rest[..n], rest[n], all, rest[..n]);
    }
  }

  lemma VisibleLast(lines: seq<string>, line: string, all: seq<string>, visible: seq<string>)
    requires all == lines + [line] && Visible(lines) == (visible, false) && IsVisibleLine(line)
    ensures Visible(all) == (visible + [line], false)
  {
    assert all[..|all| - 1] == lines;
  }

  lemma FrontMatterHidden(open: string, front: seq<string>, close: string, before: seq<string>)
    requires Strip(open) == "---" && Strip(close) == "---" && before == [open] + front + [close]
    requires forall i :: 0 <= i < |front| ==> Strip(front[i]) != "---"
    ensures Visible(before) == ([], false)
  {
    HiddenLines([open] + front, open, front);
    assert before[..|before| - 1] == [open] + front;
  }

  /** Front matter between two fence lines is not part of the sections, whatever it holds. */
  lemma FrontMatterIgnored(open: string, front: seq<string>, close: string, sections: seq<Section>, lines: seq<string>)
    requires IsLine(open) && IsLine(close) && Strip(open) == "---" && Strip(close) == "---"
    requires forall i :: 0 <= i < |front| ==> IsLine(front[i]) && Strip(front[i]) != "---"
    requires sections != [] && forall i :: 0 <= i < |sections| ==> Printable(sections[i])
    requires lines == [open] + front + [close] + Printed(sections)
    ensures Sections(JoinLines(lines)) == sections
  {
    var printed := Printed(sections);
    PrintedVisible(sections);
    assert AreLines(lines) by {
      forall i | 0 <= i < |printed| ensures IsLine(printed[i]) {
        assert IsVisibleLine(printed[i]);
      }
    }
    LinesOfJoin(lines);
    FrontMatterHidden(open, front, close, [open] + front + [close]);
    VisibleAfter([open] + front + [close], printed, lines);
    BlocksOfPrinted(sections);
    SavedOfBlocks(sections);
  }
}
