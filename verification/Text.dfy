/** Python's `strip`, `split('\n')` and `'\n'.join` on ASCII text. */
module Text {

  predicate IsBlank(c: char) {
    c == ' ' || '\t' <= c <= '\r' || 28 as char <= c <= 31 as char
  }

  function LStrip(s: string): string {
    if s != "" && IsBlank(s[0]) then LStrip(s[1..]) else s
  }

  function RStrip(s: string): string {
    if s != "" && IsBlank(s[|s| - 1]) then RStrip(s[..|s| - 1]) else s
  }

  function Strip(s: string): string { RStrip(LStrip(s)) }

  predicate Trimmed(s: string) {
    s == "" || (!IsBlank(s[0]) && !IsBlank(s[|s| - 1]))
  }

  lemma {:induction false} LStripTrims(s: string)
    ensures LStrip(s) == "" || !IsBlank(LStrip(s)[0])
  {
    if s != "" && IsBlank(s[0]) {
      LStripTrims(s[1..]);
    }
  }

  lemma {:induction false} RStripTrims(s: string)
    ensures RStrip(s) <= s
    ensures RStrip(s) == "" || !IsBlank(RStrip(s)[|RStrip(s)| - 1])
  {
    if s != "" && IsBlank(s[|s| - 1]) {
      RStripTrims(s[..|s| - 1]);
    }
  }

  lemma StripTrims(s: string)
    ensures Trimmed(Strip(s))
  {
    LStripTrims(s);
    RStripTrims(LStrip(s));
  }

  lemma StripOfTrimmed(s: string)
    requires Trimmed(s)
    ensures Strip(s) == s
  {
  }

  /** The ASCII blanks by number: tab to carriage return, the four separators, space. */
  lemma BlankIff(c: char)
    ensures IsBlank(c) <==> c as int in [9, 10, 11, 12, 13, 28, 29, 30, 31, 32]
  {
  }

  lemma {:induction false} LStripSkips(before: string, rest: string, s: string)
    requires s == before + rest && forall i :: 0 <= i < |before| ==> IsBlank(before[i])
    ensures LStrip(s) == LStrip(rest)
    decreases |before|
  {
    if before != "" {
      assert s[1..] == before[1..] + rest;
      LStripSkips(before[1..], rest, s[1..]);
    } else {
      assert s == rest;
    }
  }

  lemma {:induction false} RStripSkips(rest: string, after: string, s: string)
    requires s == rest + after && forall i :: 0 <= i < |after| ==> IsBlank(after[i])
    ensures RStrip(s) == RStrip(rest)
    decreases |after|
  {
    if after != "" {
      assert s[..|s| - 1] == rest + after[..|after| - 1];
      RStripSkips(rest, after[..|after| - 1], s[..|s| - 1]);
    } else {
      assert s == rest;
    }
  }

  /** Stripping takes away the blanks around a text, all of them and nothing else. */
  lemma StripIs(before: string, core: string, after: string)
    requires forall i :: 0 <= i < |before| ==> IsBlank(before[i])
    requires forall i :: 0 <= i < |after| ==> IsBlank(after[i])
    requires core != "" && !IsBlank(core[0]) && !IsBlank(core[|core| - 1])
    ensures Strip(before + core + after) == core
  {
    assert before + core + after == before + (core + after);
    LStripSkips(before, core + after, before + core + after);
    RStripSkips(core, after, core + after);
  }

  // ----- Lines -----

  function Lines(text: string): (lines: seq<string>)
    ensures |lines| > 0
  {
    if text == "" then [""]
    else
      var n := |text| - 1;
      var before := Lines(text[..n]);
      var k := |before| - 1;
      if text[n] == '\n' then before + [""] else before[..k] + [before[k] + [text[n]]]
  }

  function JoinLines(lines: seq<string>): string {
    if lines == [] then ""
    else if |lines| == 1 then lines[0]
    else JoinLines(lines[..|lines| - 1]) + "\n" + lines[|lines| - 1]
  }

  ghost predicate IsLine(s: string) { '\n' !in s }

  ghost predicate AreLines(lines: seq<string>) {
    forall i :: 0 <= i < |lines| ==> IsLine(lines[i])
  }

  lemma {:induction false} LinesAreLines(text: string)
    ensures AreLines(Lines(text))
  {
    if text != "" {
      LinesAreLines(text[..|text| - 1]);
    }
  }

  /** Splitting and joining again is the identity. */
  lemma {:induction false} JoinOfLines(text: string)
    ensures JoinLines(Lines(text)) == text
  {
    if text != "" {
      var n := |text| - 1;
      JoinOfLines(text[..n]);
      StartLine(Lines(text[..n]));
      ExtendLastLine(Lines(text[..n]), text[n]);
      assert text == text[..n] + [text[n]];
    }
  }

  lemma StartLine(before: seq<string>)
    requires |before| > 0
    ensures JoinLines(before + [""]) == JoinLines(before) + "\n"
  {
    assert (before + [""])[..|before|] == before;
  }

  lemma JoinNext(before: seq<string>, line: string, lines: seq<string>)
    requires lines == before + [line]
    ensures JoinLines(lines) == if before == [] then line else JoinLines(before) + "\n" + line
  {
    assert lines[..|lines| - 1] == before;
  }

  lemma ExtendLast(init: seq<string>, last: string, before: seq<string>, more: string, after: seq<string>)
    requires before == init + [last] && after == init + [last + more]
    ensures JoinLines(after) == JoinLines(before) + more
  {
    JoinNext(init, last, before);
    JoinNext(init, last + more, after);
    if init != [] {
      Associative(JoinLines(init) + "\n", last, more);
    }
  }

  lemma Associative(a: string, b: string, c: string)
    ensures a + (b + c) == (a + b) + c
  {
  }

  lemma ExtendLastLine(before: seq<string>, c: char)
    requires |before| > 0
    ensures var k := |before| - 1; JoinLines(before[..k] + [before[k] + [c]]) == JoinLines(before) + [c]
  {
    var k := |before| - 1;
    ExtendLast(before[..k], before[k], before, [c], before[..k] + [before[k] + [c]]);
  }

  lemma {:induction false} LinesOfExtended(text: string, line: string, whole: string)
    requires IsLine(line) && whole == text + line
    ensures Lines(whole) == Lines(text)[..|Lines(text)| - 1] + [Lines(text)[|Lines(text)| - 1] + line]
    decreases |line|
  {
    var before := Lines(text);
    var k := |before| - 1;
    if line == "" {
      assert whole == text;
      assert before[k] + "" == before[k];
    } else {
      var m := |line| - 1;
      assert line == line[..m] + [line[m]] && line[m] != '\n';
      assert whole == text + line[..m] + [line[m]];
      LinesOfExtended(text, line[..m], text + line[..m]);
      LinesAppend(text + line[..m], line[m], before[..k], before[k] + line[..m]);
      Associative(before[k], line[..m], [line[m]]);
    }
  }

  lemma LinesAppend(text: string, c: char, init: seq<string>, last: string)
    requires c != '\n' && Lines(text) == init + [last]
    ensures Lines(text + [c]) == init + [last + [c]]
  {
    assert (text + [c])[..|text|] == text;
  }

  lemma LinesOfNext(text: string, line: string, whole: string)
    requires IsLine(line) && whole == text + "\n" + line
    ensures Lines(whole) == Lines(text) + [line]
  {
    var broken := text + "\n";
    assert broken[..|broken| - 1] == text;
    assert Lines(broken) == Lines(text) + [""];
    LinesOfExtended(broken, line, whole);
    assert "" + line == line;
  }

  /** Joining lines and splitting again is the identity. */
  lemma {:induction false} LinesOfJoin(lines: seq<string>)
    requires |lines| > 0 && AreLines(lines)
    ensures Lines(JoinLines(lines)) == lines
  {
    var k := |lines| - 1;
    if k == 0 {
      LinesOfExtended("", lines[0], lines[0]);
      assert "" + lines[0] == lines[0];
    } else {
      LinesOfJoin(lines[..k]);
      LinesOfNext(JoinLines(lines[..k]), lines[k], JoinLines(lines));
    }
    assert lines == lines[..k] + [lines[k]];
  }
}
