/** A text and the lines std::getline takes off it. */
module TextLines {
  import opened Search
  import opened ConfigLines

  /** The next line, and the text behind the line feed that ends it. */
  function NextLine(text: string): (r: (string, string))
    requires text != ""
    ensures |r.1| < |text|
  {
    FoundChar(text, '\n', 0);
    match FindChar(text, '\n', 0)
    case None => (text, "")
    case Some(i) => (text[..i], text[i + 1..])
  }

  function Lines(text: string): seq<string>
    decreases |text|
  {
    if text == "" then [] else
    var (line, rest) := NextLine(text);
    [line] + Lines(rest)
  }

  /** The lines one after the other, each ended by a line feed. */
  function Text(lines: seq<string>): string {
    if lines == [] then "" else lines[0] + "\n" + Text(lines[1..])
  }

  predicate AreLines(lines: seq<string>) {
    forall line :: line in lines ==> '\n' !in line
  }

  lemma FirstLine(line: string, rest: string)
    requires '\n' !in line
    ensures Lines(line + "\n" + rest) == [line] + Lines(rest)
  {
    hide FindChar;
    var text := line + "\n" + rest;
    assert text == "" + (line + "\n" + rest);
    SeparatorFound("", line, '\n', rest, text);
    assert text[..|line|] == line && text[|line| + 1..] == rest;
  }

  lemma LastLine(line: string)
    requires line != "" && '\n' !in line
    ensures Lines(line) == [line]
  {
    FoundChar(line, '\n', 0);
    hide FindChar;
    assert Lines("") == [];
  }

  /** Lines written to a text are the lines read from it. */
  lemma {:induction false} LinesOfText(lines: seq<string>)
    requires AreLines(lines)
    ensures Lines(Text(lines)) == lines
    decreases |lines|
  {
    hide Lines;
    if lines == [] {
      NoLines();
    } else {
      LinesOfText(lines[1..]);
      FirstLine(lines[0], Text(lines[1..]));
      assert lines == [lines[0]] + lines[1..];
    }
  }

  lemma NoLines()
    ensures Lines("") == []
  {
  }

  /** The text is its lines, each ended by a line feed, which may be missing behind a last line that is not empty. */
  predicate IsTextOf(text: string, lines: seq<string>) {
    && AreLines(lines)
    && (text == Text(lines) || (lines != [] && lines[|lines| - 1] != "" && text + "\n" == Text(lines)))
  }

  lemma NextLineSplits(text: string)
    requires text != ""
    ensures var (line, rest) := NextLine(text);
      '\n' !in line && (text == line + "\n" + rest || (text == line && rest == ""))
  {
    FoundChar(text, '\n', 0);
    if FindChar(text, '\n', 0).None? {
      NoneFound(text);
    } else {
      hide FindChar;
      var i := FindChar(text, '\n', 0).value;
      assert text[0..i] == text[..i];
    }
  }

  lemma NoneFound(text: string)
    requires FindChar(text, '\n', 0).None?
    ensures '\n' !in text
  {
    forall k | 0 <= k < |text| ensures text[k] != '\n' {
      assert !OccursAt(text, "\n", k);
      assert text[k..k + 1] == [text[k]];
    }
  }

  lemma {:induction false} ReadIsTextOf(text: string)
    ensures IsTextOf(text, Lines(text))
    decreases |text|
  {
    hide FindChar;
    if text != "" {
      NextLineSplits(text);
      var (line, rest) := NextLine(text);
      hide NextLine;
      var later := Lines(rest);
      ReadIsTextOf(rest);
      OneMoreLine(text, line, rest, later);
    }
  }

  lemma OneMoreLine(text: string, line: string, rest: string, later: seq<string>)
    requires '\n' !in line && IsTextOf(rest, later) && text != ""
    requires text == line + "\n" + rest || (text == line && rest == "" && later == [])
    ensures IsTextOf(text, [line] + later)
  {
    var lines := [line] + later;
    assert lines[1..] == later;
    assert Text(lines) == line + "\n" + Text(later);
    if text == line + "\n" + rest {
      if rest + "\n" == Text(later) { assert text + "\n" == line + "\n" + (rest + "\n"); }
    } else {
      assert Text(later) == "";
    }
  }

  lemma {:induction false} TextOfIsRead(text: string, lines: seq<string>)
    requires AreLines(lines) && lines != [] && lines[|lines| - 1] != "" && text + "\n" == Text(lines)
    ensures Lines(text) == lines
    decreases |lines|
  {
    hide Lines;
    var line, later := lines[0], lines[1..];
    assert lines == [line] + later;
    if later == [] {
      assert text + "\n" == line + "\n";
      assert text == (line + "\n")[..|line|] == line;
      LastLine(line);
    } else {
      EndsWithLineFeed(later);
      var rest := Text(later)[..|Text(later)| - 1];
      assert Text(later) == rest + "\n";
      assert text + "\n" == line + "\n" + rest + "\n";
      assert text == (line + "\n" + rest + "\n")[..|text|] == line + "\n" + rest;
      TextOfIsRead(rest, later);
      FirstLine(line, rest);
    }
  }

  lemma {:induction false} EndsWithLineFeed(lines: seq<string>)
    requires lines != []
    ensures Text(lines) != "" && Text(lines)[|Text(lines)| - 1] == '\n'
  {
    if |lines| > 1 { EndsWithLineFeed(lines[1..]); }
  }

  /** Exactly which lines a text is read as. */
  lemma LinesExactly(text: string, lines: seq<string>)
    ensures Lines(text) == lines <==> IsTextOf(text, lines)
  {
    hide Lines;
    ReadIsTextOf(text);
    if IsTextOf(text, lines) {
      if text == Text(lines) { LinesOfText(lines); } else { TextOfIsRead(text, lines); }
    }
  }
}
