/** `MarkdownGenerator`: ATX headers, underlined (setext) headers and blockquotes. */
module MarkdownGenerator {
  import opened Wrappers
  import opened Strings

  const HeaderRangeError := "Heading number must be more than 0 and less than 7."
  const UnderlineRangeError := "Heading number must be more than 0 and less than 2."

  /** `header`: `headerLevel` hashes, a space and the trimmed text, and with `closing`
      a space and the same hashes again; levels outside 1..6 are rejected. */
  function Header(text: string, headerLevel: int, closing: bool := false): (r: Result<string, string>)
    ensures r.Failure? <==> headerLevel < 1 || headerLevel > 6
    ensures r.Failure? ==> r.error == HeaderRangeError
    ensures r.Success? ==>
      var line := r.value;
      && LeadingRun('#', line) == headerLevel
      && |line| > headerLevel && line[headerLevel] == ' '
      && (!closing ==> line[headerLevel + 1..] == Trim(text))
      && (closing ==> line[headerLevel + 1..] == Trim(text) + " " + Repeat('#', headerLevel))
  {
    if headerLevel < 1 || headerLevel > 6 then Failure(HeaderRangeError)
    else
      var headers := Repeat('#', headerLevel);
      var sanitizedText := Trim(text);
      var rest := if closing then " " + sanitizedText + " " + headers else " " + sanitizedText;
      LeadingRunOfRepeat('#', headerLevel, rest);
      Success(headers + rest)
  }

  /** `underlineHeader`: the trimmed text, then a rule of the same length made of `=`
      for level 1 or `-` for level 2; other levels are rejected. */
  function UnderlineHeader(text: string, headerLevel: int): (r: Result<seq<string>, string>)
    ensures r.Failure? <==> headerLevel < 1 || headerLevel > 2
    ensures r.Failure? ==> r.error == UnderlineRangeError
    ensures r.Success? ==>
      && |r.value| == 2
      && r.value[0] == Trim(text)
      && |r.value[1]| == |r.value[0]|
      && forall i :: 0 <= i < |r.value[1]| ==> r.value[1][i] == (if headerLevel == 1 then '=' else '-')
  {
    if headerLevel < 1 || headerLevel > 2 then Failure(UnderlineRangeError)
    else
      var sanitizedText := Trim(text);
      var header := if headerLevel == 1 then Repeat('=', |sanitizedText|) else Repeat('-', |sanitizedText|);
      Success([sanitizedText, header])
  }

  /** One blockquote line: an empty line becomes the bare marker, any other line the
      marker, a space and the trimmed line. */
  function QuoteLine(line: string): string
  {
    if line == "" then ">" else "> " + Trim(line)
  }

  /** `blockquote`: quotes `text` line by line. */
  function Blockquote(text: string): (quoted: seq<string>)
    ensures |quoted| == |Lines(text)|
    ensures forall k :: 0 <= k < |quoted| ==> quoted[k] == QuoteLine(Lines(text)[k])
  {
    var lines := Lines(text);
    seq(|lines|, k requires 0 <= k < |lines| => QuoteLine(lines[k]))
  }

  /** What a quoted line says once its marker is removed. */
  function Unquote(line: string): string
  {
    if line == ">" then "" else if |line| >= 2 && line[..2] == "> " then line[2..] else line
  }

  /** A quoted line starts with the marker and has no line break if the input line
      has none; removing the marker gives back the trimmed input line. */
  lemma QuoteLineFacts(x: string)
    requires '\n' !in x
    ensures var q := QuoteLine(x);
      q[0] == '>' && '\n' !in q && Unquote(q) == Trim(x)
  {
    if x == "" {
      assert TrimStart(x) == x;
    } else {
      TrimSpec(x);
      var a := |x| - |TrimStart(x)|;
      var t := Trim(x);
      var q := "> " + t;
      assert t == x[a..a + |t|];
      assert '\n' !in t by {
        forall i | 0 <= i < |t|
          ensures t[i] != '\n'
        {
          assert t[i] == x[a + i];
        }
      }
      assert q[..2] == "> " && q[2..] == t;
    }
  }

  /** One output line per input line (after `\r\n` is normalised to `\n`), each
      starting with the `>` marker and free of line breaks; removing the marker gives
      back the input line with its surrounding whitespace trimmed. */
  lemma BlockquoteLines(text: string)
    ensures var quoted := Blockquote(text);
      && |quoted| == CountChar('\n', text) + 1
      && forall k :: 0 <= k < |quoted| ==>
           && quoted[k][0] == '>'
           && '\n' !in quoted[k]
           && Unquote(quoted[k]) == Trim(Lines(text)[k])
  {
    var quoted := Blockquote(text);
    var lines := Lines(text);
    forall k | 0 <= k < |quoted|
      ensures quoted[k][0] == '>' && '\n' !in quoted[k] && Unquote(quoted[k]) == Trim(lines[k])
    {
      QuoteLineFacts(lines[k]);
    }
  }

  /** A line holding only whitespace is quoted as the marker and one space. */
  lemma BlockquoteBlankLine(text: string, k: nat)
    requires k < |Lines(text)|
    requires Lines(text)[k] != "" && AllWhitespace(Lines(text)[k])
    ensures Blockquote(text)[k] == "> "
  {
    TrimAllWhitespace(Lines(text)[k]);
  }

  /** Windows line breaks: a blank line between two `\r\n` is quoted as the bare
      marker, with no stray `\r` left on any line. */
  lemma BlockquoteCrlfExample()
    ensures Blockquote("x\r\n\r\ny") == ["> x", ">", "> y"]
  {
    CrlfExampleLines();
    QuotedExample("x\r\n\r\ny");
  }

  lemma QuotedExample(text: string)
    requires Lines(text) == ["x", "", "y"]
    ensures Blockquote(text) == ["> x", ">", "> y"]
  {
    TrimOfTrimmed("x");
    TrimOfTrimmed("y");
    var q := Blockquote(text);
    assert q[0] == QuoteLine("x") == "> " + "x" == "> x";
    assert q[1] == QuoteLine("") == ">";
    assert q[2] == QuoteLine("y") == "> " + "y" == "> y";
  }

  lemma CrlfExampleLines()
    ensures Lines("x\r\n\r\ny") == ["x", "", "y"]
  {
    var parts := ["x", "", "y"];
    var tail := CrlfJoin(parts[1..]);
    assert CrlfJoin(parts[2..]) == "y";
    assert tail == "\r\ny";
    assert CrlfJoin(parts) == "x" + "\r\n" + tail;
    assert "x" + "\r\n" + "\r\ny" == "x\r\n\r\ny";
    LinesOfCrlf(parts);
  }

  /** A level-1 header of a text without surrounding whitespace, open and closed. */
  lemma LevelOneHeader(t: string, open: string, closed: string)
    requires Trimmed(t)
    requires open == "# " + t && closed == open + " #"
    ensures Header(t, 1) == Success(open)
    ensures Header(t, 1, true) == Success(closed)
  {
    TrimOfTrimmed(t);
    assert Repeat('#', 1) == "#";
    assert Repeat('#', 1) + (" " + t) == open;
    assert Repeat('#', 1) + (" " + t + " " + Repeat('#', 1)) == closed;
  }

  /** The header examples: a level-1 header, open and closed, and a level out of range. */
  lemma HeaderExamples()
    ensures Header("Some text", 1) == Success("# Some text")
    ensures Header("Some text", 1, true) == Success("# Some text #")
  {
    LevelOneHeader("Some text", "# Some text", "# Some text #");
  }

  lemma HeaderExampleOutOfRange()
    ensures Header("Some text", 7) == Failure(HeaderRangeError)
    ensures Header("Some text", 0, true) == Failure(HeaderRangeError)
  {
  }

  /** The underlined header example. */
  lemma UnderlineHeaderExample()
    ensures UnderlineHeader("Some text", 1) == Success(["Some text", "========="])
    ensures UnderlineHeader("Some text", 3).Failure?
  {
    TrimOfTrimmed("Some text");
    assert Repeat('=', 9) == "=========";
  }
}
