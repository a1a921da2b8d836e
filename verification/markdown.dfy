/** The line-oriented markdown subset used for documentation excerpts: every line of the
    text becomes one block, a heading of level 1 to 4, a list item or a paragraph. */
module Markdown {
  import opened Wrappers
  import opened Text
  import opened Inline

  type Level = k: int | 1 <= k <= 4 witness 1

  datatype Block =
    | Heading(level: Level, text: string)
    | ListItem(spans: seq<Span>)
    | Paragraph(spans: seq<Span>)

  /** `line` starts with exactly the heading marker of level `k`: `^#{k}\s`. */
  predicate HasHeadingMarker(line: string, k: Level) {
    && k < |line|
    && (forall i :: 0 <= i < k ==> line[i] == '#')
    && IsWhitespace(line[k])
  }

  /** `^\s*[-*]\s+`: optional leading whitespace, a `-` or `*`, then whitespace.
      The whitespace run is maximal because neither marker is whitespace. */
  predicate IsBulletLine(line: string) {
    var w := LeadingWhitespace(line);
    w + 1 < |line| && (line[w] == '-' || line[w] == '*') && IsWhitespace(line[w + 1])
  }

  /** Length of the digit run of `s` starting at `i`. */
  function DigitRun(s: string, i: nat): (n: nat)
    requires i <= |s|
    ensures i + n <= |s|
    ensures AllDigits(s[i..i + n])
    ensures i + n < |s| ==> !IsDigit(s[i + n])
    decreases |s| - i
  {
    if i == |s| || !IsDigit(s[i]) then 0
    else
      var m := DigitRun(s, i + 1);
      var run := s[i + 1..i + 1 + m];
      assert forall k :: i + 1 <= k < i + 1 + m ==> IsDigit(s[k]) by {
        forall k | i + 1 <= k < i + 1 + m ensures IsDigit(s[k]) {
          assert IsDigit(run[k - i - 1]);
        }
      }
      var whole := s[i..i + 1 + m];
      forall k | 0 <= k < |whole| ensures IsDigit(whole[k]) {
        assert whole[k] == s[i + k];
      }
      1 + m
  }

  /** `^\s*\d+\.\s+`: optional leading whitespace, one or more digits, a dot, then whitespace. */
  predicate IsNumberedLine(line: string) {
    var w := LeadingWhitespace(line);
    var d := w + DigitRun(line, w);
    d > w && d + 1 < |line| && line[d] == '.' && IsWhitespace(line[d + 1])
  }

  /** One line of text as one block. The heading markers are tried from level 4 down
      and the marker is removed from the heading text, which gets no bold parsing;
      any other line is split into spans, keeping any list marker as text. */
  function ParseLine(line: string): Block {
    if HasHeadingMarker(line, 4) then Heading(4, line[5..])
    else if HasHeadingMarker(line, 3) then Heading(3, line[4..])
    else if HasHeadingMarker(line, 2) then Heading(2, line[3..])
    else if HasHeadingMarker(line, 1) then Heading(1, line[2..])
    else
      var spans := ParseInline(line);
      if IsBulletLine(line) || IsNumberedLine(line) then ListItem(spans) else Paragraph(spans)
  }

  /** The blocks of a text, one per line; an absent text reads as the empty text. */
  function Parse(text: Option<string>): (blocks: seq<Block>)
    ensures |blocks| == Occurrences('\n', text.GetOr("")) + 1
  {
    var lines := SplitLines(text.GetOr(""));
    seq(|lines|, i requires 0 <= i < |lines| => ParseLine(lines[i]))
  }

  // ---------------------------------------------------------------------------
  // headings
  // ---------------------------------------------------------------------------

  /** The four heading markers exclude each other: the character after `j` hashes is
      whitespace, so it cannot be the next `#` of a longer marker. */
  lemma HeadingMarkersExclusive(line: string, j: Level, k: Level)
    requires HasHeadingMarker(line, j)
    requires HasHeadingMarker(line, k)
    ensures j == k
  {
    assert !IsWhitespace('#');
  }

  /** A line is a heading of level `k` exactly when it starts with the level-`k` marker,
      and the heading text is the line minus the `k` hashes and the whitespace after them. */
  lemma HeadingClassification(line: string, k: Level)
    ensures (ParseLine(line).Heading? && ParseLine(line).level == k) <==> HasHeadingMarker(line, k)
    ensures HasHeadingMarker(line, k) ==> ParseLine(line).text == line[k + 1..]
  {
    forall j: Level | HasHeadingMarker(line, j) && HasHeadingMarker(line, k) ensures j == k {
      HeadingMarkersExclusive(line, j, k);
    }
  }

  /** A line is a heading when some marker matches and a list item or paragraph otherwise;
      a non-heading line keeps all of its text, markers included, in its spans. */
  lemma NonHeadingLine(line: string)
    requires forall k: Level :: !HasHeadingMarker(line, k)
    ensures !ParseLine(line).Heading?
    ensures ParseLine(line).spans == ParseInline(line)
    ensures Render(ParseLine(line).spans) == line
  {
    InlineRoundTrip(line);
  }

  // ---------------------------------------------------------------------------
  // list markers, as the regular expressions state them
  // ---------------------------------------------------------------------------

  /** `^\s*[-*]\s+` matches with the marker at position `i`. */
  ghost predicate BulletAt(line: string, i: nat) {
    && i + 1 < |line|
    && AllWhitespace(line[..i])
    && (line[i] == '-' || line[i] == '*')
    && IsWhitespace(line[i + 1])
  }

  /** `^\s*\d+\.\s+` matches with the digits at positions `i` to `j - 1` and the dot at `j`. */
  ghost predicate NumberAt(line: string, i: nat, j: nat) {
    && i < j
    && j + 1 < |line|
    && AllWhitespace(line[..i])
    && AllDigits(line[i..j])
    && line[j] == '.'
    && IsWhitespace(line[j + 1])
  }

  ghost predicate MatchesBulletPattern(line: string) {
    exists i: nat :: BulletAt(line, i)
  }

  ghost predicate MatchesNumberPattern(line: string) {
    exists i: nat, j: nat :: NumberAt(line, i, j)
  }

  /** Any all-whitespace prefix followed by a non-whitespace character is the whole leading run. */
  lemma LeadingWhitespaceAt(line: string, i: nat)
    requires i < |line|
    requires AllWhitespace(line[..i])
    requires !IsWhitespace(line[i])
    ensures LeadingWhitespace(line) == i
  {
    var w := LeadingWhitespace(line);
    assert forall m :: 0 <= m < i ==> line[..i][m] == line[m];
    assert forall m :: 0 <= m < w ==> line[..w][m] == line[m];
  }

  lemma {:induction false} BulletLineIff(line: string)
    ensures IsBulletLine(line) <==> MatchesBulletPattern(line)
  {
    var w := LeadingWhitespace(line);
    if IsBulletLine(line) {
      assert BulletAt(line, w);
    }
    if MatchesBulletPattern(line) {
      var i: nat :| BulletAt(line, i);
      LeadingWhitespaceAt(line, i);
    }
  }

  /** A digit run ending at a non-digit is the whole run `DigitRun` measures. */
  lemma DigitRunAt(line: string, i: nat, j: nat)
    requires i <= j < |line|
    requires AllDigits(line[i..j])
    requires !IsDigit(line[j])
    ensures i + DigitRun(line, i) == j
  {
    var d := i + DigitRun(line, i);
    assert forall m :: i <= m < j ==> line[i..j][m - i] == line[m];
    assert forall m :: i <= m < d ==> line[i..d][m - i] == line[m];
  }

  lemma {:induction false} NumberedLineIff(line: string)
    ensures IsNumberedLine(line) <==> MatchesNumberPattern(line)
  {
    var w := LeadingWhitespace(line);
    if IsNumberedLine(line) {
      assert NumberAt(line, w, w + DigitRun(line, w));
    }
    if MatchesNumberPattern(line) {
      var i: nat, j: nat :| NumberAt(line, i, j);
      assert line[i] == line[i..j][0];
      LeadingWhitespaceAt(line, i);
      DigitRunAt(line, i, j);
    }
  }

  /** A non-heading line is a list item exactly when one of the two list patterns matches
      it, and a paragraph otherwise; both carry the line's spans. */
  lemma ListOrParagraph(line: string)
    requires forall k: Level :: !HasHeadingMarker(line, k)
    ensures ParseLine(line) == (if MatchesBulletPattern(line) || MatchesNumberPattern(line)
      then ListItem(ParseInline(line)) else Paragraph(ParseInline(line)))
  {
    BulletLineIff(line);
    NumberedLineIff(line);
  }

  // ---------------------------------------------------------------------------
  // whole texts
  // ---------------------------------------------------------------------------

  /** Lines are never merged or dropped: parsing the line-feed join of line-feed-free lines
      parses each line on its own, in order. */
  lemma ParseJoinedLines(lines: seq<string>)
    requires |lines| > 0
    requires forall i :: 0 <= i < |lines| ==> '\n' !in lines[i]
    ensures |Parse(Some(JoinLines(lines)))| == |lines|
    ensures forall i :: 0 <= i < |lines| ==> Parse(Some(JoinLines(lines)))[i] == ParseLine(lines[i])
  {
    SplitJoinLines(lines);
  }

  /** An absent or empty text is one empty paragraph, not zero blocks. */
  lemma ParseEmpty()
    ensures Parse(None) == [Paragraph([Plain("")])]
    ensures Parse(Some("")) == [Paragraph([Plain("")])]
  {
    assert Fragments("", 0, 0) == [""];
    assert ToSpan("") == Plain("");
    assert ParseInline("") == [Plain("")];
    assert ParseLine("") == Paragraph([Plain("")]);
  }

  // ---------------------------------------------------------------------------
  // lines by their opening characters
  // ---------------------------------------------------------------------------

  /** A line that does not open with `#` is classified by the list patterns alone. */
  lemma NoHashStart(line: string)
    requires |line| > 0 && line[0] != '#'
    ensures ParseLine(line) == (if IsBulletLine(line) || IsNumberedLine(line)
      then ListItem(ParseInline(line)) else Paragraph(ParseInline(line)))
  {
    forall k: Level ensures !HasHeadingMarker(line, k) {
      assert 0 < k;
    }
  }

  /** A line opening with `**` is a paragraph: the second `*` is not whitespace. */
  lemma StarStarStart(line: string)
    requires |line| > 1 && line[0] == '*' && line[1] == '*'
    ensures ParseLine(line) == Paragraph(ParseInline(line))
  {
    NoHashStart(line);
    assert LeadingWhitespace(line) == 0;
    assert DigitRun(line, 0) == 0;
  }

  /** A line without asterisks is one plain span. */
  lemma NoStarsOneSpan(line: string)
    requires '*' !in line
    ensures ParseInline(line) == [Plain(line)]
  {
    forall k | 0 <= k < |line| ensures MatchAt(line, k).None? {
      assert line[k] != '*';
    }
    ScanSkips(line, 0, 0, |line|);
    assert line[0..] == line;
    assert Fragments(line, 0, |line|) == [line];
    assert !IsBoldRun(line) by {
      if |line| > 0 {
        assert line[0] != '*';
      }
    }
  }

  // ---------------------------------------------------------------------------
  // worked examples
  // ---------------------------------------------------------------------------

  lemma ExampleHeadingLevel3()
    ensures ParseLine("### Title") == Heading(3, "Title")
  {
    assert HasHeadingMarker("### Title", 3);
    assert !HasHeadingMarker("### Title", 4);
  }

  lemma ExampleHeadingLevel4()
    ensures ParseLine("#### Title") == Heading(4, "Title")
  {
    assert HasHeadingMarker("#### Title", 4);
  }

  /** Five hashes match no heading marker, so the line is a paragraph. */
  lemma ExampleFiveHashes()
    ensures ParseLine("##### Title").Paragraph?
  {
    var five := "##### Title";
    assert !HasHeadingMarker(five, 4) && !HasHeadingMarker(five, 3);
    assert !HasHeadingMarker(five, 2) && !HasHeadingMarker(five, 1);
    assert LeadingWhitespace(five) == 0;
    assert DigitRun(five, 0) == 0;
  }

  /** The scan of `**a** and **b**` from the end of the first run. */
  lemma TwoBoldRunsTail()
    ensures Fragments("**a** and **b**", 5, 5) == [" and ", "**b**", ""]
  {
    var s := "**a** and **b**";
    assert |s| == 15 && s[15..] == "";
    assert Fragments(s, 15, 15) == [""];
    assert MatchAt(s, 10) == Some(15);
    assert s[5..10] == " and " && s[10..15] == "**b**";
    ScanSkips(s, 5, 5, 10);
  }

  /** The scan of `**a** and **b**` finds the first run at the start. */
  lemma TwoBoldRunsHead()
    ensures Fragments("**a** and **b**", 0, 0) == ["", "**a**"] + Fragments("**a** and **b**", 5, 5)
  {
    var s := "**a** and **b**";
    assert MatchAt(s, 0) == Some(5);
    assert s[0..0] == "" && s[0..5] == "**a**";
  }

  /** The spans of the fragments `split` gives for `**a** and **b**`. */
  lemma TwoBoldRunsSpans()
    ensures ToSpans(["", "**a**", " and ", "**b**", ""])
         == [Plain(""), Bold("a"), Plain(" and "), Bold("b"), Plain("")]
  {
    assert ToSpan("**a**") == Bold("a");
    assert ToSpan("**b**") == Bold("b");
    assert ToSpan("") == Plain("");
    assert ToSpan(" and ") == Plain(" and ");
  }

  /** Two bold runs: the empty plain fragments `split` produces at both ends are kept. */
  lemma ExampleTwoBoldRuns()
    ensures ParseInline("**a** and **b**")
         == [Plain(""), Bold("a"), Plain(" and "), Bold("b"), Plain("")]
  {
    TwoBoldRunsHead();
    TwoBoldRunsTail();
    TwoBoldRunsSpans();
    assert SplitBold("**a** and **b**") == ["", "**a**", " and ", "**b**", ""];
  }

  /** An unterminated bold marker stays literal text. */
  lemma ExampleUnterminatedBold()
    ensures ParseLine("**oops") == Paragraph([Plain("**oops")])
  {
    var s := "**oops";
    StarStarStart(s);
    assert MatchAt(s, 0) == None;
    ScanSkips(s, 0, 0, |s|);
    assert s[0..] == s;
  }

  lemma BulletMarker()
    ensures IsBulletLine("- item")
  {
    assert LeadingWhitespace("- item") == 0;
  }

  /** A bullet marker is recognised and kept in the text. */
  lemma ExampleBulletItem()
    ensures ParseLine("- item") == ListItem([Plain("- item")])
  {
    var b := "- item";
    NoHashStart(b);
    BulletMarker();
    NoStarsOneSpan(b);
  }

  lemma NumberedMarker()
    ensures IsNumberedLine("1. item")
  {
    var n := "1. item";
    assert LeadingWhitespace(n) == 0;
    assert DigitRun(n, 1) == 0;
    assert DigitRun(n, 0) == 1;
  }

  /** A number marker is recognised and kept in the text. */
  lemma ExampleNumberedItem()
    ensures ParseLine("1. item") == ListItem([Plain("1. item")])
  {
    var n := "1. item";
    NoHashStart(n);
    NumberedMarker();
    NoStarsOneSpan(n);
  }

  /** A line opening with bold text is not a bullet: the second `*` is not whitespace. */
  lemma ExampleBoldOpening()
    ensures ParseLine("**x** y") == Paragraph([Plain(""), Bold("x"), Plain(" y")])
  {
    var x := "**x** y";
    StarStarStart(x);
    assert |x| == 7 && x[5..] == " y" && x[0..0] == "";
    ScanSkips(x, 5, 5, 7);
    assert Fragments(x, 5, 5) == [" y"];
    assert MatchAt(x, 0) == Some(5);
    assert x[0..5] == "**x**";
    assert Fragments(x, 0, 0) == ["", "**x**", " y"];
    assert ToSpan("**x**") == Bold("x");
  }

  lemma ExampleBoldLine()
    ensures ParseLine("**b**") == Paragraph([Plain(""), Bold("b"), Plain("")])
  {
    var s := "**b**";
    StarStarStart(s);
    assert |s| == 5 && s[5..] == "" && s[0..0] == "";
    assert Fragments(s, 5, 5) == [""];
    assert MatchAt(s, 0) == Some(5);
    assert s[0..5] == "**b**";
    assert Fragments(s, 0, 0) == ["", "**b**", ""];
    assert ToSpan("**b**") == Bold("b");
  }

  lemma ExampleHeadingLevel1()
    ensures ParseLine("# H") == Heading(1, "H")
  {
    assert HasHeadingMarker("# H", 1);
  }

  lemma ExcerptLines()
    ensures SplitLines("# H\n**b**") == ["# H", "**b**"]
  {
    SplitAfterFirstLine("# H", "**b**");
    assert "# H" + "\n" + "**b**" == "# H\n**b**";
    SplitSingleLine("**b**");
  }

  /** A documentation excerpt with a heading line and a bold line. */
  lemma ExampleExcerpt()
    ensures Parse(Some("# H\n**b**")) == [Heading(1, "H"), Paragraph([Plain(""), Bold("b"), Plain("")])]
  {
    ExcerptLines();
    ExampleHeadingLevel1();
    ExampleBoldLine();
    var blocks := Parse(Some("# H\n**b**"));
    assert |blocks| == 2;
    assert blocks[0] == ParseLine("# H") && blocks[1] == ParseLine("**b**");
  }
}
