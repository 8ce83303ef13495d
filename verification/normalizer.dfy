/**
  The markdown normalizer (src/parser/normalizer.rs): four line-based
  passes, headings, list items, blank-line runs and code fences, applied in
  that order.
*/
module Normalizer {
  import opened Errors
  import opened Strings

  /** The number of leading `c` (`chars().take_while(|x| x == c).count()`). */
  function LeadingCount(s: string, c: char): (n: nat)
    ensures n <= |s|
    ensures forall i :: 0 <= i < n ==> s[i] == c
    ensures n == |s| || s[n] != c
  {
    if s != [] && s[0] == c then 1 + LeadingCount(s[1..], c) else 0
  }

  /** The text of a heading line: the trimmed line without its leading
      '#' run, trimmed again. */
  function HeadingText(line: string): string {
    var t := Trim(line);
    Trim(t[LeadingCount(t, '#')..])
  }

  /** The level of a heading line: the length of the '#' run of the trimmed line. */
  function HeadingLevel(line: string): nat {
    LeadingCount(Trim(line), '#')
  }

  /** The form the heading pass gives a heading: 1 to 6 '#', one space, and
      text with no surrounding whitespace. */
  predicate IsNormalHeading(r: string) {
    var n := LeadingCount(r, '#');
    1 <= n <= 6 && n + 1 < |r| && r[n] == ' ' && !IsWhitespace(r[n + 1]) && !IsWhitespace(r[|r| - 1])
  }

  /** One line of `normalize_headings`. */
  function HeadingLine(line: string): string {
    var trimmed := Trim(line);
    if StartsWith(trimmed, "#") then
      var level := LeadingCount(trimmed, '#');
      var text := Trim(trimmed[level..]);
      if text != [] && level <= 6 then Repeat('#', level) + " " + text else line
    else line
  }

  /** A line the heading pass changes had a '#' run of 1 to 6 and non-empty
      text; it becomes a normal heading with the same level and text.
      Every other line is left as it is. */
  lemma HeadingLineKeepsLevelAndText(line: string)
    ensures HeadingLine(line) != line ==>
      StartsWith(Trim(line), "#") && 1 <= HeadingLevel(line) <= 6 && HeadingText(line) != []
    ensures HeadingLine(line) != line ==>
      IsNormalHeading(HeadingLine(line))
      && HeadingLevel(HeadingLine(line)) == HeadingLevel(line)
      && HeadingText(HeadingLine(line)) == HeadingText(line)
  {
    if HeadingLine(line) != line {
      var trimmed := Trim(line);
      var level := LeadingCount(trimmed, '#');
      HeadingLineChanged(line);
      TrimIdempotent(trimmed[level..]);
      NormalHeadingParts(level, Trim(trimmed[level..]));
    }
  }

  /** What the heading pass makes of a line it changes. */
  lemma HeadingLineChanged(line: string)
    requires HeadingLine(line) != line
    ensures var trimmed := Trim(line);
      var level := LeadingCount(trimmed, '#');
      StartsWith(trimmed, "#") && 1 <= level <= 6 && Trim(trimmed[level..]) != []
      && HeadingLine(line) == Repeat('#', level) + " " + Trim(trimmed[level..])
  {
    var trimmed := Trim(line);
    HeadingLineCases(line);
    FirstOfPrefix(trimmed, "#");
  }

  lemma HeadingLineCases(line: string)
    ensures var trimmed := Trim(line);
      var level := LeadingCount(trimmed, '#');
      var text := Trim(trimmed[level..]);
      HeadingLine(line) == if StartsWith(trimmed, "#") && text != [] && level <= 6
                           then Repeat('#', level) + " " + text
                           else line
  {
  }

  lemma FirstOfPrefix(s: string, p: string)
    requires StartsWith(s, p) && p != []
    ensures s[0] == p[0]
  {
    assert s[..|p|][0] == s[0];
  }

  /** The parts of `"#" * level + " " + text` read back. */
  lemma NormalHeadingParts(level: nat, text: string)
    requires 1 <= level <= 6 && text != [] && Trim(text) == text
    ensures var r := Repeat('#', level) + " " + text;
      Trim(r) == r && LeadingCount(r, '#') == level && r[level..] == " " + text
      && IsNormalHeading(r) && HeadingText(r) == text
  {
    var r := Repeat('#', level) + " " + text;
    HashRunThenText(level, text);
    assert Trim(r) == r by {
      assert r[0] == '#' && r[|r| - 1] == text[|text| - 1];
      TrimFixed(r);
    }
    assert IsNormalHeading(r) by {
      assert r[level + 1] == text[0] && r[|r| - 1] == text[|text| - 1];
    }
    TrimSkipsSpace(text);
  }

  /** The '#' run of `"#" * level + " " + text` has length `level`, and a
      space and the text follow it. */
  lemma HashRunThenText(level: nat, text: string)
    ensures var r := Repeat('#', level) + " " + text;
      LeadingCount(r, '#') == level && r[level..] == " " + text && r[level] == ' '
  {
    var r := Repeat('#', level) + " " + text;
    assert r[level] == ' ';
    LeadingCountOfRun(r, '#', level);
    assert r[level..] == " " + text;
  }

  lemma LeadingCountOfRun(s: string, c: char, n: nat)
    requires n < |s| && s[n] != c && forall i :: 0 <= i < n ==> s[i] == c
    ensures LeadingCount(s, c) == n
  {
  }

  lemma TrimIdempotent(s: string)
    ensures Trim(Trim(s)) == Trim(s)
  {
    if Trim(s) != [] {
      TrimFixed(Trim(s));
    }
  }

  /** A string with no whitespace at either end is its own trim. */
  lemma TrimFixed(s: string)
    requires s != [] && !IsWhitespace(s[0]) && !IsWhitespace(s[|s| - 1])
    ensures Trim(s) == s
  {
  }

  /** A leading space does not change the trim of a trimmed text. */
  lemma TrimSkipsSpace(text: string)
    requires Trim(text) == text
    ensures Trim(" " + text) == text
  {
    var s := [' '] + text;
    assert s[0] == ' ' && s[1..] == text;
    assert TrimStart(s) == TrimStart(text);
    assert " " + text == s;
  }

  /** A normal heading is left as it is. */
  lemma NormalHeadingIsFixed(r: string)
    requires IsNormalHeading(r)
    ensures HeadingLine(r) == r
  {
    var n := LeadingCount(r, '#');
    NormalHeadingSplit(r);
    HeadingLineOfParts(n, r[n + 1..]);
  }

  /** A normal heading is its '#' run, one space and its trimmed text. */
  lemma NormalHeadingSplit(r: string)
    requires IsNormalHeading(r)
    ensures var n := LeadingCount(r, '#');
      r == Repeat('#', n) + " " + r[n + 1..] && r[n + 1..] != [] && Trim(r[n + 1..]) == r[n + 1..]
  {
    var n := LeadingCount(r, '#');
    var text := r[n + 1..];
    assert r[..n] == Repeat('#', n);
    SplitAround(r, n);
    assert Trim(text) == text by {
      assert text[0] == r[n + 1] && text[|text| - 1] == r[|r| - 1];
      TrimFixed(text);
    }
  }

  lemma SplitAround(s: string, n: nat)
    requires n < |s|
    ensures s == s[..n] + [s[n]] + s[n + 1..]
  {
  }

  /** The heading pass keeps a line already in its output form. */
  lemma HeadingLineOfParts(level: nat, text: string)
    requires 1 <= level <= 6 && text != [] && Trim(text) == text
    ensures HeadingLine(Repeat('#', level) + " " + text) == Repeat('#', level) + " " + text
  {
    var r := Repeat('#', level) + " " + text;
    HeadingLineCases(r);
    NormalHeadingParts(level, text);
    StartsWithFirst(r, '#');
    TrimSkipsSpace(text);
  }

  lemma StartsWithFirst(s: string, c: char)
    requires s != [] && s[0] == c
    ensures StartsWith(s, [c])
  {
    assert s[..1] == [c];
  }

  /** The heading pass is idempotent line by line. */
  lemma HeadingLineIdempotent(line: string)
    ensures HeadingLine(HeadingLine(line)) == HeadingLine(line)
  {
    HeadingLineKeepsLevelAndText(line);
    if HeadingLine(line) != line {
      NormalHeadingIsFixed(HeadingLine(line));
    }
  }

  // ----- list items -----

  /** A list marker after the indentation: "* ", "- " or "+ ". */
  predicate IsBullet(t: string) {
    StartsWith(t, "* ") || StartsWith(t, "- ") || StartsWith(t, "+ ")
  }

  /** The byte width of the leading whitespace. */
  function Indent(line: string): nat {
    |line| - |TrimStart(line)|
  }

  /** The text of a list item: what follows the marker, trimmed. */
  function ItemText(line: string): string {
    var t := TrimStart(line);
    if |t| >= 2 then Trim(t[2..]) else []
  }

  /** One line of `normalize_lists`. */
  function ListLine(line: string): string {
    var trimmed := TrimStart(line);
    if IsBullet(trimmed) then
      Repeat(' ', |line| - |trimmed|) + ("- " + Trim(trimmed[2..]))
    else line
  }

  /** A line the list pass changes was a list item; it becomes one with the
      same indentation width, now all spaces, the marker "- " and the same
      item text. Every other line is left as it is. */
  lemma ListLineKeepsIndentAndText(line: string)
    ensures ListLine(line) != line ==> IsBullet(TrimStart(line))
    ensures var r := ListLine(line);
      IsBullet(TrimStart(line)) ==>
        Indent(r) == Indent(line)
        && (forall i :: 0 <= i < Indent(r) ==> r[i] == ' ')
        && TrimStart(r)[..2] == "- "
        && ItemText(r) == ItemText(line)
  {
    if IsBullet(TrimStart(line)) {
      BulletLineShape(line);
    }
  }

  lemma BulletLineShape(line: string)
    requires IsBullet(TrimStart(line))
    ensures Indent(ListLine(line)) == Indent(line)
    ensures forall i :: 0 <= i < Indent(line) ==> ListLine(line)[i] == ' '
    ensures TrimStart(ListLine(line)) == "- " + ItemText(line)
    ensures ItemText(ListLine(line)) == ItemText(line)
  {
    var t := TrimStart(line);
    var n := Indent(line);
    var text := Trim(t[2..]);
    assert ItemText(line) == text;
    assert ListLine(line) == Repeat(' ', n) + ("- " + text);
    TrimIdempotent(t[2..]);
    SpacesThenItem(n, text);
    SpacesFirst(n, "- " + text);
  }

  lemma SpacesFirst(n: nat, rest: string)
    ensures forall i :: 0 <= i < n ==> (Repeat(' ', n) + rest)[i] == ' '
  {
    var s := Repeat(' ', n) + rest;
    forall i | 0 <= i < n
      ensures s[i] == ' '
    {
      assert s[i] == Repeat(' ', n)[i];
    }
  }

  /** The parts of `" " * n + "- " + text` read back. */
  lemma {:induction false} SpacesThenItem(n: nat, text: string)
    requires Trim(text) == text
    ensures TrimStart(Repeat(' ', n) + ("- " + text)) == "- " + text
    ensures Indent(Repeat(' ', n) + ("- " + text)) == n
    ensures ItemText(Repeat(' ', n) + ("- " + text)) == text
  {
    SpacesThenMarker(n, text);
    assert ("- " + text)[2..] == text;
  }

  lemma SpacesThenMarker(n: nat, text: string)
    ensures TrimStart(Repeat(' ', n) + ("- " + text)) == "- " + text
    ensures Indent(Repeat(' ', n) + ("- " + text)) == n
  {
    SpacesTrimmed(n, "- " + text);
  }

  /** Leading spaces before a non-whitespace byte are what `trim_start` removes. */
  lemma {:induction false} SpacesTrimmed(n: nat, rest: string)
    requires rest != [] && !IsWhitespace(rest[0])
    ensures TrimStart(Repeat(' ', n) + rest) == rest
  {
    if n > 0 {
      assert (Repeat(' ', n) + rest)[1..] == Repeat(' ', n - 1) + rest;
      SpacesTrimmed(n - 1, rest);
    } else {
      assert Repeat(' ', n) + rest == rest;
    }
  }

  /** The list pass is idempotent line by line. */
  lemma ListLineIdempotent(line: string)
    ensures ListLine(ListLine(line)) == ListLine(line)
  {
    var t := TrimStart(line);
    if IsBullet(t) {
      TrimIdempotent(t[2..]);
      ListLineOfItem(|line| - |t|, Trim(t[2..]));
    }
  }

  /** A line already in the pass's output form is left as it is. */
  lemma ListLineOfItem(n: nat, text: string)
    requires Trim(text) == text
    ensures ListLine(Repeat(' ', n) + ("- " + text)) == Repeat(' ', n) + ("- " + text)
  {
    var s := Repeat(' ', n) + ("- " + text);
    var t := TrimStart(s);
    assert t == "- " + text by {
      SpacesThenMarker(n, text);
    }
    assert IsBullet(t) by {
      assert t[..2] == "- ";
    }
    assert t[2..] == text;
  }

  // ----- the passes -----

  /** Every line mapped through `f`. */
  function MapLines(lines: seq<string>, f: string -> string): (r: seq<string>)
    ensures |r| == |lines|
  {
    seq(|lines|, i requires 0 <= i < |lines| => f(lines[i]))
  }

  /** What `normalize_headings` returns: the lines, each through the heading
      rule, one output line per input line. */
  function HeadingsPass(content: string): string {
    Join(MapLines(Lines(content), HeadingLine), "\n")
  }

  /** What `normalize_lists` returns. */
  function ListsPass(content: string): string {
    Join(MapLines(Lines(content), ListLine), "\n")
  }

  /** `normalize_line_breaks`: trailing whitespace dropped from every line,
      and each non-overlapping run of three newlines, scanned once from the
      left, shortened to two. */
  function LineBreaksPass(content: string): string {
    Replace(Join(MapLines(Lines(content), TrimEnd), "\n"), "\n\n\n", "\n\n")
  }

  /** What `normalize_code_blocks` returns: the lines rejoined. */
  function CodeBlocksPass(content: string): string {
    Join(Lines(content), "\n")
  }

  /** A fence line opens or closes a code block. */
  predicate IsFence(line: string) {
    StartsWith(Trim(line), "```")
  }

  /** The loop the heading and list passes share: one output line per
      input line, in order. */
  method MapEachLine(lines: seq<string>, f: string -> string) returns (result: seq<string>)
    ensures result == MapLines(lines, f)
  {
    result := [];
    for i := 0 to |lines|
      invariant |result| == i
      invariant forall j :: 0 <= j < i ==> result[j] == f(lines[j])
    {
      result := result + [f(lines[i])];
    }
  }

  /** `normalize_headings`. */
  method NormalizeHeadings(content: string) returns (r: string)
    ensures r == HeadingsPass(content)
  {
    var result := MapEachLine(Lines(content), HeadingLine);
    r := Join(result, "\n");
  }

  /** `normalize_lists`. */
  method NormalizeLists(content: string) returns (r: string)
    ensures r == ListsPass(content)
  {
    var result := MapEachLine(Lines(content), ListLine);
    r := Join(result, "\n");
  }

  /** `normalize_code_blocks`: the fence flag is tracked and every line is
      kept as it is. */
  method NormalizeCodeBlocks(content: string) returns (r: string)
    ensures r == CodeBlocksPass(content)
  {
    var lines := Lines(content);
    var result: seq<string> := [];
    var inCodeBlock := false;
    for i := 0 to |lines|
      invariant result == lines[..i]
    {
      if IsFence(lines[i]) {
        inCodeBlock := !inCodeBlock;
      }
      result := result + [lines[i]];
    }
    assert lines[..|lines|] == lines;
    r := Join(result, "\n");
  }

  /** The whole normalization, which never fails. */
  function Normalized(content: string): string {
    CodeBlocksPass(LineBreaksPass(ListsPass(HeadingsPass(content))))
  }

  /** `MarkdownNormalizer::normalize`: headings, lists, line breaks and code
      blocks, in that order; the result is always Ok. */
  method Normalize(content: string) returns (r: Result<string>)
    ensures r.Ok? && r.value == CodeBlocksPass(LineBreaksPass(ListsPass(HeadingsPass(content))))
  {
    var normalized := content;
    normalized := NormalizeHeadings(normalized);
    normalized := NormalizeLists(normalized);
    normalized := LineBreaksPass(normalized);
    normalized := NormalizeCodeBlocks(normalized);
    r := Ok(normalized);
  }

  // ----- what the passes preserve -----

  /** The code-block pass gives back any content without '\r' that does not
      end in a newline. */
  lemma CodeBlocksPassKeepsContent(c: string)
    requires '\r' !in c && (c == [] || c[|c| - 1] != '\n')
    ensures CodeBlocksPass(c) == c
  {
    if c != [] {
      LinesOfPlainText(c);
      JoinSplit(c, '\n');
    }
  }

  /** Without '\r' and without a final newline, the lines of a non-empty
      text are exactly its pieces between newlines. */
  lemma LinesOfPlainText(c: string)
    requires c != [] && '\r' !in c && c[|c| - 1] != '\n'
    ensures Lines(c) == Split(c, '\n')
  {
    LinesAsPieces(c);
    InitThenLast(Split(c, '\n'));
  }

  lemma InitThenLast(s: seq<string>)
    requires s != []
    ensures s[..|s| - 1] + [s[|s| - 1]] == s
  {
  }

  lemma LinesAsPieces(c: string)
    requires c != [] && '\r' !in c && c[|c| - 1] != '\n'
    ensures var pieces := Split(c, '\n');
      Lines(c) == pieces[..|pieces| - 1] + [pieces[|pieces| - 1]]
  {
    PiecesKeepNoCr(c);
    LastPieceNonEmpty(c);
  }

  /** Without '\r' in the text, stripping a '\r' from each piece changes
      none of them. */
  lemma PiecesKeepNoCr(c: string)
    requires '\r' !in c
    ensures var pieces := Split(c, '\n');
      seq(|pieces| - 1, i requires 0 <= i < |pieces| - 1 => StripCr(pieces[i])) == pieces[..|pieces| - 1]
  {
    var pieces := Split(c, '\n');
    SplitKeepsAbsent(c, '\n', '\r');
    var front := seq(|pieces| - 1, i requires 0 <= i < |pieces| - 1 => StripCr(pieces[i]));
    forall i | 0 <= i < |pieces| - 1
      ensures front[i] == pieces[i]
    {
      assert '\r' !in pieces[i];
    }
  }

  /** A non-empty text not ending in a newline has a non-empty last piece. */
  lemma LastPieceNonEmpty(c: string)
    requires c != [] && c[|c| - 1] != '\n'
    ensures Split(c, '\n')[|Split(c, '\n')| - 1] != []
  {
    var pieces := Split(c, '\n');
    JoinSplit(c, '\n');
    if |pieces| >= 2 {
      JoinSnoc(pieces, "\n");
    }
  }

  /** A line the line-break pass keeps as it is: no newline, and no
      whitespace at its end. */
  predicate IsPlainLine(x: string) {
    x != [] && '\n' !in x && !IsWhitespace(x[|x| - 1])
  }

  function Blanks(k: nat): (r: seq<string>)
    ensures |r| == k && forall i :: 0 <= i < k ==> r[i] == []
  {
    seq(k, _ => [])
  }

  /** A run of newlines before a line splits into empty pieces. */
  lemma {:induction false} SplitBlankRun(k: nat, y: string)
    requires '\n' !in y
    ensures Split(Repeat('\n', k) + y, '\n') == Blanks(k) + [y]
  {
    if k == 0 {
      SplitWhole(y, '\n');
      assert Repeat('\n', k) + y == y;
    } else {
      SplitBlankRun(k - 1, y);
      assert Repeat('\n', k) + y == [] + ['\n'] + (Repeat('\n', k - 1) + y);
      SplitAt([], '\n', Repeat('\n', k - 1) + y);
      assert [[]] + (Blanks(k - 1) + [y]) == Blanks(k) + [y];
    }
  }

  /** The lines on either side of a run of blank lines. */
  lemma LinesAroundBlanks(x: string, y: string, blanks: nat)
    requires IsPlainLine(x) && IsPlainLine(y)
    ensures Lines(x + Repeat('\n', blanks + 1) + y) == [x] + Blanks(blanks) + [y]
  {
    var s := x + Repeat('\n', blanks + 1) + y;
    var pieces := [x] + Blanks(blanks) + [y];
    SplitAroundBlanks(x, y, blanks);
    forall i | 0 <= i < |pieces| - 1
      ensures StripCr(pieces[i]) == pieces[i]
    {
      if i > 0 {
        assert pieces[i] == [];
      }
    }
    LinesWithoutCr(s);
  }

  /** The pieces between newlines around a run of blank lines. */
  lemma SplitAroundBlanks(x: string, y: string, blanks: nat)
    requires IsPlainLine(x) && IsPlainLine(y)
    ensures Split(x + Repeat('\n', blanks + 1) + y, '\n') == [x] + Blanks(blanks) + [y]
  {
    var s := x + Repeat('\n', blanks + 1) + y;
    SplitBlankRun(blanks, y);
    assert s == x + ['\n'] + (Repeat('\n', blanks) + y);
    SplitAt(x, '\n', Repeat('\n', blanks) + y);
  }

  /** When no piece but the last ends in '\r' and the last piece is not
      empty, the lines are exactly the pieces. */
  lemma LinesWithoutCr(s: string)
    requires var pieces := Split(s, '\n');
      pieces[|pieces| - 1] != [] &&
      forall i :: 0 <= i < |pieces| - 1 ==> StripCr(pieces[i]) == pieces[i]
    ensures Lines(s) == Split(s, '\n')
  {
    var pieces := Split(s, '\n');
    var n := |pieces|;
    var front := seq(n - 1, i requires 0 <= i < n - 1 => StripCr(pieces[i]));
    assert front == pieces[..n - 1];
    InitThenLast(pieces);
  }

  lemma {:induction false} JoinBlanks(k: nat, y: string)
    ensures Join(Blanks(k) + [y], "\n") == Repeat('\n', k) + y
  {
    if k == 0 {
      assert Blanks(k) + [y] == [y];
      assert Repeat('\n', k) + y == y;
    } else {
      JoinBlanks(k - 1, y);
      var parts := Blanks(k) + [y];
      assert parts[1..] == Blanks(k - 1) + [y];
      assert Repeat('\n', k) + y == "\n" + (Repeat('\n', k - 1) + y);
    }
  }

  lemma PlainLinesKeepTrimEnd(x: string, y: string, blanks: nat)
    requires IsPlainLine(x) && IsPlainLine(y)
    ensures MapLines([x] + Blanks(blanks) + [y], TrimEnd) == [x] + Blanks(blanks) + [y]
  {
    var lines := [x] + Blanks(blanks) + [y];
    forall i | 0 <= i < |lines|
      ensures TrimEnd(lines[i]) == lines[i]
    {
      if 0 < i < |lines| - 1 {
        assert lines[i] == [];
      }
    }
  }

  /** Between two plain lines, only the run-shortening part of the
      line-break pass acts. */
  lemma LineBreaksAroundBlanks(x: string, y: string, blanks: nat)
    requires IsPlainLine(x) && IsPlainLine(y)
    ensures var s := x + Repeat('\n', blanks + 1) + y;
      LineBreaksPass(s) == Replace(s, "\n\n\n", "\n\n")
  {
    var s := x + Repeat('\n', blanks + 1) + y;
    var lines := [x] + Blanks(blanks) + [y];
    assert Lines(s) == lines by {
      LinesAroundBlanks(x, y, blanks);
    }
    assert MapLines(lines, TrimEnd) == lines by {
      PlainLinesKeepTrimEnd(x, y, blanks);
    }
    JoinAroundBlanks(x, y, blanks);
  }

  /** Joining a line, blank lines and a line gives back the newline run. */
  lemma JoinAroundBlanks(x: string, y: string, blanks: nat)
    ensures Join([x] + Blanks(blanks) + [y], "\n") == x + Repeat('\n', blanks + 1) + y
  {
    var lines := [x] + Blanks(blanks) + [y];
    assert lines[1..] == Blanks(blanks) + [y];
    assert Join(lines, "\n") == x + "\n" + Join(Blanks(blanks) + [y], "\n");
    JoinBlanks(blanks, y);
    assert Repeat('\n', blanks + 1) == "\n" + Repeat('\n', blanks);
  }

  /** Three newlines between two lines become two. */
  lemma ThreeNewlinesBecomeTwo(x: string, y: string)
    requires IsPlainLine(x) && IsPlainLine(y)
    ensures LineBreaksPass(x + "\n\n\n" + y) == x + "\n\n" + y
  {
    ThreeNewlines();
    LineBreaksAroundBlanks(x, y, 2);
    ReplaceAfterLine(x, "\n\n\n" + y, "\n\n\n", "\n\n");
    ReplaceAtFront("\n\n\n", y, "\n\n");
    ReplaceAfterLine(y, [], "\n\n\n", "\n\n");
    Associate(x, "\n\n\n", y);
    Associate(x, "\n\n", y);
    EmptyTail(y);
  }

  lemma ThreeNewlines()
    ensures Repeat('\n', 2 + 1) == "\n\n\n"
  {
  }

  lemma EmptyTail(y: string)
    ensures y + [] == y
  {
  }

  /** The pass runs once: four newlines between two lines leave three. */
  lemma FourNewlinesLeaveThree(x: string, y: string)
    requires IsPlainLine(x) && IsPlainLine(y)
    ensures LineBreaksPass(x + "\n\n\n\n" + y) == x + "\n\n\n" + y
  {
    FourNewlines();
    LineBreaksAroundBlanks(x, y, 3);
    ReplaceAfterLine(x, "\n\n\n\n" + y, "\n\n\n", "\n\n");
    NewlineRunOfFour(y);
    Associate(x, "\n\n\n", y);
    Associate(x, "\n\n\n\n", y);
  }

  lemma FourNewlines()
    ensures Repeat('\n', 3 + 1) == "\n\n\n\n"
  {
  }

  /** `ReplaceSkipsPrefix` for a plain line in front. */
  lemma ReplaceAfterLine(x: string, rest: string, p: string, v: string)
    requires IsPlainLine(x) && p != [] && p[0] == '\n'
    ensures Replace(x + rest, p, v) == x + Replace(rest, p, v)
  {
    ReplaceSkipsPrefix(x, rest, p, v);
  }

  lemma Associate(a: string, b: string, c: string)
    ensures a + b + c == a + (b + c)
  {
  }

  lemma NewlineRunOfFour(y: string)
    requires IsPlainLine(y)
    ensures Replace("\n\n\n\n" + y, "\n\n\n", "\n\n") == "\n\n\n" + y
  {
    var p := Repeat('\n', 3);
    assert p == "\n\n\n";
    assert Replace(y, p, "\n\n") == y by {
      ReplaceSkipsPrefix(y, [], p, "\n\n");
      assert y + [] == y;
    }
    MatchThenOneMore(p, y, "\n\n");
    assert p + [p[0]] + y == "\n\n\n\n" + y;
    assert "\n\n" + [p[0]] + y == "\n\n\n" + y;
  }

  /** After a replaced match, one more copy of the pattern's first
      character followed by text that does not continue the pattern is
      kept as it is. */
  lemma MatchThenOneMore(p: string, y: string, v: string)
    requires |p| >= 2 && p[1] !in y && Replace(y, p, v) == y
    ensures Replace(p + [p[0]] + y, p, v) == v + [p[0]] + y
  {
    var t := [p[0]] + y;
    assert p + [p[0]] + y == p + t;
    ReplaceAtFront(p, t, v);
    if |t| < |p| {
      ReplaceShort(t, p, v);
    } else {
      assert t[..|p|] != p by {
        assert t[1] == y[0];
      }
      assert t[1..] == y;
    }
  }

  /** Hence the pass is not idempotent: on a run of four newlines a second
      application shortens the run again. */
  lemma LineBreaksPassNotIdempotent(x: string, y: string)
    requires IsPlainLine(x) && IsPlainLine(y)
    ensures LineBreaksPass(LineBreaksPass(x + "\n\n\n\n" + y)) != LineBreaksPass(x + "\n\n\n\n" + y)
  {
    FourNewlinesLeaveThree(x, y);
    ThreeNewlinesBecomeTwo(x, y);
    assert |x + "\n\n" + y| != |x + "\n\n\n" + y|;
  }
}
