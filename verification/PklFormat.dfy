/** The re-indenter for Pkl text (plugins/pkl/pkl_format.go). */
module PklFormat {

  // ----- Characters and lines -----

  predicate IsSpace(c: char) {
    c == ' ' || '\t' <= c <= '\r' || '\U{2000}' <= c <= '\U{200a}' ||
    c in {'\U{0085}', '\U{00a0}', '\U{1680}', '\U{2028}', '\U{2029}', '\U{202f}', '\U{205f}', '\U{3000}'}
  }

  predicate Blank(line: string) { forall i | 0 <= i < |line| :: IsSpace(line[i]) }

  /** The line without its leading spaces and tabs. */
  function TrimLeft(line: string): string {
    if line != [] && (line[0] == ' ' || line[0] == '\t') then TrimLeft(line[1..]) else line
  }

  /** The lines of a text; a final newline ends the last line and starts no new one. */
  function Split(text: string): seq<string>
    decreases |text|, |text| + 1
  {
    if text == [] then [] else SplitFrom(text, 0)
  }

  function SplitFrom(text: string, i: nat): seq<string>
    requires i <= |text|
    decreases |text|, |text| - i
  {
    if i == |text| then [text]
    else if text[i] == '\n' then [text[..i]] + Split(text[i + 1..])
    else SplitFrom(text, i + 1)
  }

  /** The text of a list of lines: an empty line always ends in a newline, any other only when a line follows. */
  function Text(lines: seq<string>): string {
    if lines == [] then []
    else lines[0] + (if |lines| > 1 || lines[0] == [] then "\n" else []) + Text(lines[1..])
  }

  // ----- Braces -----

  /** What counts of a line: its characters without comments, with one quote for each string; and whether it ends inside
      a block comment. */
  datatype Lexed = Lexed(tokens: string, inBlock: bool)

  function Lex(s: string): Lexed
    decreases |s|
  {
    if s == [] then Lexed([], false)
    else if s[0] == '/' && |s| > 1 && s[1] == '/' then Lexed([], false)
    else if s[0] == '/' && |s| > 1 && s[1] == '*' then LexBlock(s[2..])
    else if s[0] == '"' || s[0] == '\'' then
      var rest := Lex(AfterString(s[1..], s[0]));
      Lexed(['"'] + rest.tokens, rest.inBlock)
    else
      var rest := Lex(s[1..]);
      Lexed([s[0]] + rest.tokens, rest.inBlock)
  }

  /** The same, from inside a block comment. */
  function LexBlock(s: string): Lexed
    decreases |s|
  {
    if s == [] then Lexed([], true)
    else if s[0] == '*' && |s| > 1 && s[1] == '/' then Lex(s[2..])
    else LexBlock(s[1..])
  }

  /** What follows a string that has been opened with this quote. */
  function AfterString(s: string, quote: char): (r: string)
    ensures |r| <= |s|
  {
    if s == [] then []
    else if s[0] == '\\' then (if |s| > 1 then AfterString(s[2..], quote) else [])
    else if s[0] == quote then s[1..]
    else AfterString(s[1..], quote)
  }

  function LexLine(line: string, inBlock: bool): Lexed { if inBlock then LexBlock(line) else Lex(line) }

  function Count(s: string, c: char): nat {
    if s == [] then 0 else Count(s[..|s| - 1], c) + if s[|s| - 1] == c then 1 else 0
  }

  predicate AllClosers(s: string) { forall i | 0 <= i < |s| :: s[i] == '}' }

  /** How many closing braces the tokens begin with. */
  function LeadingClosers(tokens: string): nat {
    if tokens != [] && tokens[0] == '}' then 1 + LeadingClosers(tokens[1..]) else 0
  }

  /** How many levels a line closes before its text, and how many it then opens or closes. */
  function Closes(line: string, inBlock: bool): nat { LeadingClosers(TrimLeft(LexLine(line, inBlock).tokens)) }

  function Delta(line: string, inBlock: bool): int {
    var tokens := LexLine(line, inBlock).tokens;
    Closes(line, inBlock) + Count(tokens, '{') - Count(tokens, '}')
  }

  // ----- Formatting -----

  function Max0(x: int): nat { if x < 0 then 0 else x }

  predicate IsComment(trimmed: string) { |trimmed| >= 2 && trimmed[0] == '/' && trimmed[1] == '/' }

  /** The depth of each line, given the level and comment state before them; blank lines have none. */
  function Depths(lines: seq<string>, level: nat, inBlock: bool): (ds: seq<nat>)
    ensures |ds| == |lines|
  {
    if lines == [] then []
    else if Blank(lines[0]) then [0] + Depths(lines[1..], level, inBlock)
    else
      var trimmed := TrimLeft(lines[0]);
      if IsComment(trimmed) then [level] + Depths(lines[1..], level, inBlock)
      else
        var depth := Max0(level - Closes(trimmed, inBlock));
        [depth] + Depths(lines[1..], Max0(depth + Delta(trimmed, inBlock)), LexLine(trimmed, inBlock).inBlock)
  }

  function Repeat(unit: string, n: nat): string { if n == 0 then [] else unit + Repeat(unit, n - 1) }

  function Indented(lines: seq<string>, depths: seq<nat>, unit: string): (out: seq<string>)
    requires |depths| == |lines|
    ensures |out| == |lines|
  {
    seq(|lines|, i requires 0 <= i < |lines| =>
      if Blank(lines[i]) then [] else Repeat(unit, depths[i]) + TrimLeft(lines[i]))
  }

  function LeadingSpaces(line: string): nat {
    if line != [] && line[0] == ' ' then 1 + LeadingSpaces(line[1..]) else 0
  }

  /** The least positive element, or 0. */
  function LeastPositive(xs: seq<nat>): nat {
    if xs == [] then 0
    else
      var least, x := LeastPositive(xs[..|xs| - 1]), xs[|xs| - 1];
      if x > 0 && (least == 0 || x < least) then x else least
  }

  function Widths(lines: seq<string>): (ws: seq<nat>)
    ensures |ws| == |lines|
  {
    seq(|lines|, i requires 0 <= i < |lines| => if Blank(lines[i]) then 0 else LeadingSpaces(lines[i]))
  }

  predicate TabFirst(lines: seq<string>) { exists i | 0 <= i < |lines| :: lines[i] != [] && lines[i][0] == '\t' }

  function Spaces(n: nat): string { seq(n, _ => ' ') }

  function Unit(lines: seq<string>): string {
    if TabFirst(lines) then "\t"
    else if LeastPositive(Widths(lines)) > 0 then Spaces(LeastPositive(Widths(lines)))
    else "  "
  }

  function FormattedLines(text: string): seq<string> {
    var lines := Split(text);
    Indented(lines, Depths(lines, 0, false), Unit(lines))
  }

  function Formatted(text: string): string { Text(FormattedLines(text)) }

  // ----- Lines survive -----

  ghost predicate OneLine(line: string) { '\n' !in line }

  lemma {:induction false} SplitLines(text: string)
    ensures forall i | 0 <= i < |Split(text)| :: OneLine(Split(text)[i])
    decreases |text|, |text| + 1
  {
    if text != [] {
      SplitLinesFrom(text, 0);
    }
  }

  lemma {:induction false} SplitLinesFrom(text: string, i: nat)
    requires i <= |text| && '\n' !in text[..i]
    ensures forall k | 0 <= k < |SplitFrom(text, i)| :: OneLine(SplitFrom(text, i)[k])
    decreases |text|, |text| - i
  {
    if i == |text| {
      assert text[..i] == text;
    } else if text[i] == '\n' {
      SplitLines(text[i + 1..]);
    } else {
      assert text[..i + 1] == text[..i] + [text[i]];
      SplitLinesFrom(text, i + 1);
    }
  }

  lemma {:induction false} SplitOne(line: string, rest: string, i: nat)
    requires OneLine(line) && i <= |line|
    ensures SplitFrom(line + "\n" + rest, i) == [line] + Split(rest)
    decreases |line| - i
  {
    var text := line + "\n" + rest;
    if i == |line| {
      assert text[..i] == line && text[i + 1..] == rest;
    } else {
      assert text[i] == line[i];
      SplitOne(line, rest, i + 1);
    }
  }

  lemma {:induction false} SplitLast(line: string, i: nat)
    requires OneLine(line) && i <= |line|
    ensures SplitFrom(line, i) == [line]
    decreases |line| - i
  {
    if i < |line| {
      SplitLast(line, i + 1);
    }
  }

  /** Splitting the text of a list of lines gives the list back. */
  lemma {:induction false} SplitText(lines: seq<string>)
    requires forall i | 0 <= i < |lines| :: OneLine(lines[i])
    ensures Split(Text(lines)) == lines
  {
    if lines != [] {
      SplitText(lines[1..]);
      if |lines| > 1 || lines[0] == [] {
        SplitOne(lines[0], Text(lines[1..]), 0);
        assert Text(lines) == lines[0] + "\n" + Text(lines[1..]);
      } else {
        SplitLast(lines[0], 0);
        assert lines == [lines[0]] && Text(lines) == lines[0];
      }
    }
  }

  // ----- What formatting keeps -----

  lemma {:induction false} TrimmedStart(line: string)
    requires !Blank(line)
    ensures TrimLeft(line) != [] && TrimLeft(line)[0] != ' ' && TrimLeft(line)[0] != '\t' && !Blank(TrimLeft(line))
    ensures OneLine(line) ==> OneLine(TrimLeft(line))
  {
    if line[0] == ' ' || line[0] == '\t' {
      assert !Blank(line[1..]);
      TrimmedStart(line[1..]);
    }
  }

  ghost predicate Whitespace(s: string) { forall i | 0 <= i < |s| :: s[i] == ' ' || s[i] == '\t' }

  lemma {:induction false} TrimIndent(indent: string, text: string)
    requires Whitespace(indent) && (text == [] || (text[0] != ' ' && text[0] != '\t'))
    ensures TrimLeft(indent + text) == text
  {
    if indent == [] {
      assert indent + text == text;
    } else {
      assert (indent + text)[1..] == indent[1..] + text;
      TrimIndent(indent[1..], text);
    }
  }

  lemma {:induction false} RepeatWhitespace(unit: string, n: nat)
    requires Whitespace(unit)
    ensures Whitespace(Repeat(unit, n))
  {
    if n > 0 {
      RepeatWhitespace(unit, n - 1);
    }
  }

  lemma {:induction false} IndentedLine(line: string, unit: string, d: nat)
    requires Whitespace(unit) && OneLine(line) && !Blank(line)
    ensures var out := Repeat(unit, d) + TrimLeft(line);
            TrimLeft(out) == TrimLeft(line) && !Blank(out) && OneLine(out) && out != []
  {
    RepeatWhitespace(unit, d);
    TrimmedStart(line);
    TrimIndent(Repeat(unit, d), TrimLeft(line));
    var out := Repeat(unit, d) + TrimLeft(line);
    var i :| 0 <= i < |TrimLeft(line)| && !IsSpace(TrimLeft(line)[i]);
    assert out[|Repeat(unit, d)| + i] == TrimLeft(line)[i];
  }

  /** The lines differ only in their leading spaces and tabs, and in what blank lines hold. */
  ghost predicate SameText(a: seq<string>, b: seq<string>) {
    |a| == |b| &&
    forall i | 0 <= i < |a| :: (Blank(a[i]) <==> Blank(b[i])) && (!Blank(a[i]) ==> TrimLeft(a[i]) == TrimLeft(b[i]))
  }

  lemma {:induction false} UnitIsWhitespace(lines: seq<string>)
    ensures Whitespace(Unit(lines)) && Unit(lines) != []
  {
  }

  lemma {:induction false} IndentedSame(lines: seq<string>, depths: seq<nat>, unit: string)
    requires |depths| == |lines| && Whitespace(unit) && forall i | 0 <= i < |lines| :: OneLine(lines[i])
    ensures SameText(lines, Indented(lines, depths, unit))
    ensures forall i | 0 <= i < |lines| :: OneLine(Indented(lines, depths, unit)[i])
  {
    forall i | 0 <= i < |lines| && !Blank(lines[i])
      ensures var out := Indented(lines, depths, unit)[i];
              TrimLeft(out) == TrimLeft(lines[i]) && !Blank(out) && OneLine(out)
    {
      IndentedLine(lines[i], unit, depths[i]);
    }
  }

  /** Formatting keeps the number of lines, empties the blank ones, and keeps every other line's text after its leading
      blanks. */
  lemma {:induction false} TextKept(text: string)
    ensures Split(Formatted(text)) == FormattedLines(text)
    ensures SameText(Split(text), Split(Formatted(text)))
    ensures forall i | 0 <= i < |Split(text)| && Blank(Split(text)[i]) :: Split(Formatted(text))[i] == []
  {
    var lines := Split(text);
    SplitLines(text);
    UnitIsWhitespace(lines);
    IndentedSame(lines, Depths(lines, 0, false), Unit(lines));
    SplitText(FormattedLines(text));
  }

  /** Depths depend on the lines' text alone. */
  lemma {:induction false} DepthsOfText(a: seq<string>, b: seq<string>, level: nat, inBlock: bool)
    requires SameText(a, b)
    ensures Depths(a, level, inBlock) == Depths(b, level, inBlock)
  {
    if a != [] {
      assert SameText(a[1..], b[1..]);
      var t := TrimLeft(a[0]);
      if Blank(a[0]) || IsComment(t) {
        DepthsOfText(a[1..], b[1..], level, inBlock);
      } else {
        var next := Max0(Max0(level - Closes(t, inBlock)) + Delta(t, inBlock));
        DepthsOfText(a[1..], b[1..], next, LexLine(t, inBlock).inBlock);
      }
    }
  }

  // ----- When formatting again changes nothing -----

  lemma {:induction false} RepeatSpaces(n: nat, d: nat)
    ensures Repeat(Spaces(n), d) == Spaces(d * n)
  {
    if d > 0 {
      RepeatSpaces(n, d - 1);
      assert d * n == n + (d - 1) * n;
    }
  }

  lemma {:induction false} RepeatLength(unit: string, d: nat)
    ensures |Repeat(unit, d)| == d * |unit|
  {
    if d > 0 {
      RepeatLength(unit, d - 1);
      assert d * |unit| == |unit| + (d - 1) * |unit|;
    }
  }

  lemma {:induction false} LeadingOf(n: nat, text: string)
    requires text != [] && text[0] != ' '
    ensures LeadingSpaces(Spaces(n) + text) == n
  {
    if n == 0 {
      assert Spaces(n) + text == text;
    } else {
      assert (Spaces(n) + text)[1..] == Spaces(n - 1) + text;
      LeadingOf(n - 1, text);
    }
  }

  function Scaled(xs: seq<nat>, n: nat): (ys: seq<nat>)
    ensures |ys| == |xs|
  {
    seq(|xs|, i requires 0 <= i < |xs| => xs[i] * n)
  }

  lemma {:induction false} Grows(n: nat, x: nat, y: nat)
    requires n > 0
    ensures x < y ==> x * n < y * n
  {
    if x < y {
      assert y * n == x * n + (y - x) * n;
    }
  }

  lemma {:induction false} LeastScaled(xs: seq<nat>, n: nat)
    requires n > 0
    ensures LeastPositive(Scaled(xs, n)) == LeastPositive(xs) * n
  {
    if xs != [] {
      var last := |xs| - 1;
      assert Scaled(xs, n)[..last] == Scaled(xs[..last], n);
      LeastScaled(xs[..last], n);
      Grows(n, 0, xs[last]);
      Grows(n, 0, LeastPositive(xs[..last]));
      Grows(n, xs[last], LeastPositive(xs[..last]));
      Grows(n, LeastPositive(xs[..last]), xs[last]);
    }
  }

  lemma {:induction false} LeastBounds(xs: seq<nat>)
    ensures LeastPositive(xs) == 0 <==> forall i | 0 <= i < |xs| :: xs[i] == 0
    ensures LeastPositive(xs) == 1 <==> 1 in xs
  {
    if xs != [] {
      var last := |xs| - 1;
      LeastBounds(xs[..last]);
      assert xs == xs[..last] + [xs[last]];
    }
  }

  /** The unit found in text that was indented by a number of spaces. */
  lemma {:induction false} UnitOfSpaced(lines: seq<string>, depths: seq<nat>, n: nat)
    requires |depths| == |lines| && n > 0
    requires forall i | 0 <= i < |lines| :: OneLine(lines[i]) && (Blank(lines[i]) ==> depths[i] == 0)
    ensures var out := Indented(lines, depths, Spaces(n));
            Unit(out) == if LeastPositive(depths) > 0 then Spaces(LeastPositive(depths) * n) else "  "
  {
    hide Indented, Widths, Blank, LeastPositive, OneLine, Scaled, Spaces;
    var out := Indented(lines, depths, Spaces(n));
    forall i | 0 <= i < |lines|
      ensures Widths(out)[i] == Scaled(depths, n)[i]
      ensures out[i] == [] || out[i][0] != '\t'
    {
      WidthOfSpaced(lines, depths, n, i);
    }
    assert Widths(out) == Scaled(depths, n);
    LeastScaled(depths, n);
    Grows(n, 0, LeastPositive(depths));
  }

  lemma {:induction false} WidthOfSpaced(lines: seq<string>, depths: seq<nat>, n: nat, i: nat)
    requires |depths| == |lines| && n > 0 && i < |lines|
    requires OneLine(lines[i]) && (Blank(lines[i]) ==> depths[i] == 0)
    ensures var out := Indented(lines, depths, Spaces(n));
            Widths(out)[i] == Scaled(depths, n)[i] && (out[i] == [] || out[i][0] != '\t')
  {
    if !Blank(lines[i]) {
      WidthOfLine(lines[i], depths[i], n);
    }
  }

  lemma {:induction false} WidthOfLine(line: string, d: nat, n: nat)
    requires OneLine(line) && !Blank(line) && n > 0
    ensures var out := Repeat(Spaces(n), d) + TrimLeft(line);
            !Blank(out) && LeadingSpaces(out) == d * n && out[0] != '\t'
  {
    TrimmedStart(line);
    IndentedLine(line, Spaces(n), d);
    RepeatSpaces(n, d);
    hide Repeat, TrimLeft, LeadingSpaces, Blank;
    LeadingOf(d * n, TrimLeft(line));
    StartOfSpaced(d * n, TrimLeft(line));
  }

  lemma {:induction false} StartOfSpaced(n: nat, text: string)
    requires text != [] && text[0] != '\t'
    ensures (Spaces(n) + text)[0] != '\t'
  {
  }

  lemma {:induction false} BlankHasNoDepth(lines: seq<string>, level: nat, inBlock: bool, i: nat)
    requires i < |lines| && Blank(lines[i])
    ensures Depths(lines, level, inBlock)[i] == 0
  {
    if i > 0 {
      var t := TrimLeft(lines[0]);
      if Blank(lines[0]) || IsComment(t) {
        BlankHasNoDepth(lines[1..], level, inBlock, i - 1);
      } else {
        var next := Max0(Max0(level - Closes(t, inBlock)) + Delta(t, inBlock));
        BlankHasNoDepth(lines[1..], next, LexLine(t, inBlock).inBlock, i - 1);
      }
    }
  }

  /** No line is indented, or tabs are used, or some line is at depth one. */
  ghost predicate Steady(text: string) {
    var lines := Split(text);
    var depths := Depths(lines, 0, false);
    (forall i | 0 <= i < |depths| :: depths[i] == 0) || TabFirst(lines) || 1 in depths
  }

  /** Formatted lines are those that the second formatting starts from, so it only chooses a unit again. */
  lemma {:induction false} SecondPass(text: string)
    ensures var lines := Split(text);
            FormattedLines(Formatted(text)) == Indented(lines, Depths(lines, 0, false), Unit(FormattedLines(text)))
  {
    var lines, out := Split(text), FormattedLines(text);
    TextKept(text);
    DepthsOfText(lines, out, 0, false);
  }

  /** Formatting twice is formatting once exactly when the text is steady. */
  lemma {:induction false} IdempotentExactly(text: string)
    ensures Formatted(Formatted(text)) == Formatted(text) <==> Steady(text)
  {
    hide Depths, Unit, TabFirst, Split, Text, Indented, LeastPositive;
    var lines, out := Split(text), FormattedLines(text);
    var depths := Depths(lines, 0, false);
    SecondPass(text);
    TextKept(text);
    TextKept(Formatted(text));
    SplitLines(text);
    forall i | 0 <= i < |lines| && Blank(lines[i]) ensures depths[i] == 0 {
      BlankHasNoDepth(lines, 0, false, i);
    }
    UnitIsWhitespace(lines);
    UnitIsWhitespace(out);
    SameUnit(lines, depths, Unit(lines), Unit(out));
    SecondUnit(lines, depths);
  }

  /** Indented text has the unit it was indented by exactly when that unit is a tab or some line is at depth one, given
      that it is indented at all. */
  lemma {:induction false} SecondUnit(lines: seq<string>, depths: seq<nat>)
    requires |depths| == |lines|
    requires forall i | 0 <= i < |lines| :: OneLine(lines[i]) && (Blank(lines[i]) ==> depths[i] == 0)
    ensures (forall i | 0 <= i < |depths| :: depths[i] == 0) ||
            (Unit(Indented(lines, depths, Unit(lines))) == Unit(lines) <==> TabFirst(lines) || 1 in depths)
  {
    LeastBounds(depths);
    if TabFirst(lines) {
      TabsStay(lines, depths);
    } else {
      var n, m := |Unit(lines)|, LeastPositive(depths);
      assert n > 0 && Unit(lines) == Spaces(n);
      UnitOfSpaced(lines, depths, n);
      Grows(n, 1, m);
      assert |Spaces(m * n)| == m * n;
    }
  }

  lemma {:induction false} RepeatInjective(a: string, b: string, d: nat)
    requires d > 0 && Repeat(a, d) == Repeat(b, d)
    ensures a == b
  {
    RepeatLength(a, d);
    RepeatLength(b, d);
    Grows(d, |a|, |b|);
    Grows(d, |b|, |a|);
    assert Repeat(a, d)[..|a|] == a;
    assert Repeat(b, d)[..|b|] == b;
  }

  lemma {:induction false} EndCancels(a: string, b: string, t: string)
    requires a + t == b + t
    ensures a == b
  {
    assert |a + t| == |b + t|;
    assert (a + t)[..|a|] == a && (b + t)[..|b|] == b;
  }

  /** Indenting by two units gives the same lines exactly when the units are equal or no line is indented. */
  lemma {:induction false} SameUnit(lines: seq<string>, depths: seq<nat>, a: string, b: string)
    requires |depths| == |lines|
    requires forall i | 0 <= i < |lines| && Blank(lines[i]) :: depths[i] == 0
    ensures Indented(lines, depths, b) == Indented(lines, depths, a) <==>
            a == b || forall i | 0 <= i < |depths| :: depths[i] == 0
  {
    if Indented(lines, depths, b) == Indented(lines, depths, a) {
      if i :| 0 <= i < |depths| && depths[i] != 0 {
        assert Indented(lines, depths, b)[i] == Indented(lines, depths, a)[i];
        EndCancels(Repeat(a, depths[i]), Repeat(b, depths[i]), TrimLeft(lines[i]));
        RepeatInjective(a, b, depths[i]);
      }
    }
  }

  lemma {:induction false} TabsStay(lines: seq<string>, depths: seq<nat>)
    requires |depths| == |lines|
    requires forall i | 0 <= i < |lines| && Blank(lines[i]) :: depths[i] == 0
    ensures Unit(Indented(lines, depths, "\t")) == "\t" || forall i | 0 <= i < |depths| :: depths[i] == 0
  {
    if i :| 0 <= i < |depths| && depths[i] != 0 {
      assert Repeat("\t", depths[i])[0] == '\t';
      assert Indented(lines, depths, "\t")[i][0] == '\t';
    }
  }

  lemma {:induction false} TwoBraces()
    ensures !Blank("{{") && TrimLeft("{{") == "{{" && LexLine("{{", false) == Lexed("{{", false)
    ensures Closes("{{", false) == 0 && Delta("{{", false) == 2
  {
    assert !IsSpace("{{"[0]);
    assert Lex("{") == Lexed("{", false);
    assert Lex("{{") == Lexed("{{", false);
    assert "{{"[..1] == "{";
    assert Count("{", '{') == 1 && Count("{", '}') == 0;
  }

  lemma {:induction false} DeepLine()
    ensures Depths(["x"], 2, false) == [2]
  {
    assert !IsSpace("x"[0]);
    assert Lex("x") == Lexed("x", false);
  }

  /** Two braces opened on one line put the next line at depth two, and formatting again moves it again. */
  lemma {:induction false} NotAlwaysIdempotent()
    ensures Formatted(Formatted("{{\nx")) != Formatted("{{\nx")
  {
    hide Split, Blank, TrimLeft, LexLine, Closes, Delta, Formatted;
    var text := "{{\nx";
    var lines := ["{{", "x"];
    assert lines[1..] == ["x"];
    TextOfTwo();
    SplitText(lines);
    TwoBraces();
    DeepLine();
    var depths := Depths(lines, 0, false);
    assert depths == [0, 2] && depths[1] == 2 && 1 !in depths;
    assert !TabFirst(lines);
    IdempotentExactly(text);
  }

  lemma {:induction false} TextOfTwo()
    ensures Text(["{{", "x"]) == "{{\nx"
  {
    var lines := ["{{", "x"];
    assert lines[1..] == ["x"];
    assert Text(["x"]) == "x";
  }
}
