/** The loops of the Pkl re-indenter (plugins/pkl/pkl_format.go), proved against what formatting means. */
module PklFormatter {
  import opened PklFormat

  // ----- Splitting and units -----

  method SplitLinesPreserve(text: string) returns (lines: seq<string>)
    ensures lines == Split(text)
  {
    lines := [];
    var start := 0;
    while start < |text|
      invariant 0 <= start <= |text|
      invariant lines + Split(text[start..]) == Split(text)
    {
      var end := start;
      while end < |text| && text[end] != '\n'
        invariant start <= end <= |text|
        invariant SplitFrom(text[start..], end - start) == Split(text[start..])
      {
        end := end + 1;
      }
      lines := lines + [text[start..end]];
      if end == |text| {
        assert text[start..end] == text[start..];
        return;
      }
      assert text[start..][..end - start] == text[start..end];
      assert text[start..][end - start + 1..] == text[end + 1..];
      start := end + 1;
    }
  }

  method CountLeadingSpaces(line: string) returns (n: nat)
    ensures n == LeadingSpaces(line)
  {
    n := 0;
    while n < |line| && line[n] == ' '
      invariant n <= |line|
      invariant n + LeadingSpaces(line[n..]) == LeadingSpaces(line)
    {
      n := n + 1;
    }
  }

  method DetectIndentUnit(lines: seq<string>) returns (unit: string)
    ensures (if unit == "" then "  " else unit) == Unit(lines)
  {
    for i := 0 to |lines|
      invariant forall k | 0 <= k < i :: lines[k] == [] || lines[k][0] != '\t'
    {
      if lines[i] != [] && lines[i][0] == '\t' {
        return "\t";
      }
    }
    var min := 0;
    for i := 0 to |lines|
      invariant min == LeastPositive(Widths(lines)[..i])
    {
      assert Widths(lines)[..i + 1][..i] == Widths(lines)[..i];
      if Blank(lines[i]) {
        continue;
      }
      var n := CountLeadingSpaces(lines[i]);
      if n > 0 && (min == 0 || n < min) {
        min := n;
      }
    }
    assert Widths(lines)[..|lines|] == Widths(lines);
    if min > 0 {
      return Spaces(min);
    }
    return "";
  }

  // ----- Braces -----

  /** What is left to count from the middle of a line. */
  ghost function From(inBlock: bool, inString: bool, quote: char, escaped: bool, s: string): Lexed {
    if inBlock then LexBlock(s)
    else if !inString then Lex(s)
    else if escaped then Lex(AfterString(if s == [] then [] else s[1..], quote))
    else Lex(AfterString(s, quote))
  }

  /** What the counters say about the tokens seen so far. */
  ghost predicate Counted(done: string, seen: bool, leading: bool, pre: nat, post: int) {
    (seen <==> TrimLeft(done) != []) &&
    (leading <==> AllClosers(TrimLeft(done))) &&
    pre == LeadingClosers(TrimLeft(done)) &&
    post == pre + Count(done, '{') - Count(done, '}')
  }

  lemma {:induction false} TrimAppend(done: string, c: char)
    ensures TrimLeft(done + [c]) ==
            if TrimLeft(done) == [] && (c == ' ' || c == '\t') then [] else TrimLeft(done) + [c]
  {
    if done == [] {
      assert done + [c] == [c];
      assert [c][1..] == [];
    } else {
      assert (done + [c])[1..] == done[1..] + [c];
      TrimAppend(done[1..], c);
    }
  }

  lemma {:induction false} ClosersAppend(s: string, c: char)
    ensures LeadingClosers(s + [c]) == LeadingClosers(s) + if AllClosers(s) && c == '}' then 1 else 0
    ensures AllClosers(s + [c]) <==> AllClosers(s) && c == '}'
  {
    assert (s + [c])[|s|] == c;
    assert forall i | 0 <= i < |s| :: (s + [c])[i] == s[i];
    if s != [] {
      assert (s + [c])[1..] == s[1..] + [c];
      ClosersAppend(s[1..], c);
      assert s == [s[0]] + s[1..];
    } else {
      assert s + [c] == [c];
      assert [c][1..] == [];
    }
  }

  /** One more token. */
  lemma {:induction false} CountToken(done: string, c: char, seen: bool, leading: bool, pre: nat, post: int)
    requires Counted(done, seen, leading, pre, post)
    ensures !seen ==> leading
    ensures var skip, closer := !seen && (c == ' ' || c == '\t'), leading && c == '}';
            Counted(done + [c], !skip, skip || closer, pre + if closer then 1 else 0,
                    post + if c == '{' then 1 else if c == '}' && !leading then -1 else 0)
  {
    TrimAppend(done, c);
    ClosersAppend(TrimLeft(done), c);
    assert (done + [c])[..|done|] == done;
  }

  /** One step through a line. */
  lemma {:induction false} FromNext(inBlock: bool, inString: bool, quote: char, escaped: bool, s: string)
    requires s != [] && (inBlock ==> !inString)
    ensures inBlock ==>
              From(inBlock, inString, quote, escaped, s) ==
              if |s| > 1 && s[0] == '*' && s[1] == '/' then From(false, inString, quote, escaped, s[2..])
              else From(true, inString, quote, escaped, s[1..])
    ensures inString ==>
              From(inBlock, inString, quote, escaped, s) ==
              From(false, escaped || s[0] == '\\' || s[0] != quote, quote, !escaped && s[0] == '\\', s[1..])
    ensures !inBlock && !inString ==>
              From(inBlock, inString, quote, escaped, s) ==
              if |s| > 1 && s[0] == '/' && s[1] == '/' then Lexed([], false)
              else if |s| > 1 && s[0] == '/' && s[1] == '*' then From(true, false, quote, escaped, s[2..])
              else Prepend(Token(s[0]), if IsQuote(s[0]) then From(false, true, s[0], false, s[1..])
                                        else From(false, false, quote, escaped, s[1..]))
  {
  }

  predicate IsQuote(c: char) { c == '"' || c == '\'' }

  /** The token that a character outside comments starts. */
  function Token(c: char): char { if c == '\'' then '"' else c }

  ghost function Prepend(c: char, l: Lexed): Lexed { Lexed([c] + l.tokens, l.inBlock) }

  ghost function After(done: string, l: Lexed): Lexed { Lexed(done + l.tokens, l.inBlock) }

  lemma {:induction false} AfterToken(done: string, c: char, l: Lexed)
    ensures After(done, Prepend(c, l)) == After(done + [c], l)
  {
    assert done + ([c] + l.tokens) == (done + [c]) + l.tokens;
  }

  lemma {:induction false} StartOfLine(line: string, inBlock: bool)
    ensures LexLine(line, inBlock) == After([], From(inBlock, false, ' ', false, line))
    ensures Counted([], false, true, 0, 0)
  {
  }

  lemma {:induction false} EndOfLine(inBlock: bool, inString: bool, quote: char, escaped: bool)
    requires inBlock ==> !inString
    ensures From(inBlock, inString, quote, escaped, []) == Lexed([], inBlock)
  {
  }

  lemma {:induction false} CountersAtEnd(line: string, inBlock: bool, done: string, open: bool, seen: bool,
      leading: bool,
                                         pre: nat, post: int)
    requires LexLine(line, inBlock) == After(done, Lexed([], open)) && Counted(done, seen, leading, pre, post)
    ensures pre == Closes(line, inBlock) && post == Delta(line, inBlock) && open == LexLine(line, inBlock).inBlock
  {
    assert done + [] == done;
  }

  method ScanBraceDeltas(line: string, inBlock: bool) returns (preDedent: nat, postDelta: int, outInBlock: bool)
    ensures preDedent == Closes(line, inBlock)
    ensures postDelta == Delta(line, inBlock)
    ensures outInBlock == LexLine(line, inBlock).inBlock
  {
    hide From, LexLine, Lex, LexBlock, Counted, Closes, Delta, After, Prepend;
    preDedent, postDelta, outInBlock := 0, 0, inBlock;
    var inString, quote, escaped, seen, leading := false, ' ', false, false, true;
    ghost var done: string := [];
    StartOfLine(line, inBlock);
    assert line[0..] == line;
    var i := 0;
    while i < |line|
      invariant 0 <= i <= |line|
      invariant outInBlock ==> !inString
      invariant Counted(done, seen, leading, preDedent, postDelta)
      invariant LexLine(line, inBlock) == After(done, From(outInBlock, inString, quote, escaped, line[i..]))
    {
      var c := line[i];
      ghost var rest := line[i..];
      assert rest[1..] == line[i + 1..];
      assert i + 1 < |line| ==> rest[1] == line[i + 1] && rest[2..] == line[i + 2..];
      FromNext(outInBlock, inString, quote, escaped, rest);
      if outInBlock {
        if c == '*' && i + 1 < |line| && line[i + 1] == '/' {
          outInBlock := false;
          i := i + 2;
          continue;
        }
        i := i + 1;
        continue;
      }
      if inString {
        if escaped {
          escaped := false;
        } else if c == '\\' {
          escaped := true;
        } else if c == quote {
          inString := false;
        }
        i := i + 1;
        continue;
      }
      if c == '/' && i + 1 < |line| {
        if line[i + 1] == '/' {
          CountersAtEnd(line, inBlock, done, false, seen, leading, preDedent, postDelta);
          return;
        }
        if line[i + 1] == '*' {
          outInBlock := true;
          i := i + 2;
          continue;
        }
      }
      CountToken(done, Token(c), seen, leading, preDedent, postDelta);
      AfterToken(done, Token(c), if IsQuote(c) then From(false, true, c, false, line[i + 1..])
                                 else From(false, false, quote, escaped, line[i + 1..]));
      done := done + [Token(c)];
      if !seen && (c == ' ' || c == '\t') {
        i := i + 1;
        continue;
      }
      seen := true;
      if IsQuote(c) {
        inString, quote, escaped := true, c, false;
        i := i + 1;
        leading := false;
        continue;
      }
      if c == '{' {
        postDelta := postDelta + 1;
        leading := false;
      } else if c == '}' {
        if leading {
          preDedent := preDedent + 1;
        } else {
          postDelta := postDelta - 1;
        }
      } else {
        leading := false;
      }
      i := i + 1;
    }
    assert line[i..] == [];
    EndOfLine(outInBlock, inString, quote, escaped);
    CountersAtEnd(line, inBlock, done, outInBlock, seen, leading, preDedent, postDelta);
  }

  // ----- Formatting -----

  method WriteIndent(out: string, level: nat, unit: string) returns (r: string)
    ensures r == out + Repeat(unit, level)
  {
    r := out;
    for i := 0 to level
      invariant r + Repeat(unit, level - i) == out + Repeat(unit, level)
    {
      r := r + unit;
    }
  }

  /** The depth of the next line, and what the following ones depend on. */
  lemma {:induction false} NextDepth(lines: seq<string>, depths: seq<nat>, i: nat, level: nat, inBlock: bool)
    requires i < |lines| == |depths| && depths[i..] == Depths(lines[i..], level, inBlock)
    ensures var t := TrimLeft(lines[i]);
            if Blank(lines[i]) then depths[i + 1..] == Depths(lines[i + 1..], level, inBlock)
            else if IsComment(t) then depths[i] == level && depths[i + 1..] == Depths(lines[i + 1..], level, inBlock)
            else depths[i] == Max0(level - Closes(t, inBlock)) &&
                 depths[i + 1..] ==
                 Depths(lines[i + 1..], Max0(depths[i] + Delta(t, inBlock)), LexLine(t, inBlock).inBlock)
  {
    assert lines[i..][0] == lines[i] && lines[i..][1..] == lines[i + 1..];
    assert depths[i..][0] == depths[i] && depths[i..][1..] == depths[i + 1..];
  }

  /** What is still to be written begins with the next line. */
  lemma {:induction false} NextText(outs: seq<string>, i: nat, out: string)
    requires i < |outs|
    ensures out + Text(outs[i..]) ==
            (out + outs[i] + (if i < |outs| - 1 || outs[i] == [] then "\n" else [])) + Text(outs[i + 1..])
  {
    assert outs[i..][1..] == outs[i + 1..];
  }

  lemma {:induction false} LineToWrite(lines: seq<string>, depths: seq<nat>, unit: string, i: nat)
    requires i < |lines| == |depths|
    ensures Blank(lines[i]) ==> Indented(lines, depths, unit)[i] == []
    ensures !Blank(lines[i]) ==>
              Indented(lines, depths, unit)[i] == Repeat(unit, depths[i]) + TrimLeft(lines[i]) &&
              Indented(lines, depths, unit)[i] != []
  {
    if !Blank(lines[i]) {
      TrimmedStart(lines[i]);
    }
  }

  method WriteLine(out: string, level: nat, unit: string, text: string, last: bool) returns (r: string)
    ensures r == out + (Repeat(unit, level) + text) + if last then [] else "\n"
  {
    r := WriteIndent(out, level, unit);
    r := r + text;
    if !last {
      r := r + "\n";
    }
  }

  method Format(src: string) returns (out: string)
    ensures out == Formatted(src)
  {
    hide Depths, Text, Indented, Split, Unit, Repeat, Closes, Delta, LexLine, IsComment, TrimLeft, Blank;
    var lines := SplitLinesPreserve(src);
    var unit := DetectIndentUnit(lines);
    if unit == "" {
      unit := "  ";
    }
    ghost var depths := Depths(lines, 0, false);
    ghost var outs := Indented(lines, depths, unit);
    assert outs == FormattedLines(src);
    assert depths[0..] == depths && lines[0..] == lines && outs[0..] == outs;
    out := "";
    var indent, inBlockComment := 0, false;
    for i := 0 to |lines|
      invariant indent >= 0
      invariant depths[i..] == Depths(lines[i..], indent, inBlockComment)
      invariant out + Text(outs[i..]) == Text(outs)
    {
      NextDepth(lines, depths, i, indent, inBlockComment);
      NextText(outs, i, out);
      LineToWrite(lines, depths, unit, i);
      var raw := lines[i];
      if Blank(raw) {
        out := out + "\n";
        continue;
      }
      var leftTrim := TrimLeft(raw);
      if IsComment(leftTrim) {
        out := WriteLine(out, indent, unit, leftTrim, i == |lines| - 1);
        continue;
      }
      var preDedent, postDelta, newInBlock := ScanBraceDeltas(leftTrim, inBlockComment);
      if preDedent > indent {
        indent := 0;
      } else {
        indent := indent - preDedent;
      }
      out := WriteLine(out, indent, unit, leftTrim, i == |lines| - 1);
      indent := indent + postDelta;
      if indent < 0 {
        indent := 0;
      }
      inBlockComment := newInBlock;
    }
    EmptyText(outs);
  }

  lemma {:induction false} EmptyText(outs: seq<string>)
    ensures Text(outs[|outs|..]) == []
  {
  }
}
