/** What counts of a line of Pkl text, and what that makes of the depth of each line (plugins/pkl/pkl_format.go,
    `scanBraceDeltas`): a line is taken apart into characters, strings and comments without any scanning. */
module PklLexing {
  import opened PklFormat

  // ----- The parts of a line -----

  datatype Part = Plain(c: char) | Quoted(quote: char, body: string) | Block(text: string)

  /** What ends a line: nothing, a line comment, or a string or block comment that is not closed on it. */
  datatype End = Done | LineComment(text: string) | OpenString(quote: char, body: string) | OpenBlock(text: string)

  /** A text in which the quote and backslashes are escaped; an open one may end in a backslash. */
  predicate IsBody(s: string, quote: char, open: bool) {
    s == [] ||
    if s[0] == '\\' then (if |s| == 1 then open else IsBody(s[2..], quote, open))
    else s[0] != quote && IsBody(s[1..], quote, open)
  }

  predicate NeverCloses(s: string) { forall i | 0 <= i < |s| - 1 && s[i] == '*' :: s[i + 1] != '/' }

  function WritePart(p: Part): string {
    match p
    case Plain(c) => [c]
    case Quoted(quote, body) => [quote] + body + [quote]
    case Block(text) => "/*" + text + "*/"
  }

  function WriteEnd(e: End): string {
    match e
    case Done => ""
    case LineComment(text) => "//" + text
    case OpenString(quote, body) => [quote] + body
    case OpenBlock(text) => "/*" + text
  }

  function Write(parts: seq<Part>, e: End): string {
    if parts == [] then WriteEnd(e) else WritePart(parts[0]) + Write(parts[1..], e)
  }

  predicate IsPart(p: Part, next: string) {
    match p
    case Plain(c) => c != '"' && c != '\'' && !(c == '/' && next != [] && (next[0] == '/' || next[0] == '*'))
    case Quoted(quote, body) => (quote == '"' || quote == '\'') && IsBody(body, quote, false)
    case Block(text) => NeverCloses(text)
  }

  predicate IsEnd(e: End) {
    match e
    case Done => true
    case LineComment(_) => true
    case OpenString(quote, body) => (quote == '"' || quote == '\'') && IsBody(body, quote, true)
    case OpenBlock(text) => NeverCloses(text)
  }

  predicate IsLine(parts: seq<Part>, e: End) {
    if parts == [] then IsEnd(e) else IsPart(parts[0], Write(parts[1..], e)) && IsLine(parts[1..], e)
  }

  /** Characters count as they are, a string as a quote, and comments not at all. */
  function TokenOf(p: Part): string { match p case Plain(c) => [c] case Quoted(_, _) => "\"" case Block(_) => "" }

  function TokensOf(parts: seq<Part>, e: End): string {
    if parts == [] then (if e.OpenString? then "\"" else "") else TokenOf(parts[0]) + TokensOf(parts[1..], e)
  }

  lemma {:induction false} StringEnds(body: string, quote: char, rest: string)
    requires IsBody(body, quote, false) && (quote == '"' || quote == '\'')
    ensures AfterString(body + [quote] + rest, quote) == rest
  {
    var s := body + [quote] + rest;
    if body == [] {
      assert s[1..] == rest;
    } else if body[0] == '\\' {
      assert s[2..] == body[2..] + [quote] + rest;
      StringEnds(body[2..], quote, rest);
    } else {
      assert s[1..] == body[1..] + [quote] + rest;
      StringEnds(body[1..], quote, rest);
    }
  }

  lemma {:induction false} StringStaysOpen(body: string, quote: char)
    requires IsBody(body, quote, true)
    ensures AfterString(body, quote) == []
  {
    if body != [] && body[0] == '\\' && |body| > 1 {
      StringStaysOpen(body[2..], quote);
    } else if body != [] && body[0] != '\\' {
      StringStaysOpen(body[1..], quote);
    }
  }

  lemma {:induction false} BlockEnds(text: string, rest: string)
    requires NeverCloses(text)
    ensures LexBlock(text + "*/" + rest) == Lex(rest)
  {
    var s := text + "*/" + rest;
    if text == [] {
      assert s[2..] == rest;
    } else {
      assert s[1..] == text[1..] + "*/" + rest;
      assert s[0] == text[0] && (|text| > 1 ==> s[1] == text[1]);
      assert forall i | 0 <= i < |text[1..]| :: text[1..][i] == text[i + 1];
      BlockEnds(text[1..], rest);
    }
  }

  lemma {:induction false} BlockStaysOpen(text: string)
    requires NeverCloses(text)
    ensures LexBlock(text) == Lexed([], true)
  {
    if text != [] {
      assert forall i | 0 <= i < |text[1..]| :: text[1..][i] == text[i + 1];
      BlockStaysOpen(text[1..]);
    }
  }

  lemma {:induction false} BlockPart(text: string, rest: string)
    requires NeverCloses(text)
    ensures IsPart(Block(text), rest) && WritePart(Block(text)) + rest == "/*" + (text + "*/" + rest)
  {
    assert "/*" + text + "*/" + rest == "/*" + (text + "*/" + rest);
  }

  lemma {:induction false} StringPart(quote: char, body: string, rest: string)
    requires IsBody(body, quote, false) && (quote == '"' || quote == '\'')
    ensures IsPart(Quoted(quote, body), rest)
    ensures WritePart(Quoted(quote, body)) + rest == [quote] + (body + [quote] + rest)
  {
    assert [quote] + body + [quote] + rest == [quote] + (body + [quote] + rest);
  }

  lemma {:induction false} LexPlain(c: char, rest: string)
    requires IsPart(Plain(c), rest)
    ensures Lex([c] + rest) == Lexed([c] + Lex(rest).tokens, Lex(rest).inBlock)
  {
    assert ([c] + rest)[1..] == rest;
  }

  lemma {:induction false} LexString(quote: char, rest: string)
    requires quote == '"' || quote == '\''
    ensures var l := Lex(AfterString(rest, quote)); Lex([quote] + rest) == Lexed("\"" + l.tokens, l.inBlock)
  {
    assert ([quote] + rest)[1..] == rest;
  }

  lemma {:induction false} LexComment(rest: string)
    ensures Lex("/*" + rest) == LexBlock(rest)
  {
    assert ("/*" + rest)[2..] == rest;
  }

  lemma {:induction false} LexPart(p: Part, rest: string)
    requires IsPart(p, rest)
    ensures Lex(WritePart(p) + rest) == Lexed(TokenOf(p) + Lex(rest).tokens, Lex(rest).inBlock)
  {
    hide Lex, LexBlock, AfterString, IsBody, NeverCloses, WritePart;
    match p
    case Plain(c) =>
      WritePlain(c);
      LexPlain(c, rest);
    case Quoted(quote, body) =>
      StringPart(quote, body, rest);
      StringEnds(body, quote, rest);
      LexString(quote, body + [quote] + rest);
    case Block(text) =>
      BlockPart(text, rest);
      BlockEnds(text, rest);
      LexComment(text + "*/" + rest);
      assert "" + Lex(rest).tokens == Lex(rest).tokens;
  }

  lemma {:induction false} WritePlain(c: char)
    ensures WritePart(Plain(c)) == [c]
  {
  }

  /** A line made of these parts is read as their tokens, and ends inside a block comment exactly if one is open. */
  lemma {:induction false} LexOfParts(parts: seq<Part>, e: End)
    requires IsLine(parts, e)
    ensures Lex(Write(parts, e)) == Lexed(TokensOf(parts, e), e.OpenBlock?)
  {
    if parts != [] {
      LexOfParts(parts[1..], e);
      LexPart(parts[0], Write(parts[1..], e));
    } else {
      match e
      case Done =>
      case LineComment(text) =>
      case OpenString(quote, body) =>
        assert ([quote] + body)[1..] == body;
        StringStaysOpen(body, quote);
      case OpenBlock(text) =>
        assert ("/*" + text)[2..] == text;
        BlockStaysOpen(text);
    }
  }

  /** The part of a string or block comment up to its end, if it has one. */
  lemma {:induction false} CutString(s: string, quote: char) returns (closed: bool, body: string, rest: string)
    ensures closed ==> IsBody(body, quote, false) && s == body + [quote] + rest
    ensures !closed ==> IsBody(s, quote, true)
  {
    if s == [] || (s[0] == '\\' && |s| == 1) {
      closed, body, rest := false, [], [];
    } else if s[0] != '\\' && s[0] == quote {
      closed, body, rest := true, [], s[1..];
    } else {
      var n := if s[0] == '\\' then 2 else 1;
      closed, body, rest := CutString(s[n..], quote);
      ghost var tail := body;
      body := s[..n] + body;
      assert body[n..] == tail;
    }
  }

  lemma {:induction false} CutBlock(s: string) returns (closed: bool, text: string, rest: string)
    ensures closed ==> NeverCloses(text) && s == text + "*/" + rest
    ensures !closed ==> NeverCloses(s)
  {
    if |s| < 2 {
      closed, text, rest := false, [], [];
    } else if s[0] == '*' && s[1] == '/' {
      closed, text, rest := true, [], s[2..];
      assert s == "*/" + rest;
    } else {
      closed, text, rest := CutBlock(s[1..]);
      if closed {
        assert s == [s[0]] + s[1..];
        text := [s[0]] + text;
      } else {
        assert forall i | 0 <= i < |s[1..]| :: s[1..][i] == s[i + 1];
      }
    }
  }

  /** Every line is made of such parts, so that the two lemmas describe the reading of every line. */
  lemma {:induction false} EveryLineHasParts(s: string) returns (parts: seq<Part>, e: End)
    ensures IsLine(parts, e) && Write(parts, e) == s
    decreases |s|, 1
  {
    hide IsPart, IsLine, Write, WritePart, WriteEnd, IsEnd, IsBody, NeverCloses;
    if s == [] {
      parts, e := [], Done;
      OnlyEnd(e);
    } else if |s| > 1 && s[0] == '/' && s[1] == '/' {
      parts, e := [], LineComment(s[2..]);
      OnlyEnd(e);
      assert s == "//" + s[2..];
    } else if |s| > 1 && s[0] == '/' && s[1] == '*' {
      parts, e := PartsOfBlock(s);
    } else if s[0] == '"' || s[0] == '\'' {
      parts, e := PartsOfString(s);
    } else {
      parts, e := EveryLineHasParts(s[1..]);
      PlainPart(s);
      parts := PutFirst(Plain(s[0]), parts, e);
      assert s == [s[0]] + s[1..];
    }
  }

  lemma {:induction false} OnlyEnd(e: End)
    requires e.Done? || e.LineComment?
    ensures IsLine([], e) && Write([], e) == if e.Done? then [] else "//" + e.text
  {
  }

  lemma {:induction false} PlainPart(s: string)
    requires s != [] && s[0] != '"' && s[0] != '\''
    requires !(|s| > 1 && s[0] == '/' && (s[1] == '/' || s[1] == '*'))
    ensures IsPart(Plain(s[0]), s[1..]) && WritePart(Plain(s[0])) == [s[0]]
  {
  }

  lemma {:induction false} PartsOfBlock(s: string) returns (parts: seq<Part>, e: End)
    requires |s| > 1 && s[0] == '/' && s[1] == '*'
    ensures IsLine(parts, e) && Write(parts, e) == s
    decreases |s|, 0
  {
    hide IsPart, IsLine, Write, WritePart, WriteEnd, IsBody, NeverCloses;
    assert s == "/*" + s[2..];
    var closed, text, rest := CutBlock(s[2..]);
    if closed {
      parts, e := EveryLineHasParts(rest);
      BlockPart(text, rest);
      parts := PutFirst(Block(text), parts, e);
    } else {
      parts, e := [], OpenBlock(s[2..]);
      OpenEnd(e);
    }
  }

  lemma {:induction false} OpenEnd(e: End)
    requires IsEnd(e) && (e.OpenBlock? || e.OpenString?)
    ensures IsLine([], e) && Write([], e) == if e.OpenBlock? then "/*" + e.text else [e.quote] + e.body
  {
  }

  lemma {:induction false} PartsOfString(s: string) returns (parts: seq<Part>, e: End)
    requires s != [] && (s[0] == '"' || s[0] == '\'')
    ensures IsLine(parts, e) && Write(parts, e) == s
    decreases |s|, 0
  {
    hide IsPart, IsLine, Write, WritePart, WriteEnd, IsBody, NeverCloses;
    assert s == [s[0]] + s[1..];
    var closed, body, rest := CutString(s[1..], s[0]);
    if closed {
      parts, e := EveryLineHasParts(rest);
      StringPart(s[0], body, rest);
      parts := PutFirst(Quoted(s[0], body), parts, e);
    } else {
      parts, e := [], OpenString(s[0], s[1..]);
      OpenEnd(e);
    }
  }

  lemma {:induction false} PutFirst(p: Part, parts: seq<Part>, e: End) returns (longer: seq<Part>)
    requires IsPart(p, Write(parts, e)) && IsLine(parts, e)
    ensures IsLine(longer, e) && Write(longer, e) == WritePart(p) + Write(parts, e)
  {
    longer := [p] + parts;
    assert longer[1..] == parts;
  }

  /** From inside a block comment, nothing counts up to the end of the comment. */
  lemma {:induction false} LexFromBlock(text: string, rest: string)
    requires NeverCloses(text)
    ensures LexLine(text, true) == Lexed([], true)
    ensures LexLine(text + "*/" + rest, true) == LexLine(rest, false)
  {
    BlockStaysOpen(text);
    BlockEnds(text, rest);
  }

  // ----- Leading blanks and closing braces -----

  /** What is trimmed are the leading spaces and tabs. */
  lemma {:induction false} TrimExactly(line: string) returns (k: nat)
    ensures k <= |line| && TrimLeft(line) == line[k..]
    ensures forall i | 0 <= i < k :: line[i] == ' ' || line[i] == '\t'
    ensures k == |line| || (line[k] != ' ' && line[k] != '\t')
  {
    k := 0;
    if line != [] && (line[0] == ' ' || line[0] == '\t') {
      k := TrimExactly(line[1..]);
      k := k + 1;
    }
  }

  lemma {:induction false} ClosersExactly(s: string)
    ensures var k := LeadingClosers(s);
            k <= |s| && (forall i | 0 <= i < k :: s[i] == '}') && (k == |s| || s[k] != '}')
  {
    if s != [] && s[0] == '}' {
      ClosersExactly(s[1..]);
    }
  }

  // ----- Depths -----

  /** The line has text, and that is more than a line comment. */
  predicate IsCode(line: string) {
    !Blank(line) && !(|TrimLeft(line)| >= 2 && TrimLeft(line)[0] == '/' && TrimLeft(line)[1] == '/')
  }

  /** What counts of a line that begins inside a block comment or not, and whether the next one does. */
  function LineTokens(line: string, inBlock: bool): string {
    if IsCode(line) then LexLine(TrimLeft(line), inBlock).tokens else ""
  }

  function BlockNext(line: string, inBlock: bool): bool {
    if IsCode(line) then LexLine(TrimLeft(line), inBlock).inBlock else inBlock
  }

  /** Whether the line after these ones begins inside a block comment. */
  function BlockAfter(lines: seq<string>): bool {
    lines != [] && BlockNext(lines[|lines| - 1], BlockAfter(lines[..|lines| - 1]))
  }

  function TokensAt(lines: seq<string>, i: nat): string
    requires i < |lines|
  {
    LineTokens(lines[i], BlockAfter(lines[..i]))
  }

  /** The closing braces that a line begins with. */
  function Closers(tokens: string): nat { LeadingClosers(TrimLeft(tokens)) }

  function ClosersAt(lines: seq<string>, i: nat): nat
    requires i < |lines|
  {
    Closers(TokensAt(lines, i))
  }

  /** The braces that a line opens, less those that it closes. */
  function Balance(tokens: string): int { Count(tokens, '{') - Count(tokens, '}') }

  function BalanceAt(lines: seq<string>, i: nat): int
    requires i < |lines|
  {
    Balance(TokensAt(lines, i))
  }

  /** The level after a line that begins with so many closing braces and has this balance. More closing braces than
      there are levels, at its beginning or on the whole line, take the level to zero and no further. */
  function LevelNext(level: nat, closers: nat, balance: int): (n: nat) {
    var n := balance + if closers > level then closers else level;
    if n < 0 then 0 else n
  }

  function Level(lines: seq<string>, i: nat): nat
    requires i <= |lines|
  {
    if i == 0 then 0 else LevelNext(Level(lines, i - 1), ClosersAt(lines, i - 1), BalanceAt(lines, i - 1))
  }

  /** The depth of a line with text is the level before it, less the closing braces that it begins with; blank lines
      have none. */
  lemma {:induction false} DepthsExactly(lines: seq<string>, i: nat)
    requires i < |lines|
    ensures Depths(lines, 0, false)[i] ==
            if Blank(lines[i]) || ClosersAt(lines, i) > Level(lines, i) then 0
            else Level(lines, i) - ClosersAt(lines, i)
  {
    assert lines[0..] == lines;
    DepthsFrom(lines, 0, i);
  }

  lemma {:induction false} DepthsFrom(lines: seq<string>, n: nat, i: nat)
    requires n <= i < |lines|
    ensures Depths(lines[n..], Level(lines, n), BlockAfter(lines[..n]))[i - n] ==
            if Blank(lines[i]) || ClosersAt(lines, i) > Level(lines, i) then 0
            else Level(lines, i) - ClosersAt(lines, i)
    decreases i - n
  {
    hide Depths, Blank, LineTokens, BlockNext, Closers, Balance, LevelNext;
    var tail, level, inBlock := lines[n..], Level(lines, n), BlockAfter(lines[..n]);
    assert lines[..n + 1][..n] == lines[..n];
    assert tail[1..] == lines[n + 1..];
    FirstDepth(tail, level, inBlock);
    LaterDepths(tail, level, inBlock);
    if n < i {
      DepthsFrom(lines, n + 1, i);
      assert Depths(tail, level, inBlock)[i - n] == Depths(tail, level, inBlock)[1..][i - (n + 1)];
    }
  }

  lemma {:induction false} FirstDepth(lines: seq<string>, level: nat, inBlock: bool)
    requires lines != []
    ensures var closers := Closers(LineTokens(lines[0], inBlock));
            Depths(lines, level, inBlock)[0] == if Blank(lines[0]) || closers > level then 0 else level - closers
  {
    hide LexLine, LeadingClosers, Blank, TrimLeft;
    NoTokens();
  }

  lemma {:induction false} LaterDepths(lines: seq<string>, level: nat, inBlock: bool)
    requires lines != []
    ensures var tokens := LineTokens(lines[0], inBlock);
            Depths(lines, level, inBlock)[1..] ==
            Depths(lines[1..], LevelNext(level, Closers(tokens), Balance(tokens)), BlockNext(lines[0], inBlock))
  {
    hide LexLine, LeadingClosers, Count, Blank, TrimLeft;
    NoTokens();
  }

  lemma {:induction false} NoTokens()
    ensures Count("", '{') == 0 && Count("", '}') == 0 && LeadingClosers(TrimLeft("")) == 0
  {
  }

  /** How many braces have been opened and not closed before a line. */
  function Open(lines: seq<string>, i: nat): int
    requires i <= |lines|
  {
    if i == 0 then 0 else Open(lines, i - 1) + BalanceAt(lines, i - 1)
  }

  /** No line closes more than is open, neither at its beginning nor as a whole. */
  ghost predicate IsNested(lines: seq<string>) {
    && (forall i | 0 <= i <= |lines| :: Open(lines, i) >= 0)
    && (forall i | 0 <= i < |lines| :: ClosersAt(lines, i) <= Open(lines, i))
  }

  /** In text whose braces are nested, the depth of a line with text is the number of braces that are open before
      it, less the closing ones that it begins with. */
  lemma {:induction false} NestedDepths(lines: seq<string>, i: nat)
    requires IsNested(lines) && i < |lines|
    ensures Depths(lines, 0, false)[i] == if Blank(lines[i]) then 0 else Open(lines, i) - ClosersAt(lines, i)
  {
    DepthsExactly(lines, i);
    LevelIsOpen(lines, i);
  }

  lemma {:induction false} LevelIsOpen(lines: seq<string>, i: nat)
    requires IsNested(lines) && i <= |lines|
    ensures Level(lines, i) == Open(lines, i)
  {
    hide IsNested, ClosersAt, BalanceAt;
    if i > 0 {
      LevelIsOpen(lines, i - 1);
      NestedAt(lines, i - 1);
    }
  }

  lemma {:induction false} NestedAt(lines: seq<string>, i: nat)
    requires IsNested(lines) && i < |lines|
    ensures ClosersAt(lines, i) <= Open(lines, i) && Open(lines, i + 1) >= 0
  {
    hide ClosersAt, Open;
  }

  // ----- Lines -----

  /** Lines, each ended by a newline. */
  function Ended(lines: seq<string>): string {
    if lines == [] then "" else lines[0] + "\n" + Ended(lines[1..])
  }

  /** Text is written with a newline between lines, and one at its end only if its last line is empty. */
  lemma {:induction false} TextExactly(lines: seq<string>, last: string)
    ensures Text([]) == ""
    ensures Text(lines + [last]) == Ended(lines) + last + if last == [] then "\n" else ""
  {
    if lines == [] {
      assert lines + [last] == [last];
    } else {
      TextExactly(lines[1..], last);
      assert (lines + [last])[1..] == lines[1..] + [last];
    }
  }

  /** What is written for a line: nothing for one of blanks, and otherwise the unit, as often as the line is deep, and
      the line from its first character that is no space or tab. */
  lemma {:induction false} FormattedLine(text: string, i: nat) returns (k: nat)
    requires i < |Split(text)|
    ensures |Split(Formatted(text))| == |Split(text)| && k <= |Split(text)[i]|
    ensures var line := Split(text)[i];
            (forall j | 0 <= j < k :: line[j] == ' ' || line[j] == '\t') &&
            (k == |line| || (line[k] != ' ' && line[k] != '\t'))
    ensures (forall c | c in Split(text)[i] :: c == ' ' || c == '\t' || c == '\r') ==> Split(Formatted(text))[i] == []
    ensures (exists c | c in Split(text)[i] :: '!' <= c <= '~') ==>
              Split(Formatted(text))[i] ==
              Repeat(Unit(Split(text)), Depths(Split(text), 0, false)[i]) + Split(text)[i][k..]
  {
    var lines := Split(text);
    k := TrimExactly(lines[i]);
    TextKept(text);
    hide Split, Formatted, Depths, Unit, Repeat, TrimLeft, Blank;
    BlankOrNot(lines[i]);
  }

  lemma {:induction false} BlankOrNot(line: string)
    ensures (forall c | c in line :: c == ' ' || c == '\t' || c == '\r') ==> Blank(line)
    ensures (exists c | c in line :: '!' <= c <= '~') ==> !Blank(line)
  {
    if c :| c in line && '!' <= c <= '~' {
      var j :| 0 <= j < |line| && line[j] == c;
      assert !IsSpace(line[j]);
    }
    if forall c | c in line :: c == ' ' || c == '\t' || c == '\r' {
      forall j | 0 <= j < |line| ensures IsSpace(line[j]) {
        assert line[j] in line;
      }
    }
  }

  /** The unit repeated is as many times as long and made of the same character. */
  lemma {:induction false} RepeatExactly(unit: string, d: nat, c: char)
    requires forall i | 0 <= i < |unit| :: unit[i] == c
    ensures |Repeat(unit, d)| == d * |unit| && forall i | 0 <= i < |Repeat(unit, d)| :: Repeat(unit, d)[i] == c
  {
    RepeatLength(unit, d);
    if d > 0 {
      RepeatExactly(unit, d - 1, c);
    }
  }

  /** A line begins with exactly this many spaces. */
  predicate IndentedBy(line: string, n: nat) {
    n <= |line| && (forall j | 0 <= j < n :: line[j] == ' ') && (n == |line| || line[n] != ' ')
  }

  lemma {:induction false} LeadingExactly(line: string, n: nat)
    ensures LeadingSpaces(line) == n <==> IndentedBy(line, n)
  {
    if line != [] && line[0] == ' ' && n > 0 {
      LeadingExactly(line[1..], n - 1);
      assert forall j | 0 < j < n :: j <= |line[1..]| ==> line[j] == line[1..][j - 1];
      assert IndentedBy(line[1..], n - 1) ==>
          forall j | 0 <= j < n :: line[j] == if j == 0 then ' ' else line[1..][j - 1];
    }
  }

  lemma {:induction false} LeastExactly(xs: seq<nat>)
    ensures var least := LeastPositive(xs);
            if least == 0 then forall x | x in xs :: x == 0
            else least in xs && forall x | x in xs && x > 0 :: least <= x
  {
    if xs != [] {
      LeastExactly(xs[..|xs| - 1]);
      assert xs == xs[..|xs| - 1] + [xs[|xs| - 1]];
    }
  }

  /** The unit is a tab if some line begins with one; otherwise the least number of spaces, above none, that a line
      with text begins with; otherwise two spaces. */
  lemma {:induction false} UnitExactly(lines: seq<string>)
    ensures var unit := Unit(lines);
            if exists i | 0 <= i < |lines| :: lines[i] != [] && lines[i][0] == '\t' then unit == "\t"
            else if forall i | 0 <= i < |lines| && !Blank(lines[i]) :: IndentedBy(lines[i], 0) then unit == "  "
            else
              && unit != [] && (forall j | 0 <= j < |unit| :: unit[j] == ' ')
              && (exists i | 0 <= i < |lines| && !Blank(lines[i]) :: IndentedBy(lines[i], |unit|))
              && (forall i, n: nat | 0 <= i < |lines| && !Blank(lines[i]) && IndentedBy(lines[i], n) ::
                    n == 0 || |unit| <= n)
  {
    var ws := Widths(lines);
    LeastExactly(ws);
    forall i, n: nat | 0 <= i < |lines| && !Blank(lines[i])
      ensures IndentedBy(lines[i], n) <==> ws[i] == n
    {
      LeadingExactly(lines[i], n);
    }
    hide LeadingSpaces, IndentedBy, Blank, LeastPositive;
    var least := LeastPositive(ws);
    if least > 0 {
      var i :| 0 <= i < |ws| && ws[i] == least;
      assert !Blank(lines[i]) && IndentedBy(lines[i], least) && !IndentedBy(lines[i], 0);
      forall k, n: nat | 0 <= k < |lines| && !Blank(lines[k]) && IndentedBy(lines[k], n) ensures n == 0 || least <= n {
        assert ws[k] == n && ws[k] in ws;
      }
    } else {
      forall k | 0 <= k < |lines| && !Blank(lines[k]) ensures IndentedBy(lines[k], 0) {
        assert ws[k] in ws;
      }
    }
  }
}
