/**
  The line-by-line comment stripper of the ledger generator, the character automaton it amounts
  to, and the discovery of Java test methods on top of it.
 */
module Lexer {
  import opened Outcomes
  import opened Text

  // ---- a character automaton for Java comments ----------------------------------------------------

  datatype Mode =
    | Code
    | Slash              // a '/' that may still open a comment
    | LineComment
    | Block
    | BlockStar          // inside a block comment, just after '*'
    | Quoted(q: char)
    | Escaped(q: char)   // inside quotes, just after '\'

  /** What one character emits, and the mode after it. */
  datatype Move = Move(out: string, mode: Mode)

  predicate IsQuote(c: char) { c == '"' || c == '\'' }

  function CodeMove(c: char): Move
  {
    if c == '/' then Move("", Slash) else Move([c], if IsQuote(c) then Quoted(c) else Code)
  }

  function Step(mode: Mode, c: char): Move
  {
    match mode
    case Code => CodeMove(c)
    case Slash =>
      if c == '/' then Move("", LineComment)
      else if c == '*' then Move("", Block)
      else Move("/" + CodeMove(c).out, CodeMove(c).mode)
    case LineComment => Move("", LineComment)
    case Block => Move("", if c == '*' then BlockStar else Block)
    case BlockStar => Move("", if c == '/' then Code else if c == '*' then BlockStar else Block)
    case Quoted(q) => Move([c], if c == '\\' then Escaped(q) else if c == q then Code else mode)
    case Escaped(q) => Move([c], Quoted(q))
  }

  /** What the end of a line emits: a '/' that opened nothing. */
  function Flush(mode: Mode): string { if mode.Slash? then "/" else "" }

  predicate InBlock(mode: Mode) { mode.Block? || mode.BlockStar? }

  /** The code on a line, and whether a block comment stays open after it. */
  datatype Lexed = Lexed(code: string, open: bool)

  function Lex(text: string, mode: Mode): Lexed
    decreases |text|
  {
    if text == "" then Lexed(Flush(mode), InBlock(mode))
    else
      var m := Step(mode, text[0]);
      var rest := Lex(text[1..], m.mode);
      Lexed(m.out + rest.code, rest.open)
  }

  function Entry(open: bool): Mode { if open then Block else Code }

  function Prepend(s: string, r: Lexed): Lexed { Lexed(s + r.code, r.open) }

  // ---- the stripper -----------------------------------------------------------------------------------

  // The first comment close at or after i, as str.find locates it.
  function FindClose(line: string, i: nat): (k: Option<nat>)
    ensures k.Some? ==> i <= k.value && k.value + 2 <= |line| && line[k.value..k.value + 2] == "*/"
    decreases |line| - i
  {
    if i + 2 > |line| then None
    else if line[i..i + 2] == "*/" then Some(i)
    else FindClose(line, i + 1)
  }

  predicate StartsAt(line: string, i: nat, prefix: string)
  {
    i + |prefix| <= |line| && line[i..i + |prefix|] == prefix
  }

  lemma {:induction false} LexStep(text: string, mode: Mode)
    requires text != ""
    ensures Lex(text, mode) == Prepend(Step(mode, text[0]).out, Lex(text[1..], Step(mode, text[0]).mode))
  {
  }

  lemma {:induction false} SuffixStep(line: string, i: nat)
    requires i < |line|
    ensures line[i..][0] == line[i] && line[i..][1..] == line[i + 1..]
  {
  }

  lemma {:induction false} StarIsBlock(text: string)
    requires text == "" || text[0] != '/'
    ensures Lex(text, BlockStar) == Lex(text, Block)
  {
  }

  /** A block comment ends at its first close, or not on this line. */
  lemma {:induction false} BlockEndsAtClose(line: string, i: nat)
    requires i <= |line|
    ensures match FindClose(line, i)
            case None => Lex(line[i..], Block) == Lexed("", true)
            case Some(k) => Lex(line[i..], Block) == Lex(line[k + 2..], Code)
    decreases |line| - i
  {
    if i < |line| {
      SuffixStep(line, i);
      LexStep(line[i..], Block);
      if StartsAt(line, i, "*/") {
        assert line[i..i + 2][0] == line[i] && line[i..i + 2][1] == line[i + 1];
        SuffixStep(line, i + 1);
        LexStep(line[i + 1..], BlockStar);
      } else {
        BlockEndsAtClose(line, i + 1);
        if line[i] == '*' {
          if i + 1 < |line| {
            assert line[i..i + 2] == [line[i], line[i + 1]];
            SuffixStep(line, i + 1);
          }
          StarIsBlock(line[i + 1..]);
        }
      }
    } else {
      assert line[i..] == "";
    }
  }

  lemma {:induction false} LineCommentSwallows(text: string)
    ensures Lex(text, LineComment) == Lexed("", false)
    decreases |text|
  {
    if text != "" { LineCommentSwallows(text[1..]); }
  }

  lemma {:induction false} OpensLineComment(line: string, i: nat)
    requires StartsAt(line, i, "//")
    ensures Lex(line[i..], Code) == Lexed("", false)
  {
    assert line[i..i + 2][0] == line[i] && line[i..i + 2][1] == line[i + 1];
    SuffixStep(line, i);
    SuffixStep(line, i + 1);
    LexStep(line[i..], Code);
    LexStep(line[i + 1..], Slash);
    LineCommentSwallows(line[i + 2..]);
  }

  lemma {:induction false} OpensBlock(line: string, i: nat)
    requires StartsAt(line, i, "/*")
    ensures Lex(line[i..], Code) == Lex(line[i + 2..], Block)
  {
    assert line[i..i + 2][0] == line[i] && line[i..i + 2][1] == line[i + 1];
    SuffixStep(line, i);
    SuffixStep(line, i + 1);
    LexStep(line[i..], Code);
    LexStep(line[i + 1..], Slash);
  }

  /** An ordinary code character, a lone '/' included. */
  lemma {:induction false} OrdinaryCode(line: string, i: nat)
    requires i < |line| && !StartsAt(line, i, "//") && !StartsAt(line, i, "/*")
    ensures Lex(line[i..], Code) == Prepend([line[i]], Lex(line[i + 1..], if IsQuote(line[i]) then Quoted(line[i]) else Code))
  {
    SuffixStep(line, i);
    LexStep(line[i..], Code);
    if line[i] == '/' {
      if i + 1 < |line| {
        assert line[i..i + 2] == [line[i], line[i + 1]];
        SuffixStep(line, i + 1);
        LexStep(line[i + 1..], Slash);
        LexStep(line[i + 1..], Code);
      } else {
        assert line[i + 1..] == "";
      }
    }
  }

  lemma {:induction false} QuotedCharacter(line: string, i: nat, q: char)
    requires i < |line| && IsQuote(q)
    ensures line[i] == '\\' && i + 1 < |line| ==>
              Lex(line[i..], Quoted(q)) == Prepend([line[i], line[i + 1]], Lex(line[i + 2..], Quoted(q)))
    ensures !(line[i] == '\\' && i + 1 < |line|) ==>
              Lex(line[i..], Quoted(q)) == Prepend([line[i]], Lex(line[i + 1..], if line[i] == q then Code else Quoted(q)))
  {
    SuffixStep(line, i);
    LexStep(line[i..], Quoted(q));
    if line[i] == '\\' {
      if i + 1 < |line| {
        SuffixStep(line, i + 1);
        LexStep(line[i + 1..], Escaped(q));
      } else {
        assert line[i + 1..] == "";
      }
    }
  }

  lemma {:induction false} PrependTwice(a: string, b: string, r: Lexed)
    ensures Prepend(a, Prepend(b, r)) == Prepend(a + b, r)
  {
    assert a + (b + r.code) == (a + b) + r.code;
  }

  /** `uncommented`: equals the automaton run over the line. */
  method Uncommented(line: string, inBlockComment: bool) returns (code: string, open: bool)
    ensures Lexed(code, open) == Lex(line, Entry(inBlockComment))
  {
    hide Lex, Step, FindClose, StartsAt;
    code, open := "", inBlockComment;
    var i := 0;
    var quote: Option<char> := None;
    assert line[0..] == line && Prepend("", Lex(line, Entry(open))) == Lex(line, Entry(open));
    while i < |line|
      invariant 0 <= i <= |line|
      invariant quote.Some? ==> IsQuote(quote.value) && !open
      invariant Prepend(code, Lex(line[i..], if quote.Some? then Quoted(quote.value) else Entry(open)))
             == Lex(line, Entry(inBlockComment))
      decreases |line| - i
    {
      if open {
        BlockEndsAtClose(line, i);
        var end := FindClose(line, i);
        if end.None? {
          assert code + "" == code;
          return code, true;
        }
        open, i := false, end.value + 2;
      } else if quote.Some? {
        QuotedCharacter(line, i, quote.value);
        if line[i] == '\\' && i + 1 < |line| {
          PrependTwice(code, [line[i], line[i + 1]], Lex(line[i + 2..], Quoted(quote.value)));
          code, i := code + [line[i], line[i + 1]], i + 2;
        } else {
          PrependTwice(code, [line[i]], Lex(line[i + 1..], if line[i] == quote.value then Code else Quoted(quote.value)));
          code := code + [line[i]];
          if line[i] == quote.value {
            quote := None;
          }
          i := i + 1;
        }
      } else if StartsAt(line, i, "//") {
        OpensLineComment(line, i);
        assert code + "" == code;
        return code, false;
      } else if StartsAt(line, i, "/*") {
        OpensBlock(line, i);
        StartsWithin(line, i, "/*");
        open, i := true, i + 2;
      } else {
        OrdinaryCode(line, i);
        PrependTwice(code, [line[i]], Lex(line[i + 1..], if IsQuote(line[i]) then Quoted(line[i]) else Code));
        code := code + [line[i]];
        if IsQuote(line[i]) {
          quote := Some(line[i]);
        }
        i := i + 1;
      }
    }
    EndOfLine(line, i, if quote.Some? then Quoted(quote.value) else Entry(open));
    assert code + "" == code;
  }

  lemma {:induction false} StartsWithin(line: string, i: nat, prefix: string)
    requires StartsAt(line, i, prefix)
    ensures i + |prefix| <= |line|
  {
  }

  lemma {:induction false} EndOfLine(line: string, i: nat, mode: Mode)
    requires i == |line| && !mode.Slash?
    ensures Lex(line[i..], mode) == Lexed("", InBlock(mode))
  {
    assert line[i..] == "";
  }

  // ---- the whole file -----------------------------------------------------------------------------------

  /** A newline ends quotes and line comments, and leaves block comments open. */
  function FileStep(mode: Mode, c: char): Move
  {
    if c == '\n' then Move(Flush(mode) + "\n", Entry(InBlock(mode))) else Step(mode, c)
  }

  function LexFile(text: string, mode: Mode): Lexed
    decreases |text|
  {
    if text == "" then Lexed(Flush(mode), InBlock(mode))
    else
      var m := FileStep(mode, text[0]);
      var rest := LexFile(text[1..], m.mode);
      Lexed(m.out + rest.code, rest.open)
  }

  function JoinLines(lines: seq<string>): string
    requires lines != []
  {
    if |lines| == 1 then lines[0] else lines[0] + "\n" + JoinLines(lines[1..])
  }

  /** The code of each line, the block-comment state carried from line to line. */
  function CodeLines(lines: seq<string>, open: bool): seq<string>
  {
    if lines == [] then []
    else var r := Lex(lines[0], Entry(open)); [r.code] + CodeLines(lines[1..], r.open)
  }

  function OpenAfter(lines: seq<string>, open: bool): bool
  {
    if lines == [] then open else OpenAfter(lines[1..], Lex(lines[0], Entry(open)).open)
  }

  lemma {:induction false} FileLine(line: string, mode: Mode)
    requires '\n' !in line
    ensures LexFile(line, mode) == Lex(line, mode)
    decreases |line|
  {
    if line != "" { FileLine(line[1..], Step(mode, line[0]).mode); }
  }

  lemma {:induction false} FileLineThen(line: string, rest: string, mode: Mode)
    requires '\n' !in line
    ensures LexFile(line + "\n" + rest, mode) == Prepend(Lex(line, mode).code + "\n", LexFile(rest, Entry(Lex(line, mode).open)))
    decreases |line|
  {
    hide Step;
    var text := line + "\n" + rest;
    if line == "" {
      assert text[1..] == rest && text[0] == '\n';
    } else {
      assert text[0] == line[0] && text[1..] == line[1..] + "\n" + rest;
      var m := Step(mode, line[0]);
      FileLineThen(line[1..], rest, m.mode);
      LexStep(line, mode);
      PrependTwice(m.out, Lex(line[1..], m.mode).code + "\n", LexFile(rest, Entry(Lex(line, mode).open)));
      assert m.out + (Lex(line[1..], m.mode).code + "\n") == Lex(line, mode).code + "\n";
    }
  }

  /** Stripping line by line with a carried flag is running the automaton over the whole file. */
  lemma {:induction false} LinesAreFile(lines: seq<string>, open: bool)
    requires lines != [] && forall i :: 0 <= i < |lines| ==> '\n' !in lines[i]
    ensures CodeLines(lines, open) != []
    ensures LexFile(JoinLines(lines), Entry(open)) == Lexed(JoinLines(CodeLines(lines, open)), OpenAfter(lines, open))
    decreases |lines|
  {
    hide Lex, LexFile;
    var r := Lex(lines[0], Entry(open));
    if |lines| == 1 {
      FileLine(lines[0], Entry(open));
      assert lines[1..] == [];
      assert CodeLines(lines, open) == [r.code];
    } else {
      LinesAreFile(lines[1..], r.open);
      FileLineThen(lines[0], JoinLines(lines[1..]), Entry(open));
      var codes := CodeLines(lines, open);
      assert codes[1..] == CodeLines(lines[1..], r.open) && |codes| > 1;
    }
  }

  // ---- discovering test methods ---------------------------------------------------------------------------

  /** The three regular expressions, as arbitrary matchers; a match carries the method name. */
  datatype Patterns = Patterns(
    testAnnotation: string -> bool,
    methodName: string -> Option<string>,
    junit3Name: string -> Option<string>)

  datatype Found = Found(name: string, line: nat, annotations: seq<string>)

  /** What is carried from line to line. */
  datatype Scan = Scan(pending: seq<string>, open: bool)

  datatype Scanned = Scanned(scan: Scan, found: seq<Found>)

  predicate AnyTest(pending: seq<string>, p: Patterns)
  {
    exists i :: 0 <= i < |pending| && p.testAnnotation(pending[i])
  }

  predicate IsAnnotation(stripped: string) { stripped != "" && stripped[0] == '@' }

  /** One line of code, comments already removed. */
  function ScanCode(pending: seq<string>, code: string, line: nat, p: Patterns): (seq<string>, seq<Found>)
  {
    var stripped := Strip(code);
    if stripped == "" then (pending, [])
    else
      var now := if IsAnnotation(stripped) then pending + [stripped] else pending;
      var annotated := if AnyTest(now, p) then p.methodName(code) else None;
      if annotated.Some? then ([], [Found(annotated.value, line, now)])
      else if p.junit3Name(code).Some? then ([], [Found(p.junit3Name(code).value, line, ["JUnit3:test* convention"])])
      else if !IsAnnotation(stripped) && p.methodName(code).None? then ([], [])
      else (now, [])
  }

  function ScanLine(s: Scan, text: string, line: nat, p: Patterns): Scanned
  {
    var r := Lex(text, Entry(s.open));
    var (pending, found) := ScanCode(s.pending, r.code, line, p);
    Scanned(Scan(pending, r.open), found)
  }

  function Discover(lines: seq<string>, s: Scan, line: nat, p: Patterns): Scanned
    decreases |lines|
  {
    if lines == [] then Scanned(s, [])
    else
      var first := ScanLine(s, lines[0], line, p);
      var rest := Discover(lines[1..], first.scan, line + 1, p);
      Scanned(rest.scan, first.found + rest.found)
  }

  /** The body of the scanning loop, for one line. */
  method ScanOne(s: Scan, text: string, line: nat, p: Patterns) returns (r: Scanned)
    ensures r == ScanLine(s, text, line, p)
  {
    hide Lex, Strip;
    var code, open := Uncommented(text, s.open);
    var pending, methods: seq<Found> := s.pending, [];
    var stripped := Strip(code);
    if stripped != "" {
      if IsAnnotation(stripped) {
        pending := pending + [stripped];
      }
      var annotated := if AnyTest(pending, p) then p.methodName(code) else None;
      var junit3 := p.junit3Name(code);
      if annotated.Some? {
        methods := [Found(annotated.value, line, pending)];
        pending := [];
      } else if junit3.Some? {
        methods := [Found(junit3.value, line, ["JUnit3:test* convention"])];
        pending := [];
      } else if !IsAnnotation(stripped) && p.methodName(code).None? {
        pending := [];
      }
    }
    return Scanned(Scan(pending, open), methods);
  }

  /** `discovered_test_methods`. */
  method DiscoveredTestMethods(lines: seq<string>, p: Patterns) returns (methods: seq<Found>)
    ensures methods == Discover(lines, Scan([], false), 1, p).found
  {
    hide ScanLine;
    var s := Scan([], false);
    methods := [];
    var i := 0;
    assert lines[0..] == lines;
    while i < |lines|
      invariant 0 <= i <= |lines|
      invariant methods + Discover(lines[i..], s, i + 1, p).found == Discover(lines, Scan([], false), 1, p).found
    {
      assert lines[i..][0] == lines[i] && lines[i..][1..] == lines[i + 1..];
      var first := ScanOne(s, lines[i], i + 1, p);
      ghost var rest := Discover(lines[i + 1..], first.scan, i + 2, p).found;
      assert methods + (first.found + rest) == (methods + first.found) + rest;
      s, methods, i := first.scan, methods + first.found, i + 1;
    }
    assert methods + [] == methods;
  }

  lemma {:induction false} DiscoverConcat(a: seq<string>, b: seq<string>, s: Scan, line: nat, p: Patterns)
    ensures var first := Discover(a, s, line, p);
            var second := Discover(b, first.scan, line + |a|, p);
            Discover(a + b, s, line, p) == Scanned(second.scan, first.found + second.found)
    decreases |a|
  {
    hide ScanLine;
    if a == [] {
      assert a + b == b;
    } else {
      var one := ScanLine(s, a[0], line, p);
      assert (a + b)[1..] == a[1..] + b;
      DiscoverConcat(a[1..], b, one.scan, line + 1, p);
      var first := Discover(a[1..], one.scan, line + 1, p);
      var second := Discover(b, first.scan, line + |a|, p);
      assert one.found + (first.found + second.found) == (one.found + first.found) + second.found;
    }
  }

  function Shift(found: seq<Found>, down: nat): seq<Found>
  {
    seq(|found|, i requires 0 <= i < |found| => Found(found[i].name, found[i].line + down, found[i].annotations))
  }

  lemma {:induction false} ScanLineShifts(s: Scan, text: string, line: nat, down: nat, p: Patterns)
    ensures ScanLine(s, text, line + down, p) == Scanned(ScanLine(s, text, line, p).scan, Shift(ScanLine(s, text, line, p).found, down))
  {
    hide Lex, Strip, AnyTest, IsAnnotation;
    var one, other := ScanLine(s, text, line, p), ScanLine(s, text, line + down, p);
    assert |one.found| <= 1 && |other.found| == |one.found|;
    assert other.found == Shift(one.found, down);
  }

  lemma {:induction false} ShiftConcat(a: seq<Found>, b: seq<Found>, down: nat)
    ensures Shift(a + b, down) == Shift(a, down) + Shift(b, down)
  {
  }

  /** Line numbers are only reported, never used. */
  lemma {:induction false} DiscoverShifts(lines: seq<string>, s: Scan, line: nat, down: nat, p: Patterns)
    ensures Discover(lines, s, line + down, p) == Scanned(Discover(lines, s, line, p).scan, Shift(Discover(lines, s, line, p).found, down))
    decreases |lines|
  {
    hide ScanLine, Shift;
    if lines == [] {
      ShiftNothing(down);
    } else {
      var one := ScanLine(s, lines[0], line, p);
      ScanLineShifts(s, lines[0], line, down, p);
      DiscoverShifts(lines[1..], one.scan, line + 1, down, p);
      ShiftConcat(one.found, Discover(lines[1..], one.scan, line + 1, p).found, down);
    }
  }

  lemma {:induction false} ShiftNothing(down: nat)
    ensures Shift([], down) == []
  {
  }

  /** Nothing but blanks and comments, whatever is open before them. */
  ghost predicate OnlyComments(lines: seq<string>, open: bool)
  {
    forall i :: 0 <= i < |CodeLines(lines, open)| ==> Strip(CodeLines(lines, open)[i]) == ""
  }

  lemma {:induction false} CommentsFindNothing(lines: seq<string>, s: Scan, line: nat, p: Patterns)
    requires OnlyComments(lines, s.open)
    ensures Discover(lines, s, line, p) == Scanned(Scan(s.pending, OpenAfter(lines, s.open)), [])
    decreases |lines|
  {
    hide Lex, Strip;
    if lines != [] {
      var r := Lex(lines[0], Entry(s.open));
      var codes := CodeLines(lines, s.open);
      assert codes[0] == r.code && codes[1..] == CodeLines(lines[1..], r.open);
      assert OnlyComments(lines[1..], r.open) by {
        forall i | 0 <= i < |codes[1..]| ensures Strip(codes[1..][i]) == "" { assert codes[i + 1] == codes[1..][i]; }
      }
      assert ScanLine(s, lines[0], line, p) == Scanned(Scan(s.pending, r.open), []);
      CommentsFindNothing(lines[1..], Scan(s.pending, r.open), line + 1, p);
    }
  }

  /**
    Comment and blank lines inserted anywhere change nothing but line numbers, as long as they
    leave the block-comment state as they found it.
   */
  lemma {:induction false} InsertedCommentsDoNotMatter(before: seq<string>, comments: seq<string>, after: seq<string>, p: Patterns)
    requires var open := Discover(before, Scan([], false), 1, p).scan.open;
             OnlyComments(comments, open) && OpenAfter(comments, open) == open
    ensures var head := Discover(before, Scan([], false), 1, p);
            var tail := Discover(after, head.scan, 1 + |before|, p);
            && Discover(before + after, Scan([], false), 1, p).found == head.found + tail.found
            && Discover(before + comments + after, Scan([], false), 1, p).found == head.found + Shift(tail.found, |comments|)
  {
    hide Discover, OpenAfter, OnlyComments;
    var start := Scan([], false);
    var head := Discover(before, start, 1, p);
    DiscoverConcat(before, after, start, 1, p);
    assert before + comments + after == before + (comments + after);
    DiscoverConcat(before, comments + after, start, 1, p);
    DiscoverConcat(comments, after, head.scan, 1 + |before|, p);
    CommentsFindNothing(comments, head.scan, 1 + |before|, p);
    DiscoverShifts(after, head.scan, 1 + |before|, |comments|, p);
    var tail := Discover(after, head.scan, 1 + |before|, p);
    assert [] + Shift(tail.found, |comments|) == Shift(tail.found, |comments|);
  }
}
