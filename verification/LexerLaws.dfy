/**
  Which methods the discovery reports, said of the lines of code alone: where collecting annotations
  began, what has been collected since, and what a line must then hold.
 */
module LexerLaws {
  import opened Outcomes
  import opened Text
  import opened Lexer

  /** The annotation lines, stripped, in order. */
  function Annotations(codes: seq<string>): seq<string>
  {
    if codes == [] then []
    else
      var last := Strip(codes[|codes| - 1]);
      Annotations(codes[..|codes| - 1]) + if IsAnnotation(last) then [last] else []
  }

  /** Blank, an annotation or the head of a method: a line that annotations may be followed by. */
  predicate Patient(code: string, p: Patterns)
  {
    Strip(code) == "" || IsAnnotation(Strip(code)) || p.methodName(code).Some?
  }

  function Methods(lines: seq<string>, p: Patterns): seq<Found> { Discover(lines, Scan([], false), 1, p).found }

  ghost predicate FoundAt(lines: seq<string>, p: Patterns, n: nat)
  {
    exists f :: f in Methods(lines, p) && f.line == n
  }

  lemma {:induction false} CodeLinesLength(lines: seq<string>, open: bool)
    ensures |CodeLines(lines, open)| == |lines|
  {
    hide Lex;
    if lines != [] { CodeLinesLength(lines[1..], Lex(lines[0], Entry(open)).open); }
  }

  function CodeOf(lines: seq<string>): (codes: seq<string>)
    ensures |codes| == |lines|
  {
    CodeLinesLength(lines, false);
    CodeLines(lines, false)
  }

  /** Line i ends no collecting: nothing is reported at it, and annotations may be followed by it. */
  ghost predicate GoesOn(lines: seq<string>, p: Patterns, i: nat)
    requires i < |lines|
  {
    Patient(CodeOf(lines)[i], p) && !FoundAt(lines, p, i + 1)
  }

  /** From line k, before which a method was just reported or a statement passed, nothing ended up to line m. */
  ghost predicate Collecting(lines: seq<string>, p: Patterns, k: nat, m: nat)
    requires k <= m <= |lines|
  {
    (k > 0 ==> !GoesOn(lines, p, k - 1)) && forall i :: k <= i < m ==> GoesOn(lines, p, i)
  }

  // ---- one line of a run ---------------------------------------------------------------------------

  lemma {:induction false} CodeAt(lines: seq<string>, open: bool, i: nat)
    requires i < |lines| && |CodeLines(lines, open)| == |lines|
    ensures CodeLines(lines, open)[i] == Lex(lines[i], Entry(OpenAfter(lines[..i], open))).code
    decreases i
  {
    hide Lex;
    var next := Lex(lines[0], Entry(open)).open;
    if i > 0 {
      CodeLinesLength(lines[1..], next);
      CodeAt(lines[1..], next, i - 1);
      assert lines[..i][1..] == lines[1..][..i - 1];
    }
  }

  lemma {:induction false} OpenIsCarried(lines: seq<string>, s: Scan, line: nat, p: Patterns)
    ensures Discover(lines, s, line, p).scan.open == OpenAfter(lines, s.open)
    decreases |lines|
  {
    hide Lex, ScanCode;
    if lines != [] { OpenIsCarried(lines[1..], ScanLine(s, lines[0], line, p).scan, line + 1, p); }
  }

  /** What is pending before line i. */
  function Before(lines: seq<string>, p: Patterns, i: nat): seq<string>
    requires i <= |lines|
  {
    Discover(lines[..i], Scan([], false), 1, p).scan.pending
  }

  /** A run up to and past one line. */
  lemma {:induction false} RunThrough(lines: seq<string>, p: Patterns, i: nat)
    requires i < |lines|
    ensures Before(lines, p, i + 1) == ScanCode(Before(lines, p, i), CodeOf(lines)[i], i + 1, p).0
    ensures Methods(lines[..i + 1], p) == Methods(lines[..i], p) + ScanCode(Before(lines, p, i), CodeOf(lines)[i], i + 1, p).1
  {
    hide Lex, ScanCode, Discover;
    var start := Scan([], false);
    var first := Discover(lines[..i], start, 1, p).scan;
    DiscoverConcat(lines[..i], [lines[i]], start, 1, p);
    assert lines[..i] + [lines[i]] == lines[..i + 1];
    OneLine(first, lines[i], 1 + i, p);
    OpenIsCarried(lines[..i], start, 1, p);
    CodeLinesLength(lines, false);
    CodeAt(lines, false, i);
  }

  lemma {:induction false} OneLine(s: Scan, text: string, line: nat, p: Patterns)
    ensures Discover([text], s, line, p) == ScanLine(s, text, line, p)
  {
    hide ScanLine;
    assert [text][1..] == [];
  }

  lemma {:induction false} FoundInRange(lines: seq<string>, s: Scan, line: nat, p: Patterns)
    ensures forall f :: f in Discover(lines, s, line, p).found ==> line <= f.line < line + |lines|
    decreases |lines|
  {
    hide Lex, Strip, AnyTest, IsAnnotation;
    if lines != [] { FoundInRange(lines[1..], ScanLine(s, lines[0], line, p).scan, line + 1, p); }
  }

  /** What is reported at a line is what the scan of that line adds. */
  lemma {:induction false} FoundThere(lines: seq<string>, p: Patterns, i: nat, f: Found)
    requires i < |lines| && f.line == i + 1
    ensures f in Methods(lines, p) <==> f in ScanCode(Before(lines, p, i), CodeOf(lines)[i], i + 1, p).1
  {
    hide ScanCode, Discover;
    var start := Scan([], false);
    var head := Discover(lines[..i + 1], start, 1, p).scan;
    assert lines[..i + 1] + lines[i + 1..] == lines;
    DiscoverConcat(lines[..i + 1], lines[i + 1..], start, 1, p);
    FoundInRange(lines[i + 1..], head, i + 2, p);
    FoundInRange(lines[..i], start, 1, p);
    RunThrough(lines, p, i);
  }

  lemma {:induction false} ReportsOwnLine(pending: seq<string>, code: string, line: nat, p: Patterns)
    ensures forall f :: f in ScanCode(pending, code, line, p).1 ==> f.line == line
  {
    hide Strip, AnyTest, IsAnnotation;
  }

  lemma {:induction false} FoundAtIff(lines: seq<string>, p: Patterns, i: nat)
    requires i < |lines|
    ensures FoundAt(lines, p, i + 1) <==> ScanCode(Before(lines, p, i), CodeOf(lines)[i], i + 1, p).1 != []
  {
    hide ScanCode, Methods, Before;
    var found := ScanCode(Before(lines, p, i), CodeOf(lines)[i], i + 1, p).1;
    ReportsOwnLine(Before(lines, p, i), CodeOf(lines)[i], i + 1, p);
    if found != [] {
      assert found[0] in found;
      FoundThere(lines, p, i, found[0]);
    }
    forall f | f in Methods(lines, p) && f.line == i + 1 ensures f in found { FoundThere(lines, p, i, f); }
  }

  // ---- what is pending, and what is reported -----------------------------------------------------------

  lemma {:induction false} Nothing(lines: seq<string>, p: Patterns)
    ensures Before(lines, p, 0) == []
  {
    assert lines[..0] == [];
  }

  /** A statement or a reported method leaves nothing pending. */
  lemma {:induction false} Cleared(pending: seq<string>, code: string, line: nat, p: Patterns)
    requires !Patient(code, p) || ScanCode(pending, code, line, p).1 != []
    ensures ScanCode(pending, code, line, p).0 == []
  {
    hide Strip, AnyTest, IsAnnotation;
  }

  lemma {:induction false} Collected(pending: seq<string>, code: string, line: nat, p: Patterns)
    requires Patient(code, p) && ScanCode(pending, code, line, p).1 == []
    ensures ScanCode(pending, code, line, p).0 == pending + if IsAnnotation(Strip(code)) then [Strip(code)] else []
  {
    hide Strip, AnyTest;
    assert pending + [] == pending;
  }

  /** The annotations since collecting began are what is pending. */
  lemma {:induction false} PendingIs(lines: seq<string>, p: Patterns, k: nat, m: nat)
    requires k <= m <= |lines| && Collecting(lines, p, k, m)
    ensures Before(lines, p, m) == Annotations(CodeOf(lines)[k..m])
    decreases m - k
  {
    hide Before, CodeOf, ScanCode, Strip, IsAnnotation, Patient, FoundAt;
    var codes := CodeOf(lines);
    if m == k {
      assert codes[k..m] == [];
      if k == 0 {
        Nothing(lines, p);
      } else {
        RunThrough(lines, p, k - 1);
        FoundAtIff(lines, p, k - 1);
        Cleared(Before(lines, p, k - 1), codes[k - 1], k, p);
      }
    } else {
      PendingIs(lines, p, k, m - 1);
      RunThrough(lines, p, m - 1);
      FoundAtIff(lines, p, m - 1);
      assert GoesOn(lines, p, m - 1);
      Collected(Before(lines, p, m - 1), codes[m - 1], m, p);
      assert codes[k..m][..m - 1 - k] == codes[k..m - 1] && codes[k..m][m - 1 - k] == codes[m - 1];
    }
  }

  /** Collecting has begun somewhere before every line. */
  lemma {:induction false} CollectingSince(lines: seq<string>, p: Patterns, m: nat) returns (k: nat)
    requires m <= |lines|
    ensures k <= m && Collecting(lines, p, k, m)
    decreases m
  {
    hide GoesOn;
    if m == 0 || !GoesOn(lines, p, m - 1) {
      k := m;
    } else {
      k := CollectingSince(lines, p, m - 1);
    }
  }

  /** The method a line of code declares, with the annotations since collecting began. */
  ghost predicate Declares(code: string, annotations: seq<string>, p: Patterns, f: Found)
  {
    && Strip(code) != ""
    && if (exists i :: 0 <= i < |annotations| && p.testAnnotation(annotations[i])) && p.methodName(code).Some?
       then p.methodName(code) == Some(f.name) && f.annotations == annotations
       else p.junit3Name(code) == Some(f.name) && f.annotations == ["JUnit3:test* convention"]
  }

  lemma {:induction false} ScanDeclares(pending: seq<string>, code: string, line: nat, p: Patterns, f: Found)
    requires f.line == line
    ensures f in ScanCode(pending, code, line, p).1 <==>
            Declares(code, pending + (if IsAnnotation(Strip(code)) then [Strip(code)] else []), p, f)
  {
    hide Strip, IsAnnotation;
    assert pending + [] == pending;
  }

  /**
    A method is reported at a line if and only if that line, outside comments, declares one: a method
    behind a test annotation, with all annotations since the last statement or reported method, or
    else one that is a test by its name.
   */
  lemma {:induction false} ReportedIff(lines: seq<string>, p: Patterns, k: nat, m: nat, f: Found)
    requires k <= m < |lines| && Collecting(lines, p, k, m) && f.line == m + 1
    ensures f in Methods(lines, p) <==> Declares(CodeOf(lines)[m], Annotations(CodeOf(lines)[k..m + 1]), p, f)
  {
    hide Before, CodeOf, ScanCode, Strip, IsAnnotation, Collecting, Declares, Methods;
    var codes := CodeOf(lines);
    PendingIs(lines, p, k, m);
    FoundThere(lines, p, m, f);
    ScanDeclares(Before(lines, p, m), codes[m], m + 1, p, f);
    assert codes[k..m + 1][..m - k] == codes[k..m] && codes[k..m + 1][m - k] == codes[m];
  }

  /** Methods are reported line by line, never two at one line and none at a line there is not. */
  lemma {:induction false} ReportedInOrder(lines: seq<string>, p: Patterns, m: nat)
    requires m <= |lines|
    ensures forall i, j :: 0 <= i < j < |Methods(lines[..m], p)| ==> Methods(lines[..m], p)[i].line < Methods(lines[..m], p)[j].line
    ensures forall f :: f in Methods(lines[..m], p) ==> 1 <= f.line <= m
    decreases m
  {
    hide ScanCode, Discover, Before, CodeOf;
    FoundInRange(lines[..m], Scan([], false), 1, p);
    if m == 0 {
      NoLines(p);
      assert lines[..0] == [];
    } else {
      ReportedInOrder(lines, p, m - 1);
      RunThrough(lines, p, m - 1);
      var before, now := Methods(lines[..m - 1], p), ScanCode(Before(lines, p, m - 1), CodeOf(lines)[m - 1], m, p).1;
      ReportsOwnLine(Before(lines, p, m - 1), CodeOf(lines)[m - 1], m, p);
      AtMostOne(Before(lines, p, m - 1), CodeOf(lines)[m - 1], m, p);
      var all: seq<Found> := before + now;
      forall i, j | 0 <= i < j < |all| ensures all[i].line < all[j].line {
        assert all[i] in before;
        assert j >= |before| ==> all[j] in now;
      }
    }
  }

  lemma {:induction false} NoLines(p: Patterns)
    ensures Methods([], p) == []
  {
  }

  lemma {:induction false} AtMostOne(pending: seq<string>, code: string, line: nat, p: Patterns)
    ensures |ScanCode(pending, code, line, p).1| <= 1
  {
    hide Strip, AnyTest, IsAnnotation;
  }

  // ---- what is code and what is comment -------------------------------------------------------------------

  /** Code without quotes and slashes is kept. */
  lemma {:induction false} PlainIsKept(a: string, rest: string)
    requires forall i :: 0 <= i < |a| ==> a[i] != '/' && a[i] != '"' && a[i] != '\''
    ensures Lex(a + rest, Code) == Prepend(a, Lex(rest, Code))
    decreases |a|
  {
    if a == "" {
      assert a + rest == rest;
      PrependNothing(Lex(rest, Code));
    } else {
      assert (a + rest)[0] == a[0] && (a + rest)[1..] == a[1..] + rest;
      PlainIsKept(a[1..], rest);
      PrependTwice([a[0]], a[1..], Lex(rest, Code));
      assert [a[0]] + a[1..] == a;
    }
  }

  lemma {:induction false} PrependNothing(r: Lexed)
    ensures Prepend("", r) == r
  {
    assert "" + r.code == r.code;
  }

  /** The inside of a literal: no closing quote but behind a backslash. */
  predicate Inside(body: string, q: char)
    decreases |body|
  {
    body == "" || if body[0] == '\\' then |body| >= 2 && Inside(body[2..], q) else body[0] != q && Inside(body[1..], q)
  }

  /** A literal is kept as it stands, comment marks and escaped quotes in it included, and ends at its closing quote. */
  lemma {:induction false} LiteralIsKept(q: char, body: string, rest: string)
    requires IsQuote(q) && Inside(body, q)
    ensures Lex([q] + body + [q] + rest, Code) == Prepend([q] + body + [q], Lex(rest, Code))
  {
    hide Lex, Step;
    var text := [q] + body + [q] + rest;
    assert text[1..] == body + [q] + rest;
    LexStep(text, Code);
    OpensQuote(q);
    InsideIsKept(q, body, rest);
    PrependTwice([q], body + [q], Lex(rest, Code));
    assert [q] + (body + [q]) == [q] + body + [q];
  }

  lemma {:induction false} OpensQuote(q: char)
    requires IsQuote(q)
    ensures Step(Code, q) == Move([q], Quoted(q))
  {
  }

  lemma {:induction false} InsideIsKept(q: char, body: string, rest: string)
    requires IsQuote(q) && Inside(body, q)
    ensures Lex(body + [q] + rest, Quoted(q)) == Prepend(body + [q], Lex(rest, Code))
    decreases |body|
  {
    hide Lex;
    var text := body + [q] + rest;
    assert text[0..] == text;
    QuotedCharacter(text, 0, q);
    if body == "" {
      assert text[0] == q && text[1..] == rest && body + [q] == [q];
    } else if body[0] == '\\' {
      assert text[0] == body[0] && text[1] == body[1] && text[2..] == body[2..] + [q] + rest;
      InsideIsKept(q, body[2..], rest);
      PrependTwice([body[0], body[1]], body[2..] + [q], Lex(rest, Code));
      assert [body[0], body[1]] + (body[2..] + [q]) == body + [q];
    } else {
      assert text[0] == body[0] && text[1..] == body[1..] + [q] + rest;
      InsideIsKept(q, body[1..], rest);
      PrependTwice([body[0]], body[1..] + [q], Lex(rest, Code));
      assert [body[0]] + (body[1..] + [q]) == body + [q];
    }
  }

  /** From two slashes on nothing is code. */
  lemma {:induction false} LineCommentIsDropped(comment: string)
    ensures Lex("//" + comment, Code) == Lexed("", false)
  {
    hide Lex;
    var text := "//" + comment;
    assert text[0..] == text && text[0..2] == "//";
    OpensLineComment(text, 0);
  }

  /** A block comment is dropped with its marks, and the code goes on behind it; without a close it stays open. */
  lemma {:induction false} BlockCommentIsDropped(comment: string, rest: string)
    requires forall i: nat :: !StartsAt(comment, i, "*/")
    ensures Lex("/*" + comment + "*/" + rest, Code) == Lex(rest, Code)
    ensures Lex("/*" + comment, Code) == Lexed("", true)
  {
    hide Lex, StartsAt;
    var text, open := "/*" + comment + "*/" + rest, "/*" + comment;
    var n := 2 + |comment|;
    assert text[0..] == text && open[0..] == open && text[n + 2..] == rest;
    CommentMarks(comment, rest);
    OpensBlock(text, 0);
    OpensBlock(open, 0);
    BlockEndsAtClose(text, 2);
    BlockEndsAtClose(open, 2);
    FirstClose(text, 2, n);
    NoClose(open, 2);
  }

  lemma {:induction false} CommentMarks(comment: string, rest: string)
    requires forall i: nat :: !StartsAt(comment, i, "*/")
    ensures var text, open, n := "/*" + comment + "*/" + rest, "/*" + comment, 2 + |comment|;
            && StartsAt(text, 0, "/*") && StartsAt(open, 0, "/*") && StartsAt(text, n, "*/")
            && (forall i: nat :: 2 <= i < n ==> !StartsAt(text, i, "*/"))
            && forall i: nat :: 2 <= i ==> !StartsAt(open, i, "*/")
  {
    var text, open, n := "/*" + comment + "*/" + rest, "/*" + comment, 2 + |comment|;
    forall i: nat | 2 <= i < n ensures !StartsAt(text, i, "*/") {
      assert !StartsAt(comment, i - 2, "*/");
      assert i + 1 < n ==> text[i..i + 2] == comment[i - 2..i];
      assert text[i..i + 2][1] == text[i + 1];
    }
    forall i: nat | 2 <= i ensures !StartsAt(open, i, "*/") {
      assert !StartsAt(comment, i - 2, "*/");
      assert i + 2 <= |open| ==> open[i..i + 2] == comment[i - 2..i];
    }
  }

  lemma {:induction false} FirstClose(line: string, i: nat, k: nat)
    requires i <= k && StartsAt(line, k, "*/")
    requires forall j: nat :: i <= j < k ==> !StartsAt(line, j, "*/")
    ensures FindClose(line, i) == Some(k)
    decreases k - i
  {
    assert StartsAt(line, i, "*/") <==> i + 2 <= |line| && line[i..i + 2] == "*/";
    if i < k { FirstClose(line, i + 1, k); }
  }

  lemma {:induction false} NoClose(line: string, i: nat)
    requires forall j: nat :: i <= j ==> !StartsAt(line, j, "*/")
    ensures FindClose(line, i) == None
    decreases |line| - i
  {
    assert StartsAt(line, i, "*/") <==> i + 2 <= |line| && line[i..i + 2] == "*/";
    if i + 2 <= |line| { NoClose(line, i + 1); }
  }
}
