/** Yielding the lines of a command's output while it is read in chunks:
    _IterCmdOutputLines of devil/utils/cmd_helper.py without an iteration timeout. */
module CmdOutput {
  import opened Basics

  predicate IsEol(c: char) {
    c == '\r' || c == '\n'
  }

  predicate EndsLine(s: string) {
    s != "" && IsEol(s[|s| - 1])
  }

  predicate EndsInReturn(s: string) {
    s != "" && s[|s| - 1] == '\r'
  }

  predicate StartsWithNewline(s: string) {
    s != "" && s[0] == '\n'
  }

  predicate OneLine(s: string) {
    s == "" || (!IsEol(s[0]) && OneLine(s[1..]))
  }

  /** Puts `c` in front of the first line. */
  function Extend(c: char, lines: seq<string>): (r: seq<string>)
    ensures |r| == if lines == [] then 1 else |lines|
  {
    if lines == [] then [[c]] else [[c] + lines[0]] + lines[1..]
  }

  /** What follows a carriage return, with the newline that may belong to it. */
  function AfterReturn(s: string): string
    requires s != ""
  {
    if StartsWithNewline(s[1..]) then s[2..] else s[1..]
  }

  /** splitlines of a byte string in Python 2: a carriage return and a newline end one
      line together. */
  function SplitLines(s: string): (lines: seq<string>)
    ensures s != "" ==> lines != []
  {
    if s == "" then []
    else if s[0] == '\n' then [""] + SplitLines(s[1..])
    else if s[0] == '\r' then [""] + SplitLines(AfterReturn(s))
    else Extend(s[0], SplitLines(s[1..]))
  }

  /** A carriage return at the end of a chunk ends a line, even if a newline follows. */
  function Closed(chunk: string): string {
    if EndsInReturn(chunk) then chunk + "\n" else chunk
  }

  function ClosedAll(chunks: seq<string>): seq<string> {
    if chunks == [] then [] else [Closed(chunks[0])] + ClosedAll(chunks[1..])
  }

  /** The output as the chunks make it look. */
  function Seen(chunks: seq<string>): string {
    Flatten(ClosedAll(chunks))
  }

  /** The chunk boundaries that fall between a carriage return and a newline. */
  function BadBoundaries(chunks: seq<string>): nat {
    if |chunks| < 2 then 0
    else (if EndsInReturn(chunks[0]) && StartsWithNewline(chunks[1]) then 1 else 0) + BadBoundaries(chunks[1..])
  }

  function WithoutEol(s: string): string {
    if s == "" then "" else (if IsEol(s[0]) then "" else [s[0]]) + WithoutEol(s[1..])
  }

  // ----- the code

  /** `chunks` is what the process's output is read as; reads are never empty. */
  method IterCmdOutputLines(chunks: seq<string>) returns (yielded: seq<string>)
    requires forall i :: 0 <= i < |chunks| ==> chunks[i] != ""
    ensures yielded == SplitLines(Seen(chunks))
  {
    yielded := [];
    var bufferOutput := "";
    var i := 0;
    assert chunks[0..] == chunks && "" + Seen(chunks) == Seen(chunks);
    while i < |chunks|
      invariant 0 <= i <= |chunks|
      invariant OneLine(bufferOutput)
      invariant yielded + SplitLines(bufferOutput + Seen(chunks[i..])) == SplitLines(Seen(chunks))
    {
      var data := chunks[i];
      assert chunks[i..][0] == data && chunks[i..][1..] == chunks[i + 1..];
      SplitBuffer(bufferOutput, chunks[i..]);
      ghost var was := yielded;
      var lines;
      lines, bufferOutput := TakeLines(bufferOutput + data);
      yielded := yielded + lines;
      Regroup(was, lines, SplitLines(bufferOutput + Seen(chunks[i + 1..])));
      i := i + 1;
    }
    assert chunks[i..] == [] && bufferOutput + "" == bufferOutput;
    SplitOneLine(bufferOutput);
    if bufferOutput != "" {
      yielded := yielded + [bufferOutput];
    }
  }

  /** What the loop does with the buffer when data has been added to it. */
  method TakeLines(buffer: string) returns (lines: seq<string>, rest: string)
    requires buffer != ""
    ensures lines == Complete(buffer) && rest == Incomplete(buffer)
  {
    var hasIncompleteLine := !IsEol(buffer[|buffer| - 1]);
    lines := SplitLines(buffer);
    if hasIncompleteLine {
      rest := lines[|lines| - 1];
      lines := lines[..|lines| - 1];
    } else {
      rest := "";
    }
  }

  lemma TakeChunk(buffer: string, chunks: seq<string>)
    requires chunks != [] && chunks[0] != ""
    ensures buffer + Seen(chunks) == Closed(buffer + chunks[0]) + Seen(chunks[1..])
  {
    var c := chunks[0];
    assert ([Closed(c)] + ClosedAll(chunks[1..]))[1..] == ClosedAll(chunks[1..]);
    assert (buffer + c)[|buffer + c| - 1] == c[|c| - 1];
    Regroup(buffer, c, "\n");
    Regroup(buffer, Closed(c), Seen(chunks[1..]));
  }

  /** The lines that a buffer yields. */
  ghost function Complete(buffer: string): seq<string>
    requires buffer != ""
  {
    if EndsLine(buffer) then SplitLines(buffer) else SplitLines(buffer)[..|SplitLines(buffer)| - 1]
  }

  /** What stays in the buffer. */
  ghost function Incomplete(buffer: string): string
    requires buffer != ""
  {
    if EndsLine(buffer) then "" else SplitLines(buffer)[|SplitLines(buffer)| - 1]
  }

  lemma SplitBuffer(buffer: string, chunks: seq<string>)
    requires chunks != [] && chunks[0] != ""
    ensures var b := buffer + chunks[0];
            && OneLine(Incomplete(b))
            && SplitLines(buffer + Seen(chunks)) == Complete(b) + SplitLines(Incomplete(b) + Seen(chunks[1..]))
  {
    var b, rest := buffer + chunks[0], Seen(chunks[1..]);
    TakeChunk(buffer, chunks);
    if EndsLine(b) {
      SplitClosed(b, rest);
      assert "" + rest == rest;
    } else {
      SplitOpen(b, rest);
    }
  }

  // ----- what the lines of a text are

  /** A line and the characters that end it. */
  datatype Ended = Ended(line: string, eol: string)

  /** Lines with their ends, and what stands after the last end. */
  function TextFor(lines: seq<Ended>, last: string): string {
    if lines == [] then last else lines[0].line + (lines[0].eol + TextFor(lines[1..], last))
  }

  function LinesFor(lines: seq<Ended>, last: string): seq<string> {
    if lines == [] then (if last == "" then [] else [last]) else [lines[0].line] + LinesFor(lines[1..], last)
  }

  predicate NoEol(s: string) {
    forall k :: 0 <= k < |s| ==> s[k] != '\r' && s[k] != '\n'
  }

  /** Lines hold no line ends, and a carriage return is not taken for one when a newline
      follows it. */
  predicate Proper(lines: seq<Ended>, last: string) {
    if lines == [] then NoEol(last)
    else
      NoEol(lines[0].line) && ProperEol(lines[0].eol, TextFor(lines[1..], last)) && Proper(lines[1..], last)
  }

  predicate ProperEol(eol: string, rest: string) {
    eol == "\n" || eol == "\r\n" || (eol == "\r" && !StartsWithNewline(rest))
  }

  lemma EmptyLineThen(eol: string, rest: string)
    requires ProperEol(eol, rest)
    ensures SplitLines(eol + rest) == [""] + SplitLines(rest)
  {
    var s := eol + rest;
    if eol == "\r\n" {
      assert s[1..][0] == '\n' && s[2..] == rest;
    } else {
      assert s[1..] == rest;
    }
  }

  lemma {:induction false} LineThen(line: string, eol: string, rest: string)
    requires NoEol(line) && ProperEol(eol, rest)
    ensures SplitLines(line + (eol + rest)) == [line] + SplitLines(rest)
    decreases |line|
  {
    if line == "" {
      EmptyLineThen(eol, rest);
      assert line + (eol + rest) == eol + rest;
    } else {
      FirstOfSum(line, eol + rest);
      LineThen(line[1..], eol, rest);
      ExtendSum(line[0], [line[1..]], SplitLines(rest));
      assert Extend(line[0], [line[1..]]) == [[line[0]] + line[1..]];
      assert [line[0]] + line[1..] == line;
    }
  }

  lemma {:induction false} NoEolIsOneLine(s: string)
    requires NoEol(s)
    ensures OneLine(s)
  {
    if s != "" {
      NoEolIsOneLine(s[1..]);
    }
  }

  /** The lines are those between the line ends, a carriage return and a newline ending one
      line together; nothing after the last end is no line. */
  lemma {:induction false} SplitLinesMeaning(lines: seq<Ended>, last: string)
    requires Proper(lines, last)
    ensures SplitLines(TextFor(lines, last)) == LinesFor(lines, last)
    decreases |lines|
  {
    if lines == [] {
      NoEolIsOneLine(last);
      SplitOneLine(last);
    } else {
      LineThen(lines[0].line, lines[0].eol, TextFor(lines[1..], last));
      SplitLinesMeaning(lines[1..], last);
    }
  }

  /** Every text is made up of lines in this way. */
  lemma {:induction false} TextHasLines(s: string) returns (lines: seq<Ended>, last: string)
    ensures Proper(lines, last) && TextFor(lines, last) == s
    decreases |s|
  {
    if NoEol(s) {
      lines, last := [], s;
    } else {
      var k := FirstEol(s);
      var n := if s[k] == '\r' && StartsWithNewline(s[k + 1..]) then k + 2 else k + 1;
      var more;
      more, last := TextHasLines(s[n..]);
      lines := [Ended(s[..k], s[k..n])] + more;
      assert lines[1..] == more && s[..k] + (s[k..n] + s[n..]) == s;
    }
  }

  lemma {:induction false} FirstEol(s: string) returns (k: nat)
    requires !NoEol(s)
    ensures k < |s| && IsEol(s[k]) && NoEol(s[..k])
  {
    if IsEol(s[0]) {
      k := 0;
    } else {
      var j := FirstEol(s[1..]);
      k := j + 1;
      assert s[..k] == [s[0]] + s[1..][..j];
    }
  }

  // ----- splitting a text in two places

  lemma {:induction false} SplitOneLine(s: string)
    requires OneLine(s)
    ensures SplitLines(s) == if s == "" then [] else [s]
  {
    if s != "" {
      var c, rest := s[0], s[1..];
      SplitOneLine(rest);
      assert s == [c] + rest;
      if rest == "" {
        assert s == [c];
      } else {
        assert Extend(c, [rest]) == [[c] + rest];
      }
    }
  }

  lemma AfterReturnOfSum(a: string, b: string)
    requires a != "" && (|a| > 1 || !StartsWithNewline(b))
    ensures AfterReturn(a + b) == AfterReturn(a) + b
  {
  }

  lemma ExtendSum(c: char, a: seq<string>, b: seq<string>)
    requires a != []
    ensures Extend(c, a + b) == Extend(c, a) + b
  {
  }

  /** After a line end, the rest splits on its own. */
  lemma {:induction false} SplitAfter(a: string, b: string)
    requires a == "" || (EndsLine(a) && !(EndsInReturn(a) && StartsWithNewline(b)))
    ensures SplitLines(a + b) == SplitLines(a) + SplitLines(b)
    decreases |a|
  {
    if a == "" {
      assert "" + b == b;
    } else {
      FirstOfSum(a, b);
      if a[0] == '\r' {
        AfterReturnOfSum(a, b);
        SplitAfter(AfterReturn(a), b);
        Regroup([""], SplitLines(AfterReturn(a)), SplitLines(b));
      } else {
        SplitAfter(a[1..], b);
        Regroup([""], SplitLines(a[1..]), SplitLines(b));
        if a[0] != '\n' {
          ExtendSum(a[0], SplitLines(a[1..]), SplitLines(b));
        }
      }
    }
  }

  /** A final carriage return ends its line with or without a newline. */
  lemma {:induction false} SplitReturn(a: string)
    requires EndsInReturn(a)
    ensures SplitLines(a + "\n") == SplitLines(a)
    decreases |a|
  {
    FirstOfSum(a, "\n");
    if |a| == 1 {
      assert AfterReturn(a + "\n") == "" && AfterReturn(a) == "";
    } else if a[0] == '\r' {
      AfterReturnOfSum(a, "\n");
      SplitReturn(AfterReturn(a));
    } else {
      SplitReturn(a[1..]);
    }
  }

  lemma SplitClosed(a: string, b: string)
    requires EndsLine(a)
    ensures SplitLines(Closed(a) + b) == SplitLines(a) + SplitLines(b)
  {
    if EndsInReturn(a) {
      SplitReturn(a);
    }
    SplitAfter(Closed(a), b);
  }

  /** A newline after a carriage return is a line of its own only when seen on its own. */
  lemma SplitBroken(a: string, b: string)
    requires EndsInReturn(a) && StartsWithNewline(b)
    ensures SplitLines(a + b) == SplitLines(a) + SplitLines(b)[1..] && |SplitLines(b)| > 0
  {
    assert a + b == a + "\n" + b[1..];
    SplitReturn(a);
    SplitAfter(a + "\n", b[1..]);
    assert SplitLines(b) == [""] + SplitLines(b[1..]);
  }

  /** The lines of `a` without the last, then the lines of the last and `b`. */
  ghost function Resumed(lines: seq<string>, b: string): seq<string>
    requires lines != []
  {
    lines[..|lines| - 1] + SplitLines(lines[|lines| - 1] + b)
  }

  /** An incomplete last line goes on in what follows. */
  lemma {:induction false} SplitOpen(a: string, b: string)
    requires a != "" && !EndsLine(a)
    ensures SplitLines(a + b) == Resumed(SplitLines(a), b) && OneLine(SplitLines(a)[|SplitLines(a)| - 1])
    decreases |a|
  {
    FirstOfSum(a, b);
    if |a| == 1 {
      assert OneLine(a);
      SplitOneLine(a);
      assert [a][..0] + SplitLines(a + b) == SplitLines(a + b);
    } else if a[0] == '\r' {
      AfterReturnOfSum(a, b);
      SplitOpen(AfterReturn(a), b);
      ResumedLater("", SplitLines(AfterReturn(a)), b);
    } else {
      SplitOpen(a[1..], b);
      if a[0] == '\n' {
        ResumedLater("", SplitLines(a[1..]), b);
      } else {
        ResumedExtended(a[0], SplitLines(a[1..]), b);
      }
    }
  }

  lemma ResumedLater(line: string, lines: seq<string>, b: string)
    requires lines != []
    ensures Resumed([line] + lines, b) == [line] + Resumed(lines, b)
  {
    assert ([line] + lines)[..|lines|] == [line] + lines[..|lines| - 1];
  }

  lemma ResumedExtended(c: char, lines: seq<string>, b: string)
    requires lines != [] && !IsEol(c)
    ensures Resumed(Extend(c, lines), b) == Extend(c, Resumed(lines, b))
    ensures OneLine(lines[|lines| - 1]) ==> OneLine(Extend(c, lines)[|lines| - 1])
  {
    var n := |lines| - 1;
    if n == 0 {
      ResumedOne(c, lines[0], b);
      assert lines == [lines[0]] && Extend(c, lines) == [[c] + lines[0]];
    } else {
      assert Extend(c, lines)[..n] == Extend(c, lines[..n]);
      ExtendSum(c, lines[..n], SplitLines(lines[n] + b));
    }
  }

  lemma ResumedOne(c: char, line: string, b: string)
    requires !IsEol(c)
    ensures Resumed([[c] + line], b) == Extend(c, Resumed([line], b))
    ensures OneLine(line) ==> OneLine([c] + line)
  {
    ResumedAlone(line, b);
    ResumedAlone([c] + line, b);
    FirstOfSum([c], line);
    assert [c][1..] + line == line && [c][1..] + (line + b) == line + b;
    Regroup([c], line, b);
    FirstOfSum([c], line + b);
  }

  lemma ResumedAlone(line: string, b: string)
    ensures Resumed([line], b) == SplitLines(line + b)
  {
    assert [] + SplitLines(line + b) == SplitLines(line + b);
  }

  // ----- streaming and batch

  /** `seen` has `n` lines more than `whole`, or the same lines. */
  ghost predicate Counts(seen: string, whole: string, n: nat) {
    && |SplitLines(seen)| == |SplitLines(whole)| + n
    && (n == 0 ==> SplitLines(seen) == SplitLines(whole))
  }

  /** Each boundary between a carriage return and a newline adds one empty line; without
      such a boundary the lines are those of the whole output. */
  lemma {:induction false} StreamCounts(before: string, chunks: seq<string>)
    requires forall i :: 0 <= i < |chunks| ==> chunks[i] != ""
    ensures Counts(before + Seen(chunks), before + Flatten(chunks), BadBoundaries(chunks))
    decreases |chunks|
  {
    if chunks != [] {
      var c, rest := chunks[0], chunks[1..];
      var a := before + c;
      TakeChunk(before, chunks);
      Regroup(before, c, Flatten(rest));
      if EndsLine(c) {
        StreamCounts("", rest);
        EmptyBefore(Seen(rest));
        EmptyBefore(Flatten(rest));
        FirstOfRest(rest);
        LastOfSum(before, c);
        CountAfterLine(a, Seen(rest), Flatten(rest), BadBoundaries(rest));
      } else {
        LastOfSum(before, c);
        StreamCounts(a, rest);
      }
    }
  }

  lemma EmptyBefore(s: string)
    ensures "" + s == s
  {
  }

  lemma LastOfSum(a: string, b: string)
    requires b != ""
    ensures EndsLine(a + b) == EndsLine(b) && EndsInReturn(a + b) == EndsInReturn(b)
  {
    assert (a + b)[|a + b| - 1] == b[|b| - 1];
  }

  lemma CountAfterLine(a: string, seen: string, whole: string, n: nat)
    requires EndsLine(a) && Counts(seen, whole, n)
    ensures Counts(Closed(a) + seen, a + whole, (if EndsInReturn(a) && StartsWithNewline(whole) then 1 else 0) + n)
  {
    SplitClosed(a, seen);
    if EndsInReturn(a) && StartsWithNewline(whole) {
      SplitBroken(a, whole);
    } else {
      SplitAfter(a, whole);
    }
  }

  lemma FirstOfRest(chunks: seq<string>)
    requires forall i :: 0 <= i < |chunks| ==> chunks[i] != ""
    ensures StartsWithNewline(Flatten(chunks)) <==> chunks != [] && StartsWithNewline(chunks[0])
  {
  }

  /** Streaming equals batch if and only if no chunk boundary falls between a carriage
      return and a newline. */
  lemma StreamingIsBatchIff(chunks: seq<string>)
    requires forall i :: 0 <= i < |chunks| ==> chunks[i] != ""
    ensures SplitLines(Seen(chunks)) == SplitLines(Flatten(chunks)) <==> BadBoundaries(chunks) == 0
    ensures |SplitLines(Seen(chunks))| == |SplitLines(Flatten(chunks))| + BadBoundaries(chunks)
  {
    StreamCounts("", chunks);
    assert "" + Seen(chunks) == Seen(chunks) && "" + Flatten(chunks) == Flatten(chunks);
  }

  // ----- nothing lost, nothing doubled

  lemma {:induction false} WithoutEolJoins(a: string, b: string)
    ensures WithoutEol(a + b) == WithoutEol(a) + WithoutEol(b)
  {
    if a == "" {
      assert "" + b == b;
    } else {
      FirstOfSum(a, b);
      WithoutEolJoins(a[1..], b);
      Regroup(if IsEol(a[0]) then "" else [a[0]], WithoutEol(a[1..]), WithoutEol(b));
    }
  }

  lemma {:induction false} LinesKeepText(s: string)
    ensures Flatten(SplitLines(s)) == WithoutEol(s)
    decreases |s|
  {
    if s != "" {
      LinesKeepText(s[1..]);
      if s[0] == '\r' {
        LinesKeepText(AfterReturn(s));
        FlattenCons("", SplitLines(AfterReturn(s)));
      } else if s[0] == '\n' {
        FlattenCons("", SplitLines(s[1..]));
      } else {
        FlattenExtended(s[0], SplitLines(s[1..]));
      }
    }
  }

  lemma FlattenExtended(c: char, lines: seq<string>)
    ensures Flatten(Extend(c, lines)) == [c] + Flatten(lines)
  {
    if lines == [] {
      FlattenCons([c], []);
      assert [[c]] == [[c]] + [];
    } else {
      FlattenCons([c] + lines[0], lines[1..]);
    }
  }

  /** However the output is cut into chunks, the lines hold exactly its text. */
  lemma StreamingKeepsText(chunks: seq<string>)
    ensures Flatten(SplitLines(Seen(chunks))) == WithoutEol(Flatten(chunks))
  {
    LinesKeepText(Seen(chunks));
    SeenKeepsText(chunks);
  }

  lemma {:induction false} SeenKeepsText(chunks: seq<string>)
    ensures WithoutEol(Seen(chunks)) == WithoutEol(Flatten(chunks))
  {
    if chunks != [] {
      var c, rest := chunks[0], chunks[1..];
      SeenKeepsText(rest);
      assert ([Closed(c)] + ClosedAll(rest))[1..] == ClosedAll(rest);
      WithoutEolJoins(Closed(c), Seen(rest));
      WithoutEolJoins(c, Flatten(rest));
      WithoutEolJoins(c, "\n");
      assert WithoutEol("\n") == "";
    }
  }

  /** No line holds a line end. */
  lemma {:induction false} LinesAreLines(s: string, n: nat)
    requires n < |SplitLines(s)|
    ensures OneLine(SplitLines(s)[n])
    decreases |s|
  {
    if s[0] == '\r' {
      if n > 0 {
        LinesAreLines(AfterReturn(s), n - 1);
      }
    } else if s[0] == '\n' {
      if n > 0 {
        LinesAreLines(s[1..], n - 1);
      }
    } else if |s| > 1 {
      LinesAreLines(s[1..], n);
      var line := SplitLines(s)[n];
      assert n == 0 ==> line[1..] == SplitLines(s[1..])[0];
    }
  }
}
