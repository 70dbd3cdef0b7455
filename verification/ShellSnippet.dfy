/** Shrinking a command to a shell snippet: SingleQuote and ShrinkToSnippet of
    devil/utils/cmd_helper.py, read back by the quoting rules of section 2.2 of the Shell
    Command Language in POSIX.1-2017. */
module ShellSnippet {
  import opened Basics

  // ----- the code

  predicate IsLetter(c: char) {
    'a' <= c <= 'z' || 'A' <= c <= 'Z'
  }

  predicate IsDigit(c: char) {
    '0' <= c <= '9'
  }

  predicate IsSafe(c: char) {
    IsLetter(c) || IsDigit(c) || c in "@%_-+=:,./"
  }

  predicate AllSafe(s: string) {
    s == "" || (IsSafe(s[0]) && AllSafe(s[1..]))
  }

  /** Each quote as: end of quotes, a quote in double quotes, start of quotes. */
  function EscapeQuotes(s: string): string {
    if s == "" then "" else (if s[0] == '\'' then "'\"'\"'" else [s[0]]) + EscapeQuotes(s[1..])
  }

  /** pipes.quote of Python 2. */
  function SingleQuote(s: string): string {
    if s == "" then "''"
    else if AllSafe(s) then s
    else "'" + (EscapeQuotes(s) + "'")
  }

  predicate StartsWith(s: string, w: string) {
    w == "" || (s != "" && s[0] == w[0] && StartsWith(s[1..], w[1..]))
  }

  lemma {:induction false} StartsWithIs(s: string, w: string)
    ensures StartsWith(s, w) <==> w <= s
  {
    if w != "" && s != "" {
      StartsWithIs(s[1..], w[1..]);
      if s[0] == w[0] && w[1..] <= s[1..] {
        assert w == [w[0]] + w[1..] && s == [s[0]] + s[1..];
      }
    }
  }

  /** value.split(sep): the pieces between the leftmost occurrences of `sep`; `piece` is
      the part of the current piece that has been read. */
  function SplitFrom(piece: string, value: string, sep: string): (r: seq<string>)
    requires sep != ""
    ensures r != []
    decreases |value|
  {
    if value == "" then [piece]
    else if StartsWith(value, sep) then
      StartsWithIs(value, sep);
      [piece] + SplitFrom("", value[|sep|..], sep)
    else SplitFrom(piece + [value[0]], value[1..], sep)
  }

  function Split(value: string, sep: string): seq<string>
    requires sep != ""
  {
    SplitFrom("", value, sep)
  }

  function Join(sep: string, parts: seq<string>): string {
    if parts == [] then ""
    else if |parts| == 1 then parts[0]
    else parts[0] + (sep + Join(sep, parts[1..]))
  }

  function QuotePiece(x: string): string {
    if x == "" then x else SingleQuote(x)
  }

  function QuotePieces(parts: seq<string>): (r: seq<string>)
    ensures |r| == |parts|
  {
    if parts == [] then [] else [QuotePiece(parts[0])] + QuotePieces(parts[1..])
  }

  function Reference(varName: string): string {
    "\"$" + (varName + "\"")
  }

  function Shrink(value: string, varName: string, varValue: string): string
    requires varValue != ""
  {
    var s := Join(Reference(varName), QuotePieces(Split(value, varValue)));
    if s == "" then "''" else s
  }

  function ShrinkParts(parts: seq<string>, varName: string, varValue: string): (r: seq<string>)
    requires varValue != ""
    ensures |r| == |parts|
  {
    if parts == [] then [] else [Shrink(parts[0], varName, varValue)] + ShrinkParts(parts[1..], varName, varValue)
  }

  /** None when an empty separator makes split raise ValueError. */
  function ShrinkToSnippet(cmdParts: seq<string>, varName: string, varValue: string): Option<string> {
    if varValue == "" && cmdParts != [] then None
    else if cmdParts == [] then Some("")
    else Some(Join(" ", ShrinkParts(cmdParts, varName, varValue)))
  }

  // ----- the shell

  datatype Quoting = Unquoted | Single | Double

  type Variables = map<string, string>

  /** A word that has been started, if one has. */
  type Word = Option<string>

  function Text(w: Word): string {
    match w case Some(t) => t case None => ""
  }

  function Finished(w: Word): seq<string> {
    match w case Some(t) => [t] case None => []
  }

  function NameLength(s: string): (n: nat)
    ensures n <= |s|
  {
    if s != "" && (IsLetter(s[0]) || IsDigit(s[0]) || s[0] == '_') then 1 + NameLength(s[1..]) else 0
  }

  /** A name of the shell: letters, digits and underscores, and no digit first. */
  predicate IsName(s: string) {
    s != "" && !IsDigit(s[0]) && InName(s)
  }

  predicate InName(s: string) {
    forall k :: 0 <= k < |s| ==> IsLetter(s[k]) || IsDigit(s[k]) || s[k] == '_'
  }

  /** The words that `s` stands for, after `w`; None for what these rules give no plain
      words to (operators, patterns, other expansions, open quotes). */
  function Read(s: string, q: Quoting, w: Word, vars: Variables): Option<seq<string>>
    decreases |s|
  {
    if s == "" then if q == Unquoted then Some(Finished(w)) else None
    else
      var c := s[0];
      match q
      case Unquoted =>
        if c == ' ' || c == '\t' then
          match Read(s[1..], Unquoted, None, vars)
          case Some(words) => Some(Finished(w) + words)
          case None => None
        else if c == '\'' then Read(s[1..], Single, Some(Text(w)), vars)
        else if c == '"' then Read(s[1..], Double, Some(Text(w)), vars)
        else if IsSafe(c) then Read(s[1..], Unquoted, Some(Text(w) + [c]), vars)
        else None
      case Single =>
        if c == '\'' then Read(s[1..], Unquoted, w, vars)
        else Read(s[1..], Single, Some(Text(w) + [c]), vars)
      case Double =>
        if c == '"' then Read(s[1..], Unquoted, w, vars)
        else if c == '$' then ReadVariable(s[1..], w, vars)
        else if c == '`' || c == '\\' then None
        else Read(s[1..], Double, Some(Text(w) + [c]), vars)
  }

  /** A variable in double quotes stands for its value, without further splitting. */
  function ReadVariable(s: string, w: Word, vars: Variables): Option<seq<string>>
    decreases |s|
  {
    var n := NameLength(s);
    if n == 0 || IsDigit(s[0]) then None
    else Read(s[n..], Double, Some(Text(w) + Value(vars, s[..n])), vars)
  }

  /** An unset variable stands for nothing. */
  function Value(vars: Variables, name: string): string {
    if name in vars then vars[name] else ""
  }

  function Words(s: string, vars: Variables): Option<seq<string>> {
    Read(s, Unquoted, None, vars)
  }

  // ----- reading back what is quoted

  lemma {:induction false} ReadSafe(x: string, rest: string, t: string, vars: Variables)
    requires AllSafe(x)
    ensures Read(x + rest, Unquoted, Some(t), vars) == Read(rest, Unquoted, Some(t + x), vars)
    decreases |x|
  {
    if x == "" {
      assert x + rest == rest && t + x == t;
    } else {
      FirstOfSum(x, rest);
      ReadSafe(x[1..], rest, t + [x[0]], vars);
      Regroup(t, [x[0]], x[1..]);
      assert [x[0]] + x[1..] == x;
    }
  }

  /** Inside single quotes, with each quote written as five characters. */
  lemma {:induction false} ReadEscaped(x: string, rest: string, t: string, vars: Variables)
    ensures Read(EscapeQuotes(x) + ("'" + rest), Single, Some(t), vars) == Read(rest, Unquoted, Some(t + x), vars)
    decreases |x|
  {
    if x == "" {
      assert EscapeQuotes(x) + ("'" + rest) == "'" + rest && t + x == t;
      FirstOfSum("'", rest);
      assert "'"[1..] + rest == rest;
    } else {
      var more := EscapeQuotes(x[1..]) + ("'" + rest);
      ReadEscaped(x[1..], rest, t + [x[0]], vars);
      assert t + [x[0]] + x[1..] == t + x;
      if x[0] == '\'' {
        Regroup("'\"'\"'", EscapeQuotes(x[1..]), "'" + rest);
        ReadQuote(more, t, vars);
      } else {
        Regroup([x[0]], EscapeQuotes(x[1..]), "'" + rest);
        assert ([x[0]] + more)[1..] == more;
      }
    }
  }

  lemma ReadQuote(more: string, t: string, vars: Variables)
    ensures Read("'\"'\"'" + more, Single, Some(t), vars) == Read(more, Single, Some(t + "'"), vars)
  {
    var s4 := "'" + more;
    var s3 := "\"" + s4;
    var s2 := "'" + s3;
    var s1 := "\"" + s2;
    assert "'\"'\"'" + more == "'" + s1;
    ReadStep('\'', s1, Single, Some(t), vars);
    ReadStep('"', s2, Unquoted, Some(t), vars);
    ReadStep('\'', s3, Double, Some(t), vars);
    ReadStep('"', s4, Double, Some(t + "'"), vars);
    ReadStep('\'', more, Unquoted, Some(t + "'"), vars);
  }

  /** A quote opens, closes or is quoted by the other kind. */
  lemma ReadStep(c: char, s: string, q: Quoting, w: Word, vars: Variables)
    requires c == '\'' || c == '"'
    ensures var after := if q == Unquoted then (if c == '"' then Double else Single)
                         else if q == (if c == '"' then Double else Single) then Unquoted else q;
            Read([c] + s, q, w, vars)
              == Read(s, after,
                      if q == Unquoted then Some(Text(w)) else if after == q then Some(Text(w) + [c]) else w, vars)
  {
    assert ([c] + s)[1..] == s;
  }

  /** A quoted string is read as itself, wherever it stands in a word. */
  lemma ReadQuoted(x: string, rest: string, w: Word, vars: Variables)
    ensures Read(SingleQuote(x) + rest, Unquoted, w, vars) == Read(rest, Unquoted, Some(Text(w) + x), vars)
  {
    if x == "" {
      assert "''" + rest == "'" + ("'" + rest) && Text(w) + x == Text(w);
      ReadStep('\'', "'" + rest, Unquoted, w, vars);
      ReadStep('\'', rest, Single, Some(Text(w)), vars);
    } else if AllSafe(x) {
      FirstOfSum(x, rest);
      SafeStarts(x[0]);
      ReadSafe(x[1..], rest, Text(w) + [x[0]], vars);
      Regroup(Text(w), [x[0]], x[1..]);
      assert [x[0]] + x[1..] == x;
    } else {
      ReadInQuotes(x, rest, w, vars);
    }
  }

  lemma ReadInQuotes(x: string, rest: string, w: Word, vars: Variables)
    ensures Read("'" + (EscapeQuotes(x) + "'") + rest, Unquoted, w, vars) ==
            Read(rest, Unquoted, Some(Text(w) + x), vars)
  {
    var inside := EscapeQuotes(x) + ("'" + rest);
    assert "'" + (EscapeQuotes(x) + "'") + rest == "'" + inside;
    ReadStep('\'', inside, Unquoted, w, vars);
    ReadEscaped(x, rest, Text(w), vars);
  }

  lemma SafeStarts(c: char)
    requires IsSafe(c)
    ensures c != ' ' && c != '\t' && c != '\'' && c != '"'
  {
  }

  /** For every string, the quoted form is one word of the shell: the string itself. */
  lemma SingleQuoteReadsBack(x: string, vars: Variables)
    ensures Words(SingleQuote(x), vars) == Some([x])
  {
    ReadQuoted(x, "", None, vars);
    assert SingleQuote(x) + "" == SingleQuote(x) && "" + x == x;
  }

  /** The characters that mean themselves outside quotes, written out. */
  predicate MeansItself(c: char) {
    c in {'a', 'b', 'c', 'd', 'e', 'f', 'g', 'h', 'i', 'j', 'k', 'l', 'm', 'n', 'o', 'p', 'q', 'r', 's', 't', 'u', 'v',
          'w', 'x', 'y', 'z', 'A', 'B', 'C', 'D', 'E', 'F', 'G', 'H', 'I', 'J', 'K', 'L', 'M', 'N', 'O', 'P', 'Q', 'R',
          'S', 'T', 'U', 'V', 'W', 'X', 'Y', 'Z', '0', '1', '2', '3', '4', '5', '6', '7', '8', '9',
          '@', '%', '_', '-', '+', '=', ':', ',', '.', '/'}
  }

  lemma SafeMeansItself(c: char)
    ensures IsSafe(c) <==> MeansItself(c)
  {
  }

  lemma {:induction false} AllSafeIff(s: string)
    ensures AllSafe(s) <==> forall k :: 0 <= k < |s| ==> MeansItself(s[k])
  {
    if s != "" {
      SafeMeansItself(s[0]);
      AllSafeIff(s[1..]);
      assert forall k :: 0 < k < |s| ==> s[k] == s[1..][k - 1];
      assert forall k :: 0 <= k < |s| - 1 ==> s[1..][k] == s[k + 1];
    }
  }

  /** Exactly the texts of such characters go without quotes. */
  lemma UnquotedIff(s: string)
    ensures SingleQuote(s) == s <==> s != "" && forall k :: 0 <= k < |s| ==> MeansItself(s[k])
  {
    AllSafeIff(s);
    QuotesGrow(s);
  }

  lemma {:induction false} QuotesGrow(s: string)
    ensures |EscapeQuotes(s)| >= |s|
  {
    if s != "" {
      QuotesGrow(s[1..]);
    }
  }

  // ----- reading back a variable

  lemma {:induction false} NameEnds(name: string, rest: string)
    requires InName(name) && (rest == "" || NameLength(rest) == 0)
    ensures NameLength(name + rest) == |name|
    decreases |name|
  {
    if name == "" {
      assert name + rest == rest;
    } else {
      FirstOfSum(name, rest);
      NameEnds(name[1..], rest);
    }
  }

  lemma ReadReference(name: string, rest: string, w: Word, vars: Variables)
    requires IsName(name)
    ensures Read(Reference(name) + rest, Unquoted, w, vars) ==
            Read(rest, Unquoted, Some(Text(w) + Value(vars, name)), vars)
  {
    var tail := "\"" + rest;
    assert Reference(name) + rest == "\"" + ("$" + (name + tail));
    ReadStep('"', "$" + (name + tail), Unquoted, w, vars);
    assert ("$" + (name + tail))[1..] == name + tail;
    ReadName(name, tail, Some(Text(w)), vars);
    ReadStep('"', rest, Double, Some(Text(w) + Value(vars, name)), vars);
  }

  lemma ReadName(name: string, tail: string, w: Word, vars: Variables)
    requires IsName(name) && NameLength(tail) == 0
    ensures ReadVariable(name + tail, w, vars) == Read(tail, Double, Some(Text(w) + Value(vars, name)), vars)
  {
    NameEnds(name, tail);
    assert (name + tail)[0] == name[0] && (name + tail)[|name|..] == tail && (name + tail)[..|name|] == name;
  }

  // ----- splitting

  lemma {:induction false} SplitJoins(piece: string, value: string, sep: string)
    requires sep != ""
    ensures Join(sep, SplitFrom(piece, value, sep)) == piece + value
    decreases |value|
  {
    if value == "" {
      assert piece + value == piece;
    } else if StartsWith(value, sep) {
      StartsWithIs(value, sep);
      var tail := value[|sep|..];
      SplitJoins("", tail, sep);
      assert ([piece] + SplitFrom("", tail, sep))[1..] == SplitFrom("", tail, sep);
      assert "" + tail == tail && value == sep + tail;
    } else {
      SplitJoins(piece + [value[0]], value[1..], sep);
      Regroup(piece, [value[0]], value[1..]);
      assert [value[0]] + value[1..] == value;
    }
  }

  ghost predicate Occurs(sep: string, s: string) {
    exists j :: 0 <= j <= |s| && StartsAt(sep, s, j)
  }

  ghost predicate StartsAt(sep: string, s: string, j: nat)
    requires j <= |s|
  {
    sep <= s[j..]
  }

  /** No occurrence starts in the part of the piece that has been read. */
  ghost predicate NoneBefore(piece: string, value: string, sep: string) {
    forall j :: 0 <= j < |piece| ==> !StartsAt(sep, piece + value, j)
  }

  /** Every occurrence of the separator is taken out. */
  lemma {:induction false} PiecesAreFree(piece: string, value: string, sep: string)
    requires sep != "" && NoneBefore(piece, value, sep)
    ensures forall i :: 0 <= i < |SplitFrom(piece, value, sep)| ==> !Occurs(sep, SplitFrom(piece, value, sep)[i])
    decreases |value|
  {
    if value == "" {
      PieceIsFree(piece, value, sep);
    } else if StartsWith(value, sep) {
      StartsWithIs(value, sep);
      PieceIsFree(piece, value, sep);
      PiecesAreFree("", value[|sep|..], sep);
    } else {
      var longer := piece + [value[0]];
      StartsWithIs(value, sep);
      assert longer + value[1..] == piece + value && (piece + value)[|piece|..] == value;
      forall j | 0 <= j < |longer| ensures !StartsAt(sep, longer + value[1..], j) {
        assert j < |piece| ==> !StartsAt(sep, piece + value, j);
      }
      PiecesAreFree(longer, value[1..], sep);
    }
  }

  lemma PieceIsFree(piece: string, value: string, sep: string)
    requires sep != "" && NoneBefore(piece, value, sep)
    ensures !Occurs(sep, piece)
  {
    forall j | 0 <= j <= |piece| ensures !StartsAt(sep, piece, j) {
      StartsInLonger(sep, piece, value, j);
    }
  }

  lemma StartsInLonger(sep: string, s: string, more: string, j: nat)
    requires j <= |s|
    ensures StartsAt(sep, s, j) ==> StartsAt(sep, s + more, j)
    ensures sep != "" && j == |s| ==> !StartsAt(sep, s, j)
  {
    assert (s + more)[j..] == s[j..] + more;
  }

  /** Splitting takes out every occurrence of the separator and nothing else. */
  lemma SplitIsExact(value: string, sep: string)
    requires sep != ""
    ensures Join(sep, Split(value, sep)) == value
    ensures forall i :: 0 <= i < |Split(value, sep)| ==> !Occurs(sep, Split(value, sep)[i])
  {
    SplitJoins("", value, sep);
    PiecesAreFree("", value, sep);
    assert "" + value == value;
  }

  // ----- reading back a snippet

  /** The quoted pieces, joined by the variable, are read as the pieces joined by its
      value; a word is started unless the only piece is empty. */
  lemma {:induction false} ReadPieces(parts: seq<string>, name: string, rest: string, w: Word, vars: Variables)
    requires parts != [] && IsName(name) && (w.Some? || parts != [""])
    ensures Read(Join(Reference(name), QuotePieces(parts)) + rest, Unquoted, w, vars)
         == Read(rest, Unquoted, Some(Text(w) + Join(Value(vars, name), parts)), vars)
    decreases |parts|
  {
    var x := parts[0];
    if |parts| == 1 {
      assert Join(Reference(name), QuotePieces(parts)) == QuotePiece(x);
      ReadPiece(x, rest, w, vars);
    } else {
      var v := Value(vars, name);
      assert QuotePieces(parts)[1..] == QuotePieces(parts[1..]);
      ReadPieces(parts[1..], name, rest, Some(Text(w) + x + v), vars);
      ReadMore(x, name, Join(Reference(name), QuotePieces(parts[1..])), Join(v, parts[1..]), rest, w, vars);
    }
  }

  /** A piece and the variable, followed by what is read as `joined`. */
  lemma ReadMore(x: string, name: string, more: string, joined: string, rest: string, w: Word, vars: Variables)
    requires IsName(name)
    requires var t := Text(w) + x + Value(vars, name);
             Read(more + rest, Unquoted, Some(t), vars) == Read(rest, Unquoted, Some(t + joined), vars)
    ensures Read(QuotePiece(x) + (Reference(name) + more) + rest, Unquoted, w, vars)
         == Read(rest, Unquoted, Some(Text(w) + (x + (Value(vars, name) + joined))), vars)
  {
    var v := Value(vars, name);
    Regroup(QuotePiece(x), Reference(name) + more, rest);
    Regroup(Reference(name), more, rest);
    ReadPiece(x, Reference(name) + (more + rest), w, vars);
    var w1 := if x == "" then w else Some(Text(w) + x);
    ReadReference(name, more + rest, w1, vars);
    assert Text(w1) == Text(w) + x;
    Regroup(Text(w) + x, v, joined);
    Regroup(Text(w), x, v + joined);
  }

  lemma ReadPiece(x: string, rest: string, w: Word, vars: Variables)
    ensures Read(QuotePiece(x) + rest, Unquoted, w, vars)
         == Read(rest, Unquoted, if x == "" then w else Some(Text(w) + x), vars)
    ensures x == "" && w.Some? ==> w == Some(Text(w) + x)
  {
    if x == "" {
      assert QuotePiece(x) + rest == rest;
      assert Text(w) + x == Text(w);
    } else {
      ReadQuoted(x, rest, w, vars);
    }
  }

  /** What `value` becomes when each occurrence of `varValue` gives way to `other`. */
  function Replaced(value: string, varValue: string, other: string): string
    requires varValue != ""
  {
    Join(other, Split(value, varValue))
  }

  function ReplacedAll(parts: seq<string>, varValue: string, other: string): (r: seq<string>)
    requires varValue != ""
    ensures |r| == |parts|
  {
    if parts == [] then [] else [Replaced(parts[0], varValue, other)] + ReplacedAll(parts[1..], varValue, other)
  }

  /** A shrunk word is read with whatever the variable is bound to in each place where the
      value stood. */
  lemma ReadShrunk(value: string, name: string, varValue: string, rest: string, vars: Variables)
    requires IsName(name) && varValue != ""
    ensures Read(Shrink(value, name, varValue) + rest, Unquoted, None, vars)
         == Read(rest, Unquoted, Some(Replaced(value, varValue, Value(vars, name))), vars)
  {
    var parts := Split(value, varValue);
    if parts == [""] {
      assert QuotePieces(parts) == [""];
      ReadQuoted("", rest, None, vars);
    } else {
      ReadPieces(parts, name, rest, None, vars);
      JoinedIsNotEmpty(parts, name);
    }
    EmptyBefore(Replaced(value, varValue, Value(vars, name)));
  }

  lemma EmptyBefore(s: string)
    ensures "" + s == s
  {
  }

  lemma JoinedIsNotEmpty(parts: seq<string>, name: string)
    requires parts != [] && parts != [""]
    ensures Join(Reference(name), QuotePieces(parts)) != ""
  {
    if |parts| == 1 {
      assert parts == [parts[0]];
    }
  }

  /** The snippet follows the variable: with any binding it stands for the command with
      that binding in place of the value. */
  lemma SnippetFollowsVariable(cmdParts: seq<string>, name: string, varValue: string, vars: Variables)
    requires IsName(name) && varValue != ""
    ensures ShrinkToSnippet(cmdParts, name, varValue).Some?
    ensures Words(ShrinkToSnippet(cmdParts, name, varValue).value, vars)
         == Some(ReplacedAll(cmdParts, varValue, Value(vars, name)))
  {
    if cmdParts != [] {
      ReadSnippet(cmdParts, name, varValue, vars);
    }
  }

  /** An empty value cannot be searched for, which shows only when there is a word to search. */
  lemma SnippetRaisesIff(cmdParts: seq<string>, name: string, varValue: string)
    ensures ShrinkToSnippet(cmdParts, name, varValue).None? <==> varValue == "" && cmdParts != []
    ensures cmdParts == [] ==> ShrinkToSnippet(cmdParts, name, varValue) == Some("")
  {
  }

  /** So shrinking keeps the meaning: with the variable bound to the value that was
      replaced, the snippet stands for exactly the words of the command. */
  lemma SnippetMeansCommand(cmdParts: seq<string>, name: string, varValue: string, vars: Variables)
    requires IsName(name) && varValue != "" && name in vars && vars[name] == varValue
    ensures ShrinkToSnippet(cmdParts, name, varValue).Some?
    ensures Words(ShrinkToSnippet(cmdParts, name, varValue).value, vars) == Some(cmdParts)
  {
    SnippetFollowsVariable(cmdParts, name, varValue, vars);
    ReplacedBySame(cmdParts, varValue);
  }

  lemma {:induction false} ReplacedBySame(parts: seq<string>, varValue: string)
    requires varValue != ""
    ensures ReplacedAll(parts, varValue, varValue) == parts
  {
    if parts != [] {
      SplitIsExact(parts[0], varValue);
      ReplacedBySame(parts[1..], varValue);
      assert parts == [parts[0]] + parts[1..];
    }
  }

  lemma {:induction false} ReadSnippet(cmdParts: seq<string>, name: string, varValue: string, vars: Variables)
    requires IsName(name) && varValue != "" && cmdParts != []
    ensures Words(Join(" ", ShrinkParts(cmdParts, name, varValue)), vars)
         == Some(ReplacedAll(cmdParts, varValue, Value(vars, name)))
    decreases |cmdParts|
  {
    var first, later := cmdParts[0], cmdParts[1..];
    var shrunk := ShrinkParts(later, name, varValue);
    var word := Replaced(first, varValue, Value(vars, name));
    if later == [] {
      ReadShrunk(first, name, varValue, "", vars);
      LastWord(Shrink(first, name, varValue), word, vars);
    } else {
      ReadShrunk(first, name, varValue, " " + Join(" ", shrunk), vars);
      ReadSnippet(later, name, varValue, vars);
      MoreWords(Shrink(first, name, varValue), word, shrunk, vars);
    }
  }

  lemma LastWord(s: string, word: string, vars: Variables)
    requires Read(s + "", Unquoted, None, vars) == Read("", Unquoted, Some(word), vars)
    ensures Words(Join(" ", [s] + []), vars) == Some([word] + [])
  {
    assert s + "" == s && [s] + [] == [s] && [word] + [] == [word];
  }

  lemma MoreWords(s: string, word: string, others: seq<string>, vars: Variables)
    requires others != [] && Words(Join(" ", others), vars).Some?
    requires var more := " " + Join(" ", others);
             Read(s + more, Unquoted, None, vars) == Read(more, Unquoted, Some(word), vars)
    ensures Words(Join(" ", [s] + others), vars) == Some([word] + Words(Join(" ", others), vars).value)
  {
    var more := Join(" ", others);
    assert ([s] + others)[1..] == others;
    assert (" " + more)[1..] == more;
  }
}
