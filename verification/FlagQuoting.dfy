/** The quoting printer and the quote/escape parser of devil/android/flag_changer.py. */
module FlagQuoting {
  import opened Basics

  const ESCAPE := '\\'

  predicate IsQuote(c: char) {
    c == '"' || c == '\''
  }

  predicate IsSpace(c: char) {
    c == ' ' || '\t' <= c <= '\r'
  }

  /** Matched by the complement of the quoting pattern: word characters and hyphens. */
  predicate IsPlain(c: char) {
    'a' <= c <= 'z' || 'A' <= c <= 'Z' || '0' <= c <= '9' || c == '_' || c == '-'
  }

  // ----- the parser

  /** The variables of the parsing loop. */
  datatype Parser = Parser(flags: seq<string>, quote: Option<char>, flag: Option<string>)
  {
    /** The current flag is never empty, so its last character exists. */
    predicate Valid() {
      flag.Some? ==> flag.value != ""
    }

    predicate EndsInEscape()
      requires Valid()
    {
      flag.Some? && flag.value[|flag.value| - 1] == ESCAPE
    }

    function Append(s: string): Parser {
      if s == "" then this else this.(flag := Some(if flag.Some? then flag.value + s else s))
    }
  }

  const START := Parser([], None, None)

  function Step(p: Parser, c: char): (r: Parser)
    requires p.Valid()
    ensures r.Valid()
  {
    if (p.quote.None? && IsQuote(c)) || p.quote == Some(c) then
      if p.EndsInEscape() then p.(flag := Some(p.flag.value[..|p.flag.value| - 1] + [c]))
      else p.(quote := if p.quote.None? then Some(c) else None)
    else if p.quote.None? && IsSpace(c) then
      if p.flag.Some? then Parser(p.flags + [p.flag.value], None, None) else p
    else p.Append([c])
  }

  function Steps(p: Parser, line: string): (r: Parser)
    requires p.Valid()
    ensures r.Valid()
    decreases |line|
  {
    if line == "" then p else Steps(Step(p, line[0]), line[1..])
  }

  function Finish(p: Parser): seq<string> {
    if p.flag.Some? then p.flags + [p.flag.value] else p.flags
  }

  /** All the tokens of a command line, the program name included. */
  function Tokens(line: string): seq<string> {
    Finish(Steps(START, line))
  }

  function Parsed(line: string): seq<string> {
    if Tokens(line) == [] then [] else Tokens(line)[1..]
  }

  /** No token is empty. */
  lemma {:induction false} TokensNotEmpty(p: Parser, line: string)
    requires p.Valid() && "" !in p.flags
    ensures "" !in Finish(Steps(p, line))
    decreases |line|
  {
    if line != "" {
      TokensNotEmpty(Step(p, line[0]), line[1..]);
    }
  }

  lemma {:induction false} StepsConcat(p: Parser, a: string, b: string)
    requires p.Valid()
    ensures Steps(p, a + b) == Steps(Steps(p, a), b)
    decreases |a|
  {
    if a == "" {
      assert a + b == b;
    } else {
      assert (a + b)[0] == a[0] && (a + b)[1..] == a[1..] + b;
      StepsConcat(Step(p, a[0]), a[1..], b);
    }
  }

  /** The loop of _ParseFlags. */
  method ParseFlags(line: string) returns (flags: seq<string>)
    ensures flags == Parsed(line)
    ensures "" !in flags
  {
    flags := [];
    var quote: Option<char> := None;
    var flag: Option<string> := None;
    var i := 0;
    while i < |line|
      invariant 0 <= i <= |line|
      invariant Parser(flags, quote, flag).Valid()
      invariant Steps(START, line) == Steps(Parser(flags, quote, flag), line[i..])
    {
      var c := line[i];
      assert line[i..][0] == c && line[i..][1..] == line[i + 1..];
      if (quote.None? && IsQuote(c)) || quote == Some(c) {
        if flag.Some? && flag.value[|flag.value| - 1] == ESCAPE {
          flag := Some(flag.value[..|flag.value| - 1] + [c]);
        } else {
          quote := if quote.None? then Some(c) else None;
        }
      } else if quote.None? && IsSpace(c) {
        if flag.Some? {
          flags := flags + [flag.value];
          flag := None;
        }
      } else {
        flag := Some(if flag.None? then [c] else flag.value + [c]);
      }
      i := i + 1;
    }
    if flag.Some? {
      flags := flags + [flag.value];
    }
    flags := if flags == [] then [] else flags[1..];
    TokensNotEmpty(START, line);
  }

  // ----- the printer

  predicate NeedsQuoting(s: string) {
    exists k :: 0 <= k < |s| && !IsPlain(s[k])
  }

  /** Where the first equals sign from `i` on is, or the length of `s`. */
  function FindEquals(s: string, i: nat): (n: nat)
    requires i <= |s|
    ensures i <= n <= |s| && (n < |s| ==> s[n] == '=')
    ensures forall k :: i <= k < n ==> s[k] != '='
    decreases |s| - i
  {
    if i == |s| || s[i] == '=' then i else FindEquals(s, i + 1)
  }

  function KeyLength(s: string): nat {
    FindEquals(s, 0)
  }

  /** Every one of `quotes` gets a backslash in front. */
  function Escaped(s: string, quotes: set<char>): string {
    if s == "" then ""
    else (if s[0] in quotes then [ESCAPE, s[0]] else [s[0]]) + Escaped(s[1..], quotes)
  }

  function Escape(s: string): string {
    Escaped(s, {'"'})
  }

  function QuoteFlag(flag: string): string {
    var n := KeyLength(flag);
    var key := flag[..n];
    if flag == "" || NeedsQuoting(key) then "\"" + Escape(flag) + "\""
    else if n == |flag| then key
    else
      var value := flag[n + 1..];
      key + "=" + if NeedsQuoting(value) then "\"" + Escape(value) + "\"" else value
  }

  /** The quoted flags, each after a space. */
  function QuoteAll(flags: seq<string>): string {
    if flags == [] then "" else " " + QuoteFlag(flags[0]) + QuoteAll(flags[1..])
  }

  /** The line to save, or None for no flags at all. */
  function SerializeFlags(flags: seq<string>): Option<string> {
    if flags == [] then None else Some("_" + QuoteAll(flags))
  }

  /** The line the device file holds after the flags are saved; no file reads as "". */
  function SavedLine(flags: seq<string>): string {
    if SerializeFlags(flags).Some? then SerializeFlags(flags).value else ""
  }

  /** The characters that need no quotes, written out. */
  predicate IsWordChar(c: char) {
    c in {'a', 'b', 'c', 'd', 'e', 'f', 'g', 'h', 'i', 'j', 'k', 'l', 'm', 'n', 'o', 'p', 'q', 'r', 's', 't', 'u', 'v',
          'w', 'x', 'y', 'z', 'A', 'B', 'C', 'D', 'E', 'F', 'G', 'H', 'I', 'J', 'K', 'L', 'M', 'N', 'O', 'P', 'Q', 'R',
          'S', 'T', 'U', 'V', 'W', 'X', 'Y', 'Z', '0', '1', '2', '3', '4', '5', '6', '7', '8', '9', '_', '-'}
  }

  predicate Wordy(s: string) {
    forall k :: 0 <= k < |s| ==> IsWordChar(s[k])
  }

  lemma PlainIsWordChar(c: char)
    ensures IsPlain(c) <==> IsWordChar(c)
  {
  }

  lemma NeedsQuotingIff(s: string)
    ensures NeedsQuoting(s) <==> !Wordy(s)
  {
    forall k | 0 <= k < |s| ensures IsPlain(s[k]) <==> IsWordChar(s[k]) {
      PlainIsWordChar(s[k]);
    }
  }

  /** The three forms of a printed flag: as it is, with a quoted value, or quoted as a whole. */
  lemma QuoteFlagForms(flag: string, key: string, value: string)
    requires '=' !in key
    ensures flag == key ==> QuoteFlag(flag) == if flag != "" && Wordy(key) then flag else "\"" + Escape(flag) + "\""
    ensures flag == key + "=" + value ==>
            QuoteFlag(flag) == if !Wordy(key) then "\"" + Escape(flag) + "\""
                               else key + "=" + if Wordy(value) then value else "\"" + Escape(value) + "\""
  {
    NeedsQuotingIff(key);
    NeedsQuotingIff(value);
    if flag == key {
      assert KeyLength(flag) == |flag| && flag[..|flag|] == flag;
    }
    if flag == key + "=" + value {
      EqualsAt(flag, key, value);
    }
  }

  lemma EqualsAt(flag: string, key: string, value: string)
    requires '=' !in key && flag == key + "=" + value
    ensures KeyLength(flag) == |key| && flag[..|key|] == key && flag[|key| + 1..] == value
  {
    assert flag[|key|] == '=' && forall k :: 0 <= k < |key| ==> flag[k] == key[k];
  }

  // ----- printing, then parsing

  lemma AppendAppend(p: Parser, a: string, b: string)
    ensures p.Append(a).Append(b) == p.Append(a + b)
  {
    if p.flag.Some? {
      assert p.flag.value + a + b == p.flag.value + (a + b);
    }
    if a == "" {
      assert a + b == b;
    } else if b == "" {
      assert a + b == a;
    }
  }

  lemma OneStep(p: Parser, c: char)
    requires p.Valid()
    ensures Steps(p, [c]) == Step(p, c)
  {
    assert [c][1..] == "";
  }

  /** Plain characters and equals signs outside quotes are taken as they are. */
  lemma {:induction false} PlainSteps(p: Parser, s: string)
    requires p.Valid() && p.quote.None?
    requires forall k :: 0 <= k < |s| ==> IsPlain(s[k]) || s[k] == '='
    ensures Steps(p, s) == p.Append(s)
    decreases |s|
  {
    if s != "" {
      PlainSteps(Step(p, s[0]), s[1..]);
      assert s == [s[0]] + s[1..];
      AppendAppend(p, [s[0]], s[1..]);
    }
  }

  /** The characters that need a backslash, outside quotes and inside. */
  function QuotesWithin(quote: Option<char>): set<char> {
    match quote case None => {'"', '\''} case Some(q) => {q}
  }

  /** Blanks of a command line. */
  predicate IsBlank(c: char) {
    c == ' ' || c == '\t' || c == '\n' || c == '\r' || c == 11 as char || c == 12 as char
  }

  predicate NoBlanks(s: string) {
    forall k :: 0 <= k < |s| ==> !IsBlank(s[k])
  }

  predicate InQuotes(p: Parser) {
    p.quote == Some('"') || p.quote == Some('\'')
  }

  /** An escaped quote is a quote. */
  lemma EscapedQuote(p: Parser, c: char)
    requires p.Valid() && (p.quote.None? || InQuotes(p)) && c in QuotesWithin(p.quote)
    ensures Steps(p, [ESCAPE, c]) == p.Append([c])
  {
    var q := Step(p, ESCAPE);
    assert [ESCAPE, c][1..] == [c];
    OneStep(q, c);
    var r := Step(q, c);
    assert r.flag.value == q.flag.value[..|q.flag.value| - 1] + [c];
    assert r.flag.value == if p.flag.Some? then p.flag.value + [c] else [c];
  }

  /** The escaped form of any text stands for that text, inside quotes of either kind and,
      when it holds no blanks, outside. */
  lemma {:induction false} EscapedSteps(p: Parser, s: string)
    requires p.Valid() && (InQuotes(p) || (p.quote.None? && NoBlanks(s)))
    ensures Steps(p, Escaped(s, QuotesWithin(p.quote))) == p.Append(s)
    decreases |s|
  {
    if s != "" {
      var quotes := QuotesWithin(p.quote);
      var head := if s[0] in quotes then [ESCAPE, s[0]] else [s[0]];
      StepsConcat(p, head, Escaped(s[1..], quotes));
      if s[0] in quotes {
        EscapedQuote(p, s[0]);
      } else {
        assert p.quote.None? ==> !IsBlank(s[0]);
        OneStep(p, s[0]);
      }
      assert Steps(p, head) == p.Append([s[0]]);
      EscapedSteps(p.Append([s[0]]), s[1..]);
      assert s == [s[0]] + s[1..];
      AppendAppend(p, [s[0]], s[1..]);
    }
  }

  predicate EndsInBackslash(s: string) {
    s != "" && s[|s| - 1] == ESCAPE
  }

  /** The parser just before the closing quote of `s`. */
  lemma QuotedBody(p: Parser, q: char, s: string)
    requires p.Valid() && p.quote.None? && !p.EndsInEscape() && (q == '"' || q == '\'')
    ensures Steps(p, [q] + Escaped(s, {q})) == p.(quote := Some(q)).Append(s)
  {
    OneStep(p, q);
    StepsConcat(p, [q], Escaped(s, {q}));
    EscapedSteps(p.(quote := Some(q)), s);
  }

  lemma LastOfConcat(a: string, s: string, q: char)
    requires s != ""
    ensures (a + s)[|a + s| - 1] == s[|s| - 1]
    ensures (a + s)[..|a + s| - 1] + [q] == a + (s[..|s| - 1] + [q])
  {
  }

  lemma CloseQuote(p: Parser, q: char)
    requires p.Valid() && p.quote == Some(q)
    ensures Steps(p, [q]) == if p.EndsInEscape() then p.(flag := Some(p.flag.value[..|p.flag.value| - 1] + [q]))
                             else p.(quote := None)
  {
    OneStep(p, q);
  }

  /** The closing quote after the text `s`: a backslash at its end swallows the quote. */
  lemma CloseAfter(p: Parser, q: char, s: string)
    requires p.Valid() && p.quote.None? && !p.EndsInEscape()
    ensures Steps(p.(quote := Some(q)).Append(s), [q]) ==
            if EndsInBackslash(s) then p.Append(s[..|s| - 1] + [q]).(quote := Some(q)) else p.Append(s)
  {
    if p.flag.Some? && s != "" {
      LastOfConcat(p.flag.value, s, q);
    }
    CloseQuote(p.(quote := Some(q)).Append(s), q);
  }

  /** A text quoted with either kind of quote is read back, except that a backslash at its
      end leaves the parser inside the quotes. */
  lemma QuotedSteps(p: Parser, q: char, s: string)
    requires p.Valid() && p.quote.None? && !p.EndsInEscape() && (q == '"' || q == '\'')
    ensures Steps(p, [q] + Escaped(s, {q}) + [q]) ==
            if EndsInBackslash(s) then p.Append(s[..|s| - 1] + [q]).(quote := Some(q)) else p.Append(s)
  {
    QuotedBody(p, q, s);
    StepsConcat(p, [q] + Escaped(s, {q}), [q]);
    CloseAfter(p, q, s);
  }

  /** A flag with a plain key and a quoted value. */
  lemma QuotedValueSteps(p: Parser, flag: string, key: string, value: string)
    requires p.Valid() && p.quote.None? && p.flag.None? && !NeedsQuoting(key) && value != ""
    requires flag == key + "=" + value
    ensures Steps(p, key + "=" + ("\"" + Escape(value) + "\"")) ==
            if EndsInBackslash(value) then p.(flag := Some(flag[..|flag| - 1] + "\""), quote := Some('"'))
            else p.(flag := Some(flag))
  {
    var q := p.(flag := Some(key + "="));
    forall k | 0 <= k < |key| ensures IsPlain(key[k]) {
    }
    PlainSteps(p, key + "=");
    assert !q.EndsInEscape();
    StepsConcat(p, key + "=", "\"" + Escape(value) + "\"");
    QuotedSteps(q, '"', value);
    LastOfConcat(key + "=", value, '"');
  }

  /** A flag that needs no quoting anywhere is printed as it is. */
  lemma UnquotedFlag(flag: string)
    requires flag != "" && !NeedsQuoting(flag[..KeyLength(flag)])
    requires KeyLength(flag) < |flag| ==> !NeedsQuoting(flag[KeyLength(flag) + 1..])
    ensures QuoteFlag(flag) == flag && forall k :: 0 <= k < |flag| ==> IsPlain(flag[k]) || flag[k] == '='
  {
    var n := KeyLength(flag);
    forall k | 0 <= k < |flag| ensures IsPlain(flag[k]) || flag[k] == '=' {
      if k < n {
        assert IsPlain(flag[..n][k]);
      } else if k > n {
        assert IsPlain(flag[n + 1..][k - n - 1]);
      }
    }
  }

  /** The parser after a flag has been read where a new token starts. */
  function AfterFlag(p: Parser, flag: string): Parser
    requires flag != ""
  {
    if EndsInBackslash(flag) then p.(flag := Some(flag[..|flag| - 1] + "\""), quote := Some('"'))
    else p.(flag := Some(flag))
  }

  /** One quoted flag, read where a new token starts. */
  lemma QuoteFlagSteps(p: Parser, flag: string)
    requires p.Valid() && p.quote.None? && p.flag.None? && flag != ""
    ensures Steps(p, QuoteFlag(flag)) == AfterFlag(p, flag)
  {
    var n := KeyLength(flag);
    if NeedsQuoting(flag[..n]) {
      QuotedWholeSteps(p, flag);
    } else if n < |flag| && NeedsQuoting(flag[n + 1..]) {
      KeyValueSteps(p, flag);
    } else {
      UnquotedSteps(p, flag);
    }
  }

  lemma QuotedWholeSteps(p: Parser, flag: string)
    requires p.Valid() && p.quote.None? && p.flag.None? && flag != "" && NeedsQuoting(flag[..KeyLength(flag)])
    ensures Steps(p, QuoteFlag(flag)) == AfterFlag(p, flag)
  {
    QuotedSteps(p, '"', flag);
  }

  lemma KeyValueSteps(p: Parser, flag: string)
    requires p.Valid() && p.quote.None? && p.flag.None? && flag != "" && !NeedsQuoting(flag[..KeyLength(flag)])
    requires KeyLength(flag) < |flag| && NeedsQuoting(flag[KeyLength(flag) + 1..])
    ensures Steps(p, QuoteFlag(flag)) == AfterFlag(p, flag)
  {
    var key, value := KeyAndValue(flag);
    QuotedValueSteps(p, flag, key, value);
    LastOfConcat(key + "=", value, '"');
  }

  lemma KeyAndValue(flag: string) returns (key: string, value: string)
    requires flag != "" && !NeedsQuoting(flag[..KeyLength(flag)])
    requires KeyLength(flag) < |flag| && NeedsQuoting(flag[KeyLength(flag) + 1..])
    ensures flag == key + "=" + value && value != "" && !NeedsQuoting(key)
    ensures QuoteFlag(flag) == key + "=" + ("\"" + Escape(value) + "\"")
  {
    key, value := flag[..KeyLength(flag)], flag[KeyLength(flag) + 1..];
  }

  lemma UnquotedSteps(p: Parser, flag: string)
    requires p.Valid() && p.quote.None? && p.flag.None? && flag != "" && !NeedsQuoting(flag[..KeyLength(flag)])
    requires KeyLength(flag) < |flag| ==> !NeedsQuoting(flag[KeyLength(flag) + 1..])
    ensures Steps(p, QuoteFlag(flag)) == AfterFlag(p, flag)
  {
    UnquotedFlag(flag);
    PlainSteps(p, flag);
  }

  /** The parser between two tokens. */
  function Between(flags: seq<string>): Parser {
    Parser(flags, None, None)
  }

  predicate GoodFlag(flag: string) {
    flag != "" && !EndsInBackslash(flag)
  }

  predicate GoodFlags(flags: seq<string>) {
    forall k :: 0 <= k < |flags| ==> GoodFlag(flags[k])
  }

  lemma SpaceStep(p: Parser, s: string)
    requires p.Valid() && p.quote.None?
    ensures Steps(p, " " + s) == Steps(Between(Finish(p)), s)
  {
    assert (" " + s)[0] == ' ' && (" " + s)[1..] == s;
  }

  /** The parser after reading the quoted form of good flags. */
  function AfterFlags(p: Parser, flags: seq<string>): Parser
    decreases |flags|
  {
    if flags == [] then p else AfterFlags(Parser(Finish(p), None, Some(flags[0])), flags[1..])
  }

  lemma {:induction false} AfterFlagsFinish(p: Parser, flags: seq<string>)
    requires p.quote.None?
    ensures Finish(AfterFlags(p, flags)) == Finish(p) + flags && AfterFlags(p, flags).quote.None?
    decreases |flags|
  {
    if flags != [] {
      AfterFlagsFinish(Parser(Finish(p), None, Some(flags[0])), flags[1..]);
      assert Finish(p) + [flags[0]] + flags[1..] == Finish(p) + flags;
    }
  }

  /** Good flags are read back one by one. */
  lemma {:induction false} QuoteAllSteps(p: Parser, flags: seq<string>)
    requires p.Valid() && p.quote.None? && GoodFlags(flags)
    ensures Steps(p, QuoteAll(flags)) == AfterFlags(p, flags)
    decreases |flags|
  {
    if flags != [] {
      var f, tail := flags[0], QuoteAll(flags[1..]);
      var p1 := Between(Finish(p));
      assert QuoteAll(flags) == " " + (QuoteFlag(f) + tail);
      SpaceStep(p, QuoteFlag(f) + tail);
      StepsConcat(p1, QuoteFlag(f), tail);
      assert GoodFlag(f);
      QuoteFlagSteps(p1, f);
      QuoteAllSteps(p1.(flag := Some(f)), flags[1..]);
    }
  }

  lemma ProgramName()
    ensures Steps(START, "_") == Parser([], None, Some("_")) && Finish(Steps(START, "_")) == ["_"]
  {
    OneStep(START, '_');
    assert START.Append(['_']) == Parser([], None, Some("_"));
  }

  /** The parser after the program name and good flags. */
  lemma SavedSteps(flags: seq<string>)
    requires GoodFlags(flags)
    ensures var p := Steps(START, "_" + QuoteAll(flags));
            p.quote.None? && Finish(p) == ["_"] + flags
  {
    var p := Steps(START, "_");
    ProgramName();
    StepsConcat(START, "_", QuoteAll(flags));
    QuoteAllSteps(p, flags);
    AfterFlagsFinish(p, flags);
  }

  /** Saved flags are read back, whatever quotes, spaces, equals signs and inner
      backslashes they contain. */
  lemma RoundTrip(flags: seq<string>)
    requires GoodFlags(flags)
    ensures Parsed(SavedLine(flags)) == flags
  {
    SavedSteps(flags);
  }

  // ----- any command line, however it is quoted

  /** A part of a word: without quotes around it, or inside quotes of one kind. */
  datatype Piece = Bare(text: string) | Quoted(quote: char, text: string)

  /** A word of a command line, with the blanks in front of it. */
  datatype Spelling = Spelling(gap: string, pieces: seq<Piece>)

  function SpellPiece(x: Piece): string {
    match x
    case Bare(t) => Escaped(t, {'"', '\''})
    case Quoted(q, t) => [q] + Escaped(t, {q}) + [q]
  }

  predicate GoodPiece(x: Piece) {
    !EndsInBackslash(x.text) && match x case Bare(t) => NoBlanks(t) case Quoted(q, _) => q == '"' || q == '\''
  }

  function SpellPieces(xs: seq<Piece>): string {
    if xs == [] then "" else SpellPiece(xs[0]) + SpellPieces(xs[1..])
  }

  function TextOf(xs: seq<Piece>): string {
    if xs == [] then "" else xs[0].text + TextOf(xs[1..])
  }

  function SpellWord(w: Spelling): string {
    w.gap + SpellPieces(w.pieces)
  }

  function Spell(words: seq<Spelling>): string {
    if words == [] then "" else SpellWord(words[0]) + Spell(words[1..])
  }

  predicate IsGap(s: string) {
    forall k :: 0 <= k < |s| ==> IsBlank(s[k])
  }

  /** Blanks stand between the words; there need not be any before the first. */
  predicate GoodSpelling(words: seq<Spelling>) {
    forall k {:trigger words[k]} :: 0 <= k < |words| ==>
      IsGap(words[k].gap) && (k > 0 ==> words[k].gap != "") && GoodPieces(words[k].pieces)
  }

  predicate GoodPieces(xs: seq<Piece>) {
    forall k :: 0 <= k < |xs| ==> GoodPiece(xs[k])
  }

  /** The texts of the words; a word without any text is no word. */
  function Texts(words: seq<Spelling>): seq<string> {
    if words == [] then []
    else (if TextOf(words[0].pieces) == "" then [] else [TextOf(words[0].pieces)]) + Texts(words[1..])
  }

  lemma PieceSteps(p: Parser, x: Piece)
    requires p.Valid() && p.quote.None? && !p.EndsInEscape() && GoodPiece(x)
    ensures Steps(p, SpellPiece(x)) == p.Append(x.text) && !p.Append(x.text).EndsInEscape()
  {
    match x
    case Bare(t) => EscapedSteps(p, t);
    case Quoted(q, t) => QuotedSteps(p, q, t);
  }

  lemma {:induction false} PiecesSteps(p: Parser, xs: seq<Piece>)
    requires p.Valid() && p.quote.None? && !p.EndsInEscape() && GoodPieces(xs)
    ensures Steps(p, SpellPieces(xs)) == p.Append(TextOf(xs)) && !p.Append(TextOf(xs)).EndsInEscape()
    decreases |xs|
  {
    if xs != [] {
      var x, q := xs[0], p.Append(xs[0].text);
      assert GoodPiece(x);
      PieceSteps(p, x);
      StepsConcat(p, SpellPiece(x), SpellPieces(xs[1..]));
      PiecesSteps(q, xs[1..]);
      AppendAppend(p, x.text, TextOf(xs[1..]));
    }
  }

  /** Blanks end the word under way. */
  lemma {:induction false} GapSteps(p: Parser, gap: string)
    requires p.Valid() && p.quote.None? && gap != "" && IsGap(gap)
    ensures Steps(p, gap) == Between(Finish(p))
    decreases |gap|
  {
    assert IsBlank(gap[0]);
    if |gap| > 1 {
      GapSteps(Step(p, gap[0]), gap[1..]);
    }
  }

  /** The parser after a word, with gaps before all words but the first. */
  lemma WordSteps(p: Parser, w: Spelling) returns (q: Parser)
    requires p.Valid() && p.quote.None? && IsGap(w.gap) && GoodPieces(w.pieces) && (w.gap == "" ==> p.flag.None?)
    ensures q.Valid() && q.quote.None? && Steps(p, SpellWord(w)) == q
    ensures Finish(q) == Finish(p) + if TextOf(w.pieces) == "" then [] else [TextOf(w.pieces)]
  {
    var between := Between(Finish(p));
    if w.gap != "" {
      GapSteps(p, w.gap);
    } else {
      assert p == between;
    }
    StepsConcat(p, w.gap, SpellPieces(w.pieces));
    PiecesSteps(between, w.pieces);
    q := between.Append(TextOf(w.pieces));
  }

  lemma {:induction false} SpellingSteps(p: Parser, words: seq<Spelling>)
    requires p.Valid() && p.quote.None? && GoodSpelling(words) && (words != [] && words[0].gap == "" ==> p.flag.None?)
    ensures var r := Steps(p, Spell(words)); r.quote.None? && Finish(r) == Finish(p) + Texts(words)
    decreases |words|
  {
    if words != [] {
      var w, rest := words[0], words[1..];
      assert IsGap(w.gap) && GoodPieces(w.pieces);
      var q := WordSteps(p, w);
      StepsConcat(p, SpellWord(w), Spell(rest));
      GoodRest(words);
      SpellingSteps(q, rest);
      Regroup(Finish(p), if TextOf(w.pieces) == "" then [] else [TextOf(w.pieces)], Texts(rest));
    }
  }

  lemma GoodRest(words: seq<Spelling>)
    requires words != [] && GoodSpelling(words)
    ensures GoodSpelling(words[1..]) && (|words| > 1 ==> words[1..][0].gap != "")
  {
    assert forall k :: 0 <= k < |words| - 1 ==> words[1..][k] == words[k + 1];
  }

  lemma SpelledTokens(words: seq<Spelling>)
    requires GoodSpelling(words)
    ensures Steps(START, Spell(words)).quote.None? && Tokens(Spell(words)) == Texts(words)
  {
    SpellingSteps(START, words);
  }

  /** However the words of a line are put together from bare and quoted pieces, and whatever
      blanks stand between them, the flags are their texts but for the first. */
  lemma ParsedIsTexts(words: seq<Spelling>)
    requires GoodSpelling(words)
    ensures Parsed(Spell(words)) == if Texts(words) == [] then [] else Texts(words)[1..]
  {
    SpelledTokens(words);
  }

  lemma OpenQuoteTokens(flags: seq<string>, q: char, s: string)
    requires (q == '"' || q == '\'') && s != ""
    ensures Finish(Steps(Between(flags), [q] + Escaped(s, {q}))) == flags + [s]
  {
    QuotedBody(Between(flags), q, s);
  }

  /** Quotes left open take in the rest of the line. */
  lemma OpenQuoteTakesRest(words: seq<Spelling>, q: char, s: string)
    requires GoodSpelling(words) && Texts(words) != [] && (q == '"' || q == '\'') && s != ""
    ensures Parsed(Spell(words) + (" " + ([q] + Escaped(s, {q})))) == Texts(words)[1..] + [s]
  {
    var line, tail := Spell(words), [q] + Escaped(s, {q});
    SpelledTokens(words);
    StepsConcat(START, line, " " + tail);
    SpaceStep(Steps(START, line), tail);
    OpenQuoteTokens(Texts(words), q, s);
  }

  // ----- the flags that do not survive

  ghost predicate StartsWith(s: string, prefix: string) {
    |prefix| <= |s| && s[..|prefix|] == prefix
  }

  /** Whatever follows, a token under way keeps a prefix that does not end in a backslash. */
  lemma {:induction false} PrefixStays(p: Parser, n: nat, prefix: string, rest: string)
    requires p.Valid() && prefix != "" && !EndsInBackslash(prefix)
    requires (|p.flags| == n && p.flag.Some? && StartsWith(p.flag.value, prefix)) ||
             (|p.flags| > n && StartsWith(p.flags[n], prefix))
    ensures var tokens := Finish(Steps(p, rest)); |tokens| > n && StartsWith(tokens[n], prefix)
    decreases |rest|
  {
    if rest != "" {
      PrefixStays(Step(p, rest[0]), n, prefix, rest[1..]);
    }
  }

  /** The parser after the first flag that ends in a backslash, and what is still to come. */
  lemma StepsToBackslash(flags: seq<string>, i: nat)
    requires i < |flags| && GoodFlags(flags[..i]) && EndsInBackslash(flags[i])
    ensures var prefix := flags[i][..|flags[i]| - 1] + "\"";
            var p := Parser(["_"] + flags[..i], Some('"'), Some(prefix));
            p.Valid() && Steps(START, SavedLine(flags)) == Steps(p, QuoteAll(flags[i + 1..]))
  {
    var f := flags[i];
    var head, tail := "_" + QuoteAll(flags[..i]), QuoteAll(flags[i + 1..]);
    QuoteAllSplit(flags, i);
    assert SavedLine(flags) == head + (" " + (QuoteFlag(f) + tail));
    SavedSteps(flags[..i]);
    StepsConcat(START, head, " " + (QuoteFlag(f) + tail));
    SpaceStep(Steps(START, head), QuoteFlag(f) + tail);
    StepsConcat(Between(["_"] + flags[..i]), QuoteFlag(f), tail);
    QuoteFlagSteps(Between(["_"] + flags[..i]), f);
  }

  /** A flag that ends in a backslash is read back with a quote in place of it. */
  lemma BackslashIsLost(flags: seq<string>, i: nat)
    requires i < |flags| && GoodFlags(flags[..i]) && EndsInBackslash(flags[i])
    ensures |Parsed(SavedLine(flags))| > i && Parsed(SavedLine(flags))[i] != flags[i]
  {
    StepsToBackslash(flags, i);
    var prefix := flags[i][..|flags[i]| - 1] + "\"";
    var p := Parser(["_"] + flags[..i], Some('"'), Some(prefix));
    LostFrom(SavedLine(flags), p, QuoteAll(flags[i + 1..]), i, prefix, flags[i]);
  }

  /** The parser is inside the quotes of the flag, past its last character. */
  lemma LostFrom(line: string, p: Parser, rest: string, i: nat, prefix: string, flag: string)
    requires p.Valid() && Steps(START, line) == Steps(p, rest)
    requires |p.flags| == i + 1 && p.flag == Some(prefix) && !EndsInBackslash(prefix)
    requires EndsInBackslash(flag) && prefix == flag[..|flag| - 1] + "\""
    ensures |Parsed(line)| > i && Parsed(line)[i] != flag
  {
    TokenAfter(p, i + 1, prefix, rest);
    ParsedAt(line, i);
    LostAt(Tokens(line)[i + 1], flag);
  }

  /** Whatever follows, the token under way stays at its place and keeps its prefix. */
  lemma TokenAfter(p: Parser, n: nat, prefix: string, rest: string)
    requires p.Valid() && |p.flags| == n && p.flag == Some(prefix) && prefix != "" && !EndsInBackslash(prefix)
    ensures |Finish(Steps(p, rest))| > n && StartsWith(Finish(Steps(p, rest))[n], prefix)
  {
    PrefixStays(p, n, prefix, rest);
  }

  /** The program name is left out. */
  lemma ParsedAt(line: string, i: nat)
    requires |Tokens(line)| > i + 1
    ensures |Parsed(line)| > i && Parsed(line)[i] == Tokens(line)[i + 1]
  {
  }

  /** Where the backslash was there is a quote. */
  lemma LostAt(token: string, flag: string)
    requires EndsInBackslash(flag) && StartsWith(token, flag[..|flag| - 1] + "\"")
    ensures token != flag
  {
    var n := |flag| - 1;
    assert token[n] == token[..n + 1][n] == '"';
  }

  lemma {:induction false} QuoteAllSplit(flags: seq<string>, i: nat)
    requires i < |flags|
    ensures QuoteAll(flags) == QuoteAll(flags[..i]) + (" " + (QuoteFlag(flags[i]) + QuoteAll(flags[i + 1..])))
    decreases |flags|
  {
    if i > 0 {
      QuoteAllSplit(flags[1..], i - 1);
      assert flags[..i][0] == flags[0] && flags[..i][1..] == flags[1..][..i - 1] && flags[1..][i..] == flags[i + 1..];
    }
  }

  /** Exactly the lists without empty flags and without flags ending in a backslash
      survive being saved and read back. */
  lemma RoundTripIff(flags: seq<string>)
    ensures Parsed(SavedLine(flags)) == flags <==> GoodFlags(flags)
  {
    if GoodFlags(flags) {
      RoundTrip(flags);
    } else if exists k :: 0 <= k < |flags| && flags[k] == "" {
      TokensNotEmpty(START, SavedLine(flags));
    } else {
      var i := FirstBad(flags);
      BackslashIsLost(flags, i);
    }
  }

  lemma FirstBad(flags: seq<string>) returns (i: nat)
    requires !GoodFlags(flags)
    ensures i < |flags| && !GoodFlag(flags[i]) && GoodFlags(flags[..i])
  {
    i := 0;
    while GoodFlag(flags[i])
      invariant i < |flags| && GoodFlags(flags[..i])
      decreases |flags| - i
    {
      assert flags[..|flags|] == flags && GoodFlags(flags[..i + 1]);
      i := i + 1;
    }
  }
}
