/** Comment removal of py_vulcanize/strip_js_comments.py. */
module StripComments {
  import opened Basics

  // ----- tokens

  /** The length of the token of interest that `s` starts with, or 0. */
  function TokenLength(s: string): (n: nat)
    ensures n <= |s|
  {
    if Opens(s) || Closes(s) then 2 else if s != "" && s[0] == '\n' then 1 else 0
  }

  predicate OpensLine(s: string) {
    |s| > 1 && s[0] == '/' && s[1] == '/'
  }

  predicate OpensBlock(s: string) {
    |s| > 1 && s[0] == '/' && s[1] == '*'
  }

  predicate Opens(s: string) {
    OpensLine(s) || OpensBlock(s)
  }

  predicate Closes(s: string) {
    |s| > 1 && s[0] == '*' && s[1] == '/'
  }

  /** Where the leftmost token of interest starts, or the end of `s`. */
  function Search(s: string): (i: nat)
    ensures i <= |s|
  {
    if s == "" || TokenLength(s) > 0 then 0 else 1 + Search(s[1..])
  }

  lemma {:induction false} SearchIsLeftmost(s: string, j: nat)
    requires j <= Search(s)
    ensures j < Search(s) ==> TokenLength(s[j..]) == 0
    ensures Search(s[j..]) == Search(s) - j
    ensures Search(s) < |s| ==> TokenLength(s[Search(s)..]) > 0
  {
    if j > 0 {
      SearchIsLeftmost(s[1..], j - 1);
      assert s[1..][j - 1..] == s[j..];
      assert Search(s) < |s| ==> s[1..][Search(s[1..])..] == s[Search(s)..];
    } else {
      assert s[0..] == s;
      if Search(s) > 0 {
        SearchIsLeftmost(s[1..], 0);
        assert s[1..][Search(s[1..])..] == s[Search(s)..];
      }
    }
  }

  /** Where the leftmost token of interest ends. */
  function TokenEnd(s: string): (k: nat)
    requires Search(s) < |s|
    ensures Search(s) < k <= |s|
  {
    SearchIsLeftmost(s, Search(s));
    Search(s) + TokenLength(s[Search(s)..])
  }

  ghost function Tokens(s: string): seq<string> {
    if s == "" then []
    else if Search(s) == |s| then [s]
    else Plain(s[..Search(s)]) + ([s[Search(s)..TokenEnd(s)]] + Tokens(s[TokenEnd(s)..]))
  }

  /** The text before a token, left out when empty. */
  function Plain(s: string): seq<string> {
    if s == "" then [] else [s]
  }

  method TokenizeJS(text: string) returns (tokens: seq<string>)
    ensures tokens == Tokens(text)
  {
    tokens := [];
    var rest := text;
    while rest != ""
      invariant tokens + Tokens(rest) == Tokens(text)
      decreases |rest|
    {
      if Search(rest) == |rest| {
        return tokens + [rest];
      }
      TokensGoOn(tokens, rest);
      var i, k := Search(rest), TokenEnd(rest);
      if i > 0 {
        tokens := tokens + [rest[..i]];
      }
      tokens := tokens + [rest[i..k]];
      rest := rest[k..];
    }
  }

  lemma TokensGoOn(before: seq<string>, s: string)
    requires Search(s) < |s|
    ensures var i, k := Search(s), TokenEnd(s);
            before + Tokens(s) == (if i > 0 then before + [s[..i]] else before) + [s[i..k]] + Tokens(s[k..])
  {
    var plain, tok, more := Plain(s[..Search(s)]), [s[Search(s)..TokenEnd(s)]], Tokens(s[TokenEnd(s)..]);
    Regroup(before, plain, tok + more);
    Regroup(before + plain, tok, more);
    assert plain == [] ==> before + plain == before;
  }

  /** The text up to the leftmost token, the token and the rest. */
  lemma Parts(s: string) returns (plain: string, tok: string, rest: string)
    requires Search(s) < |s|
    ensures s == plain + (tok + rest) && |rest| < |s|
    ensures Tokens(s) == Plain(plain) + ([tok] + Tokens(rest))
  {
    plain, tok, rest := s[..Search(s)], s[Search(s)..TokenEnd(s)], s[TokenEnd(s)..];
  }

  /** Nothing is lost between the tokens. */
  lemma {:induction false} TokensConcatenate(s: string)
    ensures Flatten(Tokens(s)) == s
    decreases |s|
  {
    if s == "" {
    } else if Search(s) == |s| {
      FlattenOne(s);
    } else {
      var plain, tok, rest := Parts(s);
      TokensConcatenate(rest);
      FlattenAppend(Plain(plain), [tok] + Tokens(rest));
      FlattenCons(tok, Tokens(rest));
      FlattenPlain(plain);
    }
  }

  lemma FlattenPlain(t: string)
    ensures Flatten(Plain(t)) == t
  {
    if t != "" {
      FlattenOne(t);
    }
  }

  lemma FlattenOne(t: string)
    ensures Flatten([t]) == t
  {
    assert [t][1..] == [];
  }

  // ----- the stripper as it works on tokens

  datatype Mode = Code | Line | Block(nesting: nat)

  /** What is kept of `ts` when they are read in mode `m`. */
  ghost function Kept(ts: seq<string>, m: Mode): string {
    if ts == [] then ""
    else if m == Code then
      if ts[0] == "//" then Kept(ts[1..], Line)
      else if ts[0] == "/*" then Kept(ts[1..], Block(1))
      else ts[0] + Kept(ts[1..], Code)
    else if m == Line then
      Kept(ts[1..], if ts[0] == "\n" then Code else Line)
    else
      Kept(ts[1..], AfterInBlock(ts[0], m.nesting))
  }

  function AfterInBlock(t: string, nesting: nat): Mode {
    if t == "/*" then Block(nesting + 1)
    else if t != "*/" then Block(nesting)
    else if nesting <= 1 then Code
    else Block(nesting - 1)
  }

  method StripJSComments(text: string) returns (r: string)
    ensures r == Stripped(text)
  {
    var tokens := TokenizeJS(text);
    var resultTokens: seq<string> := [];
    var i := 0;
    while i < |tokens|
      invariant 0 <= i <= |tokens|
      invariant Flatten(resultTokens) + Kept(tokens[i..], Code) == Kept(tokens, Code)
      decreases |tokens| - i
    {
      var t := tokens[i];
      assert tokens[i..][0] == t && tokens[i..][1..] == tokens[i + 1..];
      i := i + 1;
      if t == "//" {
        i := SkipLine(tokens, i);
      } else if t == "/*" {
        i := SkipBlock(tokens, i);
      } else {
        KeepToken(resultTokens, t, Kept(tokens[i..], Code));
        resultTokens := resultTokens + [t];
      }
    }
    assert tokens[i..] == [];
    KeptIsStripped(text, Code);
    r := Flatten(resultTokens);
  }

  lemma KeepToken(kept: seq<string>, t: string, more: string)
    ensures Flatten(kept + [t]) + more == Flatten(kept) + (t + more)
  {
    FlattenAppend(kept, [t]);
    FlattenOne(t);
    Regroup(Flatten(kept), t, more);
  }

  /** The loop after a line comment has been opened. */
  method SkipLine(tokens: seq<string>, start: nat) returns (i: nat)
    requires start <= |tokens|
    ensures start <= i <= |tokens| && Kept(tokens[i..], Code) == Kept(tokens[start..], Line)
  {
    i := start;
    while i < |tokens|
      invariant start <= i <= |tokens|
      invariant Kept(tokens[i..], Line) == Kept(tokens[start..], Line)
    {
      var t2 := tokens[i];
      assert tokens[i..][0] == t2 && tokens[i..][1..] == tokens[i + 1..];
      i := i + 1;
      if t2 == "\n" {
        return;
      }
    }
    assert tokens[i..] == [];
  }

  /** The loop after a block comment has been opened. */
  method SkipBlock(tokens: seq<string>, start: nat) returns (i: nat)
    requires start <= |tokens|
    ensures start <= i <= |tokens| && Kept(tokens[i..], Code) == Kept(tokens[start..], Block(1))
  {
    i := start;
    var nesting := 1;
    while i < |tokens|
      invariant start <= i <= |tokens| && nesting > 0
      invariant Kept(tokens[i..], Block(nesting)) == Kept(tokens[start..], Block(1))
    {
      var t2 := tokens[i];
      assert tokens[i..][0] == t2 && tokens[i..][1..] == tokens[i + 1..];
      i := i + 1;
      if t2 == "/*" {
        nesting := nesting + 1;
      } else if t2 == "*/" {
        nesting := nesting - 1;
        if nesting == 0 {
          return;
        }
      }
    }
    assert tokens[i..] == [];
  }

  // ----- the stripper as one pass over the characters

  /** What a reader with a mode and a nesting counter keeps of `s`. */
  ghost function Pass(s: string, m: Mode): string {
    if s == "" then ""
    else if m == Code then
      if OpensLine(s) then Pass(s[2..], Line)
      else if OpensBlock(s) then Pass(s[2..], Block(1))
      else if Closes(s) then s[..2] + Pass(s[2..], Code)
      else s[..1] + Pass(s[1..], Code)
    else if m == Line then
      Pass(s[1..], if s[0] == '\n' then Code else Line)
    else if OpensBlock(s) then Pass(s[2..], Block(m.nesting + 1))
    else if Closes(s) then Pass(s[2..], if m.nesting <= 1 then Code else Block(m.nesting - 1))
    else if OpensLine(s) then Pass(s[2..], m)
    else Pass(s[1..], m)
  }

  ghost function Stripped(s: string): string {
    Pass(s, Code)
  }

  lemma PassStep(s: string, m: Mode)
    requires s != "" && TokenLength(s) == 0
    ensures Pass(s, m) == (if m == Code then s[..1] else "") + Pass(s[1..], m)
  {
  }

  /** Text without tokens is kept outside comments and dropped inside. */
  lemma {:induction false} PassPlain(s: string, i: nat, m: Mode)
    requires i <= Search(s)
    ensures Pass(s, m) == (if m == Code then s[..i] else "") + Pass(s[i..], m)
    decreases i
  {
    if i == 0 {
      assert s[0..] == s;
    } else {
      PassStep(s, m);
      PassPlain(s[1..], i - 1, m);
      assert s[1..][i - 1..] == s[i..];
      if m == Code {
        Regroup(s[..1], s[1..][..i - 1], Pass(s[i..], m));
        assert s[..1] + s[1..][..i - 1] == s[..i];
      }
    }
  }

  ghost predicate SameKept(s: string, ts: seq<string>) {
    forall m :: Pass(s, m) == Kept(ts, m)
  }

  /** A token is handled as a whole. */
  lemma PassToken(s: string, m: Mode, ts: seq<string>)
    requires TokenLength(s) > 0 && SameKept(s[TokenLength(s)..], ts)
    ensures Pass(s, m) == Kept([s[..TokenLength(s)]] + ts, m)
  {
    assert ([s[..TokenLength(s)]] + ts)[1..] == ts;
    if TokenLength(s) == 1 {
      assert s[..1] == "\n";
    } else if m == Line {
      LineSkipsTwo(s);
    } else {
      assert s[..2] == [s[0], s[1]];
    }
  }

  /** So is the leftmost token of a text. */
  lemma PassFound(s: string, m: Mode, ts: seq<string>)
    requires Search(s) < |s| && SameKept(s[TokenEnd(s)..], ts)
    ensures Pass(s[Search(s)..], m) == Kept([s[Search(s)..TokenEnd(s)]] + ts, m)
  {
    var i, k := Search(s), TokenEnd(s);
    SearchIsLeftmost(s, i);
    assert s[i..][..k - i] == s[i..k] && s[i..][k - i..] == s[k..];
    PassToken(s[i..], m, ts);
  }

  lemma LineSkipsTwo(s: string)
    requires TokenLength(s) == 2
    ensures Pass(s, Line) == Pass(s[2..], Line)
  {
    assert s[1..][1..] == s[2..];
  }

  /** Working on tokens and reading characters keep the same text. */
  lemma {:induction false} KeptIsStripped(s: string, m: Mode)
    ensures Kept(Tokens(s), m) == Pass(s, m)
    decreases |s|
  {
    if s != "" {
      var i := Search(s);
      PassPlain(s, i, m);
      if i == |s| {
        KeptPlain(s, i, [], m);
      } else {
        var k := TokenEnd(s);
        forall m' ensures Pass(s[k..], m') == Kept(Tokens(s[k..]), m') {
          KeptIsStripped(s[k..], m');
        }
        PassFound(s, m, Tokens(s[k..]));
        KeptPlain(s, i, [s[i..k]] + Tokens(s[k..]), m);
      }
    }
  }

  lemma KeptPlain(s: string, i: nat, ts: seq<string>, m: Mode)
    requires i == Search(s)
    ensures Kept(Plain(s[..i]) + ts, m) == (if m == Code then s[..i] else "") + Kept(ts, m)
  {
    if i > 0 {
      NoTokenInside(s);
      assert ([s[..i]] + ts)[1..] == ts;
    } else {
      assert [] + ts == ts;
    }
  }

  /** Plain text is none of the tokens. */
  lemma NoTokenInside(s: string)
    requires Search(s) > 0
    ensures var p := s[..Search(s)]; p != "//" && p != "/*" && p != "*/" && p != "\n"
  {
    SearchIsLeftmost(s, 0);
  }

  // ----- what is left

  /** Reading `s` as code meets no comment. */
  ghost predicate CommentFree(s: string) {
    s == "" || (!Opens(s) && if Closes(s) then CommentFree(s[2..]) else CommentFree(s[1..]))
  }

  lemma {:induction false} PassShrinks(s: string, m: Mode)
    ensures |Pass(s, m)| <= |s|
    decreases |s|
  {
    if s != "" {
      PassShrinks(s[1..], m);
      PassShrinks(s[1..], Code);
      if |s| > 1 {
        PassShrinks(s[2..], m);
        PassShrinks(s[2..], Code);
        PassShrinks(s[2..], Line);
        PassShrinks(s[2..], Block(1));
        if m.Block? {
          PassShrinks(s[2..], Block(m.nesting + 1));
          if m.nesting > 1 {
            PassShrinks(s[2..], Block(m.nesting - 1));
          }
        }
      }
    }
  }

  /** Stripping changes a text if and only if reading it meets a comment. */
  lemma {:induction false} UnchangedIff(s: string)
    ensures Stripped(s) == s <==> CommentFree(s)
    decreases |s|
  {
    if s != "" {
      if Opens(s) {
        PassShrinks(s[2..], Line);
        PassShrinks(s[2..], Block(1));
      } else {
        var k := if Closes(s) then 2 else 1;
        UnchangedIff(s[k..]);
        assert s == s[..k] + s[k..];
        assert Stripped(s)[..k] == s[..k] && Stripped(s)[k..] == Stripped(s[k..]);
      }
    }
  }

  /** Only a slash can open a comment, so any other character read as code stays. */
  lemma FirstStays(s: string)
    requires s != "" && s[0] != '/'
    ensures Stripped(s) != "" && Stripped(s)[0] == s[0]
  {
  }

  /** What is left holds no comment: removing one joins no new token. */
  lemma {:induction false} StrippedIsCommentFree(s: string)
    ensures CommentFree(Stripped(s))
    ensures forall m :: CommentFree(Pass(s, m))
    decreases |s|
  {
    forall m ensures CommentFree(Pass(s, m)) {
      if s != "" {
        StrippedIsCommentFree(s[1..]);
        if |s| > 1 {
          StrippedIsCommentFree(s[2..]);
        }
        if m == Code && !Opens(s) {
          KeptIsCommentFree(s);
        }
      }
    }
  }

  lemma KeptIsCommentFree(s: string)
    requires s != "" && !Opens(s)
    requires CommentFree(Stripped(s[1..])) && (Closes(s) ==> CommentFree(Stripped(s[2..])))
    ensures CommentFree(Stripped(s))
  {
    var r := Stripped(s);
    if Closes(s) {
      assert r[2..] == Stripped(s[2..]);
    } else {
      assert r[1..] == Stripped(s[1..]);
      if s[0] in "/*" && |s| > 1 && s[1] != '/' {
        FirstStays(s[1..]);
      }
    }
  }

  /** Stripping twice is stripping once. */
  lemma StrippingIsIdempotent(s: string)
    ensures Stripped(Stripped(s)) == Stripped(s)
  {
    StrippedIsCommentFree(s);
    UnchangedIff(Stripped(s));
  }

  // ----- comments nest

  /** The inside of a block comment: words, and block comments among them. */
  datatype Body = Empty | Word(text: string, rest: Body) | Nested(inner: Body, rest: Body)

  function Written(b: Body): string {
    match b
    case Empty => ""
    case Word(text, rest) => text + Written(rest)
    case Nested(inner, rest) => "/*" + (Written(inner) + ("*/" + Written(rest)))
  }

  /** Words hold no character of a comment token. */
  predicate Wordy(b: Body) {
    match b
    case Empty => true
    case Word(text, rest) => (forall c <- text :: c != '/' && c != '*') && Wordy(rest)
    case Nested(inner, rest) => Wordy(inner) && Wordy(rest)
  }

  lemma {:induction false} BodyIsDropped(b: Body, n: nat, after: string)
    requires n > 0 && Wordy(b)
    ensures Pass(Written(b) + after, Block(n)) == Pass(after, Block(n))
  {
    match b
    case Empty =>
      assert "" + after == after;
    case Word(text, rest) =>
      BodyIsDropped(rest, n, after);
      WordIsDropped(text, n, Written(rest) + after);
      assert text + Written(rest) + after == text + (Written(rest) + after);
    case Nested(inner, rest) =>
      var tail := "*/" + (Written(rest) + after);
      var s := Written(b) + after;
      assert s == "/*" + (Written(inner) + tail);
      assert OpensBlock(s) && s[2..] == Written(inner) + tail;
      BodyIsDropped(inner, n + 1, tail);
      assert Closes(tail) && tail[2..] == Written(rest) + after;
      BodyIsDropped(rest, n, after);
  }

  lemma {:induction false} WordIsDropped(text: string, n: nat, after: string)
    requires n > 0 && forall c <- text :: c != '/' && c != '*'
    ensures Pass(text + after, Block(n)) == Pass(after, Block(n))
  {
    if text == "" {
      assert "" + after == after;
    } else {
      var s := text + after;
      assert s[0] == text[0] && text[0] in text && s[1..] == text[1..] + after;
      forall c | c in text[1..] ensures c in text {
      }
      WordIsDropped(text[1..], n, after);
    }
  }

  /** A block comment ends where its own nesting closes, however deep the comments inside. */
  lemma NestedCommentVanishes(b: Body, after: string)
    requires Wordy(b)
    ensures Stripped("/*" + (Written(b) + ("*/" + after))) == Stripped(after)
  {
    var tail := "*/" + after;
    var s := "/*" + (Written(b) + tail);
    assert OpensBlock(s) && s[2..] == Written(b) + tail;
    BodyIsDropped(b, 1, tail);
    assert Closes(tail) && tail[2..] == after;
  }

  /** A line comment vanishes with the end of its line, whatever it holds. */
  lemma LineCommentVanishes(text: string, after: string)
    requires '\n' !in text
    ensures Stripped("//" + (text + ("\n" + after))) == Stripped(after)
  {
    var s := "//" + (text + ("\n" + after));
    assert OpensLine(s) && s[2..] == text + ("\n" + after);
    LineIsDropped(text, after);
  }

  lemma {:induction false} LineIsDropped(text: string, after: string)
    requires '\n' !in text
    ensures Pass(text + ("\n" + after), Line) == Pass(after, Code)
  {
    if text == "" {
      assert text + ("\n" + after) == "\n" + after && ("\n" + after)[1..] == after;
    } else {
      FirstOfSum(text, "\n" + after);
      assert text[0] in text && forall c :: c in text[1..] ==> c in text;
      LineIsDropped(text[1..], after);
    }
  }
}
