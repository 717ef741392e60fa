/** The tokenizer and parser for Dune files (roster/ffi-build-attribution/attribution.js:28-57). */
module Sexp {
  import opened Prelude

  type Text = seq<int>

  const NEWLINE := 10
  const QUOTE := 0x22
  const OPEN := 0x28
  const CLOSE := 0x29
  const SEMICOLON := 0x3B
  const BACKSLASH := 0x5C

  datatype Token = Token(v: Text, line: nat)

  predicate IsParen(u: int) {
    u == OPEN || u == CLOSE
  }

  // ---------------------------------------------------------------- tokens

  function Newlines(s: Text): nat {
    if s == [] then 0 else Newlines(s[..|s| - 1]) + (if s[|s| - 1] == NEWLINE then 1 else 0)
  }

  /** Up to the end of the line, which is left in place. */
  function SkipComment(s: Text): (r: Text)
    ensures |r| <= |s|
    ensures s != [] && s[0] != NEWLINE ==> |r| < |s|
  {
    if s == [] || s[0] == NEWLINE then s else SkipComment(s[1..])
  }

  datatype Quoted = Unterminated | Quoted(value: Text, rest: Text)

  /** The inside of a string: a backslash keeps the next character, whatever it is. */
  function ReadQuoted(s: Text): (r: Quoted)
    ensures r.Quoted? ==> |r.rest| < |s|
  {
    if s == [] then Unterminated
    else if s[0] == QUOTE then Quoted([], s[1..])
    else
      var n := if s[0] == BACKSLASH && |s| > 1 then 1 else 0;
      var tail := ReadQuoted(s[n + 1..]);
      if tail.Unterminated? then Unterminated else Quoted([s[n]] + tail.value, tail.rest)
  }

  predicate InAtom(u: int) {
    !IsSpace(u) && !IsParen(u) && u != SEMICOLON
  }

  function AtomLength(s: Text): (n: nat)
    ensures n <= |s|
    ensures s != [] && InAtom(s[0]) ==> n > 0
  {
    if s != [] && InAtom(s[0]) then 1 + AtomLength(s[1..]) else 0
  }

  function Cons(t: Token, r: Option<seq<Token>>): Option<seq<Token>> {
    if r.Some? then Some([t] + r.value) else None
  }

  /** The tokens of a text that begins on the given line. */
  function Lex(s: Text, line: nat): Option<seq<Token>>
    decreases |s|
  {
    if s == [] then Some([])
    else if IsSpace(s[0]) then Lex(s[1..], if s[0] == NEWLINE then line + 1 else line)
    else if s[0] == SEMICOLON then Lex(SkipComment(s), line)
    else if IsParen(s[0]) then Cons(Token([s[0]], line), Lex(s[1..], line))
    else if s[0] == QUOTE then
      var q := ReadQuoted(s[1..]);
      if q.Unterminated? then None
      else Cons(Token(q.value, line), Lex(q.rest, line + Newlines(s[..|s| - |q.rest|])))
    else
      var n := AtomLength(s);
      Cons(Token(s[..n], line), Lex(s[n..], line))
  }

  // ---------------------------------------------------------------- the tokenizer

  lemma {:induction false} NewlinesAppend(a: Text, b: Text)
    ensures Newlines(a + b) == Newlines(a) + Newlines(b)
  {
    if b == [] {
      assert a + b == a;
    } else {
      assert (a + b)[..|a + b| - 1] == a + b[..|b| - 1];
      NewlinesAppend(a, b[..|b| - 1]);
    }
  }

  lemma NoNewlines()
    ensures Newlines([]) == 0
  {
  }

  lemma NewlinesNext(s: Text, u: int)
    ensures Newlines(s + [u]) == Newlines(s) + (if u == NEWLINE then 1 else 0)
  {
    assert (s + [u])[..|s|] == s;
  }

  function LineAt(text: Text, i: nat): nat
    requires i <= |text|
  {
    Newlines(text[..i]) + 1
  }

  lemma LineMoves(text: Text, i: nat, j: nat)
    requires i <= j <= |text|
    ensures LineAt(text, j) == LineAt(text, i) + Newlines(text[i..j])
  {
    assert text[..j] == text[..i] + text[i..j];
    NewlinesAppend(text[..i], text[i..j]);
  }

  function Prepend(ts: seq<Token>, r: Option<seq<Token>>): Option<seq<Token>> {
    if r.Some? then Some(ts + r.value) else None
  }

  lemma PrependOne(ts: seq<Token>, t: Token, r: Option<seq<Token>>)
    ensures Prepend(ts, Cons(t, r)) == Prepend(ts + [t], r)
    ensures Prepend([], r) == r
  {
    if r.Some? {
      assert ts + ([t] + r.value) == ts + [t] + r.value;
      assert [] + r.value == r.value;
    }
  }

  /** Line 32: to the end of the line. */
  method CommentEnd(text: Text, i0: nat) returns (i: nat)
    requires i0 < |text| && text[i0] == SEMICOLON
    ensures i0 < i <= |text| && text[i..] == SkipComment(text[i0..])
    ensures Newlines(text[i0..i]) == 0
  {
    hide Newlines;
    i := i0;
    assert text[i0..i0] == [];
    NoNewlines();
    while i < |text| && text[i] != NEWLINE
      invariant i0 <= i <= |text|
      invariant SkipComment(text[i..]) == SkipComment(text[i0..])
      invariant Newlines(text[i0..i]) == 0
    {
      assert text[i..][1..] == text[i + 1..];
      assert text[i0..i + 1] == text[i0..i] + [text[i]];
      NewlinesNext(text[i0..i], text[i]);
      i := i + 1;
    }
  }

  function PrependQuoted(v: Text, q: Quoted): Quoted {
    if q.Quoted? then Quoted(v + q.value, q.rest) else Unterminated
  }

  lemma QuotedStep(text: Text, i: nat, value: Text)
    requires i < |text| && text[i] != QUOTE
    ensures var n := if text[i] == BACKSLASH && i + 1 < |text| then 1 else 0;
            PrependQuoted(value, ReadQuoted(text[i..])) == PrependQuoted(value + [text[i + n]], ReadQuoted(text[i + n + 1..]))
  {
    var n := if text[i] == BACKSLASH && i + 1 < |text| then 1 else 0;
    assert text[i..][n + 1..] == text[i + n + 1..];
    var tail := ReadQuoted(text[i + n + 1..]);
    if tail.Quoted? {
      assert value + ([text[i + n]] + tail.value) == value + [text[i + n]] + tail.value;
    }
  }

  lemma QuotedStop(text: Text, i: nat, value: Text)
    requires i <= |text| && (i < |text| ==> text[i] == QUOTE)
    ensures PrependQuoted(value, ReadQuoted(text[i..])) ==
            if i < |text| then Quoted(value, text[i + 1..]) else Unterminated
    ensures forall q :: PrependQuoted([], q) == q
  {
    assert value + [] == value;
    if i < |text| {
      assert text[i..][1..] == text[i + 1..];
    }
    forall q: Quoted
      ensures PrependQuoted([], q) == q
    {
      if q.Quoted? {
        assert [] + q.value == q.value;
      }
    }
  }

  /** Lines 36-38, from behind the opening quote. */
  method StringEnd(text: Text, i0: nat) returns (value: Text, i: nat, closed: bool)
    requires i0 <= |text|
    ensures i0 <= i <= |text| && (closed ==> i0 < i)
    ensures ReadQuoted(text[i0..]) == if closed then Quoted(value, text[i..]) else Unterminated
  {
    hide ReadQuoted;
    value, i := [], i0;
    QuotedStop(text, |text|, []);
    while i < |text| && text[i] != QUOTE
      invariant i0 <= i <= |text|
      invariant ReadQuoted(text[i0..]) == PrependQuoted(value, ReadQuoted(text[i..]))
    {
      QuotedStep(text, i, value);
      var n := if text[i] == BACKSLASH && i + 1 < |text| then 1 else 0;
      value := value + [text[i + n]];
      i := i + n + 1;
    }
    QuotedStop(text, i, value);
    closed := i < |text|;
    if closed {
      i := i + 1;
    }
  }

  method AtomEnd(text: Text, i0: nat) returns (i: nat)
    requires i0 < |text| && InAtom(text[i0])
    ensures i == i0 + AtomLength(text[i0..])
    ensures i0 < i <= |text|
  {
    i := i0;
    while i < |text| && InAtom(text[i])
      invariant i0 <= i <= |text|
      invariant i - i0 + AtomLength(text[i..]) == AtomLength(text[i0..])
    {
      assert text[i..][1..] == text[i + 1..];
      i := i + 1;
    }
  }

  lemma {:induction false} AtomHasNoNewline(s: Text)
    ensures Newlines(s[..AtomLength(s)]) == 0
  {
    if s != [] && InAtom(s[0]) {
      var n := AtomLength(s[1..]);
      assert s[..n + 1] == [s[0]] + s[1..][..n];
      NewlinesAppend([s[0]], s[1..][..n]);
      AtomHasNoNewline(s[1..]);
      assert [s[0]][..0] == [];
    }
  }

  predicate StartsToken(u: int) {
    !IsSpace(u) && u != SEMICOLON
  }

  /** Lines 33-42: one token, unless it is a string without an end. */
  method ReadToken(text: Text, i: nat) returns (t: Option<Token>, j: nat)
    requires i < |text| && StartsToken(text[i])
    ensures i < j <= |text| || t.None?
    ensures Lex(text[i..], LineAt(text, i)) ==
            if t.Some? && j <= |text| then Cons(t.value, Lex(text[j..], LineAt(text, j))) else None
  {
    hide Lex;
    hide ReadQuoted;
    hide AtomLength;
    hide LineAt;
    var line := LineAt(text, i);
    if IsParen(text[i]) {
      t, j := Some(Token([text[i]], line)), i + 1;
      LexParen(text, i);
    } else if text[i] == QUOTE {
      var value, k, closed := StringEnd(text, i + 1);
      LexString(text, i, value, k, closed);
      if !closed {
        return None, i;
      }
      t, j := Some(Token(value, line)), k;
    } else {
      j := AtomEnd(text, i);
      t := Some(Token(text[i..j], line));
      LexAtom(text, i, j);
    }
  }

  lemma LexParen(text: Text, i: nat)
    requires i < |text| && IsParen(text[i])
    ensures Lex(text[i..], LineAt(text, i)) == Cons(Token([text[i]], LineAt(text, i)), Lex(text[i + 1..], LineAt(text, i + 1)))
  {
    assert text[i..][1..] == text[i + 1..];
    LineMoves(text, i, i + 1);
    assert text[i..i + 1] == [text[i]] && [text[i]][..0] == [];
  }

  lemma LexString(text: Text, i: nat, value: Text, k: nat, closed: bool)
    requires i < k <= |text| || (i < |text| && !closed)
    requires text[i] == QUOTE && ReadQuoted(text[i + 1..]) == if closed then Quoted(value, text[k..]) else Unterminated
    ensures Lex(text[i..], LineAt(text, i)) ==
            if closed then Cons(Token(value, LineAt(text, i)), Lex(text[k..], LineAt(text, k))) else None
  {
    hide ReadQuoted;
    hide Newlines;
    hide LineAt;
    var s := text[i..];
    assert s[0] == text[i] && s[1..] == text[i + 1..];
    if closed {
      LineMoves(text, i, k);
      assert |s| - |text[k..]| == k - i;
      assert s[..k - i] == text[i..k];
    }
  }

  lemma LexAtom(text: Text, i: nat, j: nat)
    requires i < |text| && InAtom(text[i]) && text[i] != QUOTE && j == i + AtomLength(text[i..]) <= |text|
    ensures Lex(text[i..], LineAt(text, i)) == Cons(Token(text[i..j], LineAt(text, i)), Lex(text[j..], LineAt(text, j)))
  {
    AtomHasNoNewline(text[i..]);
    LineMoves(text, i, j);
    hide AtomLength;
    assert text[i..][..j - i] == text[i..j] && text[i..][j - i..] == text[j..];
  }

  /** A blank or a comment at position `i` changes nothing but the line. */
  lemma SkipStep(text: Text, i: nat, j: nat)
    requires i < j <= |text|
    requires (IsSpace(text[i]) && j == i + 1)
             || (text[i] == SEMICOLON && text[j..] == SkipComment(text[i..]) && Newlines(text[i..j]) == 0)
    ensures Lex(text[i..], LineAt(text, i)) == Lex(text[j..], LineAt(text, j))
  {
    hide Newlines;
    hide LineAt;
    LineMoves(text, i, j);
    assert text[i..][0] == text[i];
    if IsSpace(text[i]) {
      assert text[i..][1..] == text[i + 1..];
      assert text[i..i + 1] == [] + [text[i]];
      NoNewlines();
      NewlinesNext([], text[i]);
    }
  }

  lemma LexEnds(text: Text)
    ensures LineAt(text, 0) == 1 && forall line :: Lex([], line) == Some([])
  {
  }

  /** `tokenize`: it throws exactly on an unterminated string. */
  method Tokenize(text: Text) returns (r: Option<seq<Token>>)
    ensures r == Lex(text, 1)
  {
    hide Lex;
    hide LineAt;
    var tokens: seq<Token> := [];
    var i := 0;
    assert text[0..] == text;
    LexEnds(text);
    PrependOne([], Token([], 0), Lex(text, 1));
    while i < |text|
      invariant 0 <= i <= |text|
      invariant Lex(text, 1) == Prepend(tokens, Lex(text[i..], LineAt(text, i)))
      decreases |text| - i
    {
      if IsSpace(text[i]) {
        SkipStep(text, i, i + 1);
        i := i + 1;
      } else if text[i] == SEMICOLON {
        var j := CommentEnd(text, i);
        SkipStep(text, i, j);
        i := j;
      } else {
        var t, j := ReadToken(text, i);
        if t.None? {
          return None;
        }
        PrependOne(tokens, t.value, Lex(text[j..], LineAt(text, j)));
        tokens := tokens + [t.value];
        i := j;
      }
    }
    assert text[i..] == [];
    assert tokens + [] == tokens;
    return Some(tokens);
  }

  // ---------------------------------------------------------------- the parser

  datatype Node = Leaf(token: Token) | List(items: seq<Node>, line: nat)

  datatype Parsed<+T> = Unclosed | Parsed(value: T, rest: seq<Token>)

  predicate IsOpen(t: Token) {
    t.v == [OPEN]
  }

  predicate IsClose(t: Token) {
    t.v == [CLOSE]
  }

  /** `one`: a leaf, or a list up to its closing parenthesis. */
  function One(ts: seq<Token>): (r: Parsed<Node>)
    requires ts != []
    ensures r.Parsed? ==> |r.rest| < |ts|
    decreases |ts|, 0
  {
    if !IsOpen(ts[0]) then Parsed(Leaf(ts[0]), ts[1..])
    else
      var items := Items(ts[1..]);
      if items.Unclosed? then Unclosed else Parsed(List(items.value, ts[0].line), items.rest)
  }

  /** The items of a list and its closing parenthesis. */
  function Items(ts: seq<Token>): (r: Parsed<seq<Node>>)
    ensures r.Parsed? ==> |r.rest| < |ts|
    decreases |ts|, 1
  {
    if ts == [] then Unclosed
    else if IsClose(ts[0]) then Parsed([], ts[1..])
    else
      var head := One(ts);
      if head.Unclosed? then Unclosed
      else
        var tail := Items(head.rest);
        if tail.Unclosed? then Unclosed else Parsed([head.value] + tail.value, tail.rest)
  }

  function Forest(ts: seq<Token>): Option<seq<Node>>
    decreases |ts|
  {
    if ts == [] then Some([])
    else
      var head := One(ts);
      if head.Unclosed? then None
      else
        var tail := Forest(head.rest);
        if tail.None? then None else Some([head.value] + tail.value)
  }

  class Parser {
    const tokens: seq<Token>
    var p: nat

    constructor (tokens: seq<Token>)
      ensures this.tokens == tokens && p == 0
    {
      this.tokens := tokens;
      p := 0;
    }

    method ReadOne() returns (r: Option<Node>)
      requires p < |tokens|
      modifies `p
      ensures match One(tokens[old(p)..])
              case Unclosed => r.None?
              case Parsed(n, rest) => r == Some(n) && old(p) < p <= |tokens| && tokens[p..] == rest
      decreases |tokens| - p
    {
      var t := tokens[p];
      assert tokens[p..][1..] == tokens[p + 1..];
      p := p + 1;
      if !IsOpen(t) {
        return Some(Leaf(t));
      }
      var items: seq<Node> := [];
      ghost var spec := Items(tokens[p..]);
      JoinNothing(spec);
      while p < |tokens| && !IsClose(tokens[p])
        invariant old(p) < p <= |tokens|
        invariant spec == Join(items, Items(tokens[p..]))
        decreases |tokens| - p
      {
        ItemsStep(tokens[p..], items);
        var n := ReadOne();
        if n.None? {
          return None;
        }
        items := items + [n.value];
      }
      if p == |tokens| {
        return None;
      }
      assert tokens[p..][1..] == tokens[p + 1..];
      assert items + [] == items;
      p := p + 1;
      return Some(List(items, t.line));
    }
  }

  function Join(items: seq<Node>, r: Parsed<seq<Node>>): Parsed<seq<Node>> {
    if r.Parsed? then Parsed(items + r.value, r.rest) else Unclosed
  }

  lemma JoinNothing(r: Parsed<seq<Node>>)
    ensures Join([], r) == r
  {
    if r.Parsed? {
      assert [] + r.value == r.value;
    }
  }

  lemma ItemsStep(ts: seq<Token>, items: seq<Node>)
    requires ts != [] && !IsClose(ts[0])
    ensures Join(items, Items(ts)) ==
            if One(ts).Unclosed? then Unclosed else Join(items + [One(ts).value], Items(One(ts).rest))
  {
    var head := One(ts);
    if head.Parsed? && Items(head.rest).Parsed? {
      var tail := Items(head.rest).value;
      assert items + ([head.value] + tail) == items + [head.value] + tail;
    }
  }

  /** `parse`. */
  method Parse(tokens: seq<Token>) returns (r: Option<seq<Node>>)
    ensures r == Forest(tokens)
  {
    var parser := new Parser(tokens);
    var all: seq<Node> := [];
    assert tokens[0..] == tokens;
    if Forest(tokens).Some? {
      assert [] + Forest(tokens).value == Forest(tokens).value;
    }
    while parser.p < |tokens|
      invariant parser.p <= |tokens| && parser.tokens == tokens
      invariant Forest(tokens) == Extend(all, Forest(tokens[parser.p..]))
      decreases |tokens| - parser.p
    {
      ForestStep(tokens[parser.p..], all);
      var n := parser.ReadOne();
      if n.None? {
        return None;
      }
      all := all + [n.value];
    }
    assert tokens[parser.p..] == [];
    assert all + [] == all;
    return Some(all);
  }

  function Extend(all: seq<Node>, r: Option<seq<Node>>): Option<seq<Node>> {
    if r.Some? then Some(all + r.value) else None
  }

  lemma ForestStep(ts: seq<Token>, all: seq<Node>)
    requires ts != []
    ensures Extend(all, Forest(ts)) == if One(ts).Unclosed? then None else Extend(all + [One(ts).value], Forest(One(ts).rest))
  {
    var head := One(ts);
    if head.Parsed? && Forest(head.rest).Some? {
      var tail := Forest(head.rest).value;
      assert all + ([head.value] + tail) == all + [head.value] + tail;
    }
  }
}
