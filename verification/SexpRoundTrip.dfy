/** Printing, tokenizing and parsing of s-expressions: what each undoes of the other. */
module SexpRoundTrip {
  import opened Prelude
  import opened Sexp

  // ---------------------------------------------------------------- tokens of a forest

  /** The tokens of a node, followed by `rest`; a closing parenthesis is given its list's line. */
  function Flatten(n: Node, rest: seq<Token>): seq<Token>
    decreases n
  {
    match n
    case Leaf(t) => [t] + rest
    case List(items, line) => [Token([OPEN], line)] + FlattenAll(items, [Token([CLOSE], line)] + rest)
  }

  function FlattenAll(ns: seq<Node>, rest: seq<Token>): seq<Token>
    decreases ns
  {
    if ns == [] then rest else Flatten(ns[0], FlattenAll(ns[1..], rest))
  }

  /** The same tokens on the same lines, but for the lines of closing parentheses. */
  ghost predicate SameTokens(a: seq<Token>, b: seq<Token>) {
    |a| == |b| && forall i :: 0 <= i < |a| ==> a[i].v == b[i].v && (IsClose(a[i]) || a[i] == b[i])
  }

  lemma SameHead(t: Token, a: seq<Token>, b: seq<Token>)
    requires b != [] && SameTokens(a, b[1..]) && t.v == b[0].v && (IsClose(t) || t == b[0])
    ensures SameTokens([t] + a, b)
  {
  }

  lemma SameTransitive(a: seq<Token>, b: seq<Token>, c: seq<Token>)
    requires SameTokens(a, b) && SameTokens(b, c)
    ensures SameTokens(a, c)
  {
  }

  lemma {:induction false} FlattenRespects(n: Node, a: seq<Token>, b: seq<Token>)
    requires SameTokens(a, b)
    ensures SameTokens(Flatten(n, a), Flatten(n, b))
    decreases n
  {
    if n.List? {
      FlattenAllRespects(n.items, [Token([CLOSE], n.line)] + a, [Token([CLOSE], n.line)] + b);
    }
  }

  lemma {:induction false} FlattenAllRespects(ns: seq<Node>, a: seq<Token>, b: seq<Token>)
    requires SameTokens(a, b)
    ensures SameTokens(FlattenAll(ns, a), FlattenAll(ns, b))
    decreases ns
  {
    if ns != [] {
      FlattenAllRespects(ns[1..], a, b);
      FlattenRespects(ns[0], FlattenAll(ns[1..], a), FlattenAll(ns[1..], b));
    }
  }

  // ---------------------------------------------------------------- parsing loses nothing

  lemma {:induction false} OneFlattens(ts: seq<Token>)
    requires ts != [] && One(ts).Parsed?
    ensures SameTokens(Flatten(One(ts).value, One(ts).rest), ts)
    decreases |ts|, 0
  {
    if IsOpen(ts[0]) {
      var items := Items(ts[1..]);
      var line := ts[0].line;
      ItemsFlatten(ts[1..], line);
      SameHead(Token([OPEN], line), FlattenAll(items.value, [Token([CLOSE], line)] + items.rest), ts);
    } else {
      SameHead(ts[0], ts[1..], ts);
    }
  }

  lemma {:induction false} ItemsFlatten(ts: seq<Token>, line: nat)
    requires Items(ts).Parsed?
    ensures SameTokens(FlattenAll(Items(ts).value, [Token([CLOSE], line)] + Items(ts).rest), ts)
    decreases |ts|, 1
  {
    var close := [Token([CLOSE], line)] + Items(ts).rest;
    if IsClose(ts[0]) {
      SameHead(Token([CLOSE], line), ts[1..], ts);
    } else {
      var head := One(ts);
      var tail := Items(head.rest);
      OneFlattens(ts);
      ItemsFlatten(head.rest, line);
      assert ([head.value] + tail.value)[1..] == tail.value;
      FlattenRespects(head.value, FlattenAll(tail.value, close), head.rest);
      SameTransitive(FlattenAll(Items(ts).value, close), Flatten(head.value, head.rest), ts);
    }
  }

  /** Flattening a parsed forest gives the tokens back. */
  lemma {:induction false} ForestFlattens(ts: seq<Token>)
    requires Forest(ts).Some?
    ensures SameTokens(FlattenAll(Forest(ts).value, []), ts)
    decreases |ts|
  {
    if ts != [] {
      var head := One(ts);
      var tail := Forest(head.rest);
      OneFlattens(ts);
      ForestFlattens(head.rest);
      assert ([head.value] + tail.value)[1..] == tail.value;
      FlattenRespects(head.value, FlattenAll(tail.value, []), head.rest);
      SameTransitive(FlattenAll(Forest(ts).value, []), Flatten(head.value, head.rest), ts);
    }
  }

  // ---------------------------------------------------------------- when parsing succeeds

  /** Lists still open after the tokens, `d` of them before; a stray `)` opens and closes
      nothing. */
  function Depth(ts: seq<Token>, d: nat): nat {
    if ts == [] then d
    else if IsOpen(ts[0]) then Depth(ts[1..], d + 1)
    else if IsClose(ts[0]) then Depth(ts[1..], if d == 0 then 0 else d - 1)
    else Depth(ts[1..], d)
  }

  lemma {:induction false} OneDepth(ts: seq<Token>, d: nat)
    requires ts != [] && (IsClose(ts[0]) ==> d == 0)
    ensures One(ts).Parsed? ==> Depth(ts, d) == Depth(One(ts).rest, d)
    ensures One(ts).Unclosed? ==> Depth(ts, d) > d
    decreases |ts|, 0
  {
    if IsOpen(ts[0]) {
      ItemsDepth(ts[1..], d);
    }
  }

  lemma {:induction false} ItemsDepth(ts: seq<Token>, d: nat)
    ensures Items(ts).Parsed? ==> Depth(ts, d + 1) == Depth(Items(ts).rest, d)
    ensures Items(ts).Unclosed? ==> Depth(ts, d + 1) > d
    decreases |ts|, 1
  {
    if ts != [] && !IsClose(ts[0]) {
      OneDepth(ts, d + 1);
      var head := One(ts);
      if head.Parsed? {
        ItemsDepth(head.rest, d);
      }
    }
  }

  /** Parsing succeeds exactly when no opened list stays unclosed. */
  lemma {:induction false} ForestIffClosed(ts: seq<Token>)
    ensures Forest(ts).Some? <==> Depth(ts, 0) == 0
    decreases |ts|
  {
    if ts != [] {
      OneDepth(ts, 0);
      var head := One(ts);
      if head.Parsed? {
        ForestIffClosed(head.rest);
      }
    }
  }

  // ---------------------------------------------------------------- parsing undoes flattening

  /** No atom reads as an opening parenthesis, and none inside a list as a closing one. */
  predicate Clean(n: Node, inside: bool)
    decreases n
  {
    match n
    case Leaf(t) => !IsOpen(t) && !(inside && IsClose(t))
    case List(items, _) => CleanAll(items, true)
  }

  predicate CleanAll(ns: seq<Node>, inside: bool)
    decreases ns
  {
    ns == [] || (Clean(ns[0], inside) && CleanAll(ns[1..], inside))
  }

  lemma {:induction false} OneUndoes(n: Node, inside: bool, rest: seq<Token>)
    requires Clean(n, inside)
    ensures var ts := Flatten(n, rest); ts != [] && One(ts) == Parsed(n, rest) && (inside ==> !IsClose(ts[0]))
    decreases n
  {
    if n.List? {
      var tail := FlattenAll(n.items, [Token([CLOSE], n.line)] + rest);
      ItemsUndo(n.items, n.line, rest);
      assert ([Token([OPEN], n.line)] + tail)[1..] == tail;
    } else {
      assert ([n.token] + rest)[1..] == rest;
    }
  }

  lemma {:induction false} ItemsUndo(ns: seq<Node>, line: nat, rest: seq<Token>)
    requires CleanAll(ns, true)
    ensures Items(FlattenAll(ns, [Token([CLOSE], line)] + rest)) == Parsed(ns, rest)
    decreases ns
  {
    var close := [Token([CLOSE], line)] + rest;
    if ns == [] {
      assert close[1..] == rest;
    } else {
      OneUndoes(ns[0], true, FlattenAll(ns[1..], close));
      ItemsUndo(ns[1..], line, rest);
      assert ns == [ns[0]] + ns[1..];
    }
  }

  lemma {:induction false} ForestUndoes(ns: seq<Node>)
    requires CleanAll(ns, false)
    ensures Forest(FlattenAll(ns, [])) == Some(ns)
    decreases ns
  {
    if ns != [] {
      OneUndoes(ns[0], false, FlattenAll(ns[1..], []));
      ForestUndoes(ns[1..]);
      assert ns == [ns[0]] + ns[1..];
    }
  }

  lemma {:induction false} OneIsClean(ts: seq<Token>)
    requires ts != [] && One(ts).Parsed?
    ensures Clean(One(ts).value, !IsClose(ts[0]))
    decreases |ts|, 0
  {
    if IsOpen(ts[0]) {
      ItemsAreClean(ts[1..]);
    }
  }

  lemma {:induction false} ItemsAreClean(ts: seq<Token>)
    requires Items(ts).Parsed?
    ensures CleanAll(Items(ts).value, true)
    decreases |ts|, 1
  {
    if !IsClose(ts[0]) {
      var head := One(ts);
      OneIsClean(ts);
      ItemsAreClean(head.rest);
      assert ([head.value] + Items(head.rest).value)[1..] == Items(head.rest).value;
    }
  }

  lemma CleanOutside(n: Node, inside: bool)
    requires Clean(n, inside)
    ensures Clean(n, false)
  {
  }

  lemma {:induction false} ForestIsClean(ts: seq<Token>)
    requires Forest(ts).Some?
    ensures CleanAll(Forest(ts).value, false)
    decreases |ts|
  {
    if ts != [] {
      var head := One(ts);
      OneIsClean(ts);
      CleanOutside(head.value, !IsClose(ts[0]));
      ForestIsClean(head.rest);
      assert ([head.value] + Forest(head.rest).value)[1..] == Forest(head.rest).value;
    }
  }

  // ---------------------------------------------------------------- lines do not matter

  function EraseToken(t: Token): Token {
    Token(t.v, 0)
  }

  function EraseTokens(ts: seq<Token>): seq<Token> {
    Map(EraseToken, ts)
  }

  function Erase(n: Node): Node
    decreases n
  {
    match n
    case Leaf(t) => Leaf(EraseToken(t))
    case List(items, _) => List(EraseAll(items), 0)
  }

  function EraseAll(ns: seq<Node>): seq<Node>
    decreases ns
  {
    if ns == [] then [] else [Erase(ns[0])] + EraseAll(ns[1..])
  }

  lemma EraseTail(ts: seq<Token>)
    requires ts != []
    ensures EraseTokens(ts) != [] && EraseTokens(ts)[0] == EraseToken(ts[0]) && EraseTokens(ts)[1..] == EraseTokens(ts[1..])
  {
  }

  lemma EraseCons(n: Node, ns: seq<Node>)
    ensures EraseAll([n] + ns) == [Erase(n)] + EraseAll(ns)
  {
    assert ([n] + ns)[1..] == ns;
  }

  lemma {:induction false} OneErases(ts: seq<Token>)
    requires ts != []
    ensures EraseTokens(ts) != []
    ensures One(EraseTokens(ts)) ==
            if One(ts).Unclosed? then Unclosed else Parsed(Erase(One(ts).value), EraseTokens(One(ts).rest))
    decreases |ts|, 0
  {
    EraseTail(ts);
    if IsOpen(ts[0]) {
      ItemsErase(ts[1..]);
    }
  }

  lemma {:induction false} ItemsErase(ts: seq<Token>)
    ensures Items(EraseTokens(ts)) ==
            if Items(ts).Unclosed? then Unclosed else Parsed(EraseAll(Items(ts).value), EraseTokens(Items(ts).rest))
    decreases |ts|, 1
  {
    if ts != [] {
      EraseTail(ts);
      if !IsClose(ts[0]) {
        OneErases(ts);
        var head := One(ts);
        if head.Parsed? {
          ItemsErase(head.rest);
          if Items(head.rest).Parsed? {
            EraseCons(head.value, Items(head.rest).value);
          }
        }
      }
    }
  }

  lemma {:induction false} ForestErases(ts: seq<Token>)
    ensures Forest(EraseTokens(ts)) == if Forest(ts).None? then None else Some(EraseAll(Forest(ts).value))
    decreases |ts|
  {
    if ts != [] {
      OneErases(ts);
      var head := One(ts);
      if head.Parsed? {
        ForestErases(head.rest);
        if Forest(head.rest).Some? {
          EraseCons(head.value, Forest(head.rest).value);
        }
      }
    }
  }

  lemma {:induction false} FlattenErases(n: Node, rest: seq<Token>)
    ensures EraseTokens(Flatten(n, rest)) == Flatten(Erase(n), EraseTokens(rest))
    decreases n
  {
    if n.List? {
      var close := [Token([CLOSE], n.line)] + rest;
      FlattenAllErases(n.items, close);
      MapCons(EraseToken, Token([CLOSE], n.line), rest);
      MapCons(EraseToken, Token([OPEN], n.line), FlattenAll(n.items, close));
    } else {
      MapCons(EraseToken, n.token, rest);
    }
  }

  lemma {:induction false} FlattenAllErases(ns: seq<Node>, rest: seq<Token>)
    ensures EraseTokens(FlattenAll(ns, rest)) == FlattenAll(EraseAll(ns), EraseTokens(rest))
    decreases ns
  {
    if ns != [] {
      FlattenAllErases(ns[1..], rest);
      FlattenErases(ns[0], FlattenAll(ns[1..], rest));
      assert ([Erase(ns[0])] + EraseAll(ns[1..]))[1..] == EraseAll(ns[1..]);
    }
  }

  lemma {:induction false} CleanErases(n: Node, inside: bool)
    ensures Clean(n, inside) <==> Clean(Erase(n), inside)
    decreases n
  {
    if n.List? {
      CleanAllErases(n.items, true);
    }
  }

  lemma {:induction false} CleanAllErases(ns: seq<Node>, inside: bool)
    ensures CleanAll(ns, inside) <==> CleanAll(EraseAll(ns), inside)
    decreases ns
  {
    if ns != [] {
      CleanErases(ns[0], inside);
      CleanAllErases(ns[1..], inside);
      assert ([Erase(ns[0])] + EraseAll(ns[1..]))[1..] == EraseAll(ns[1..]);
    }
  }

  // ---------------------------------------------------------------- layouts

  datatype Blank = Space(u: int) | Comment(body: Text)

  datatype Char = Plain(u: int) | Escaped(u: int)

  datatype Lexeme = Paren(u: int) | Bare(text: Text) | Str(chars: seq<Char>)

  /** A lexeme with the blanks and comments before it. */
  datatype Piece = Piece(gap: seq<Blank>, lexeme: Lexeme)

  function PrintGap(gap: seq<Blank>, rest: Text): Text {
    if gap == [] then rest
    else
      var tail := PrintGap(gap[1..], rest);
      match gap[0]
      case Space(u) => [u] + tail
      case Comment(body) => [SEMICOLON] + (body + ([NEWLINE] + tail))
  }

  function PrintChars(cs: seq<Char>, rest: Text): Text {
    if cs == [] then [QUOTE] + rest
    else if cs[0].Plain? then [cs[0].u] + PrintChars(cs[1..], rest)
    else [BACKSLASH, cs[0].u] + PrintChars(cs[1..], rest)
  }

  function PrintLexeme(l: Lexeme, rest: Text): Text {
    match l
    case Paren(u) => [u] + rest
    case Bare(text) => text + rest
    case Str(chars) => [QUOTE] + PrintChars(chars, rest)
  }

  function PrintPieces(ps: seq<Piece>, rest: Text): Text {
    if ps == [] then rest else PrintGap(ps[0].gap, PrintLexeme(ps[0].lexeme, PrintPieces(ps[1..], rest)))
  }

  /** What may follow the last lexeme: blanks, and a comment that needs no line end. */
  datatype Ending = Ending(gap: seq<Blank>, comment: Option<Text>)

  function PrintEnding(e: Ending): Text {
    PrintGap(e.gap, if e.comment.Some? then [SEMICOLON] + e.comment.value else [])
  }

  predicate WfBlank(b: Blank) {
    match b
    case Space(u) => IsSpace(u)
    case Comment(body) => NEWLINE !in body
  }

  predicate WfGap(gap: seq<Blank>) {
    forall i :: 0 <= i < |gap| ==> WfBlank(gap[i])
  }

  predicate WfLexeme(l: Lexeme) {
    match l
    case Paren(u) => IsParen(u)
    case Bare(text) => text != [] && text[0] != QUOTE && forall i :: 0 <= i < |text| ==> InAtom(text[i])
    case Str(chars) => forall i :: 0 <= i < |chars| ==> chars[i].Escaped? || (chars[i].u != QUOTE && chars[i].u != BACKSLASH)
  }

  /** A bare atom is followed by a blank, a parenthesis or the end. */
  predicate WfPieces(ps: seq<Piece>) {
    forall i :: 0 <= i < |ps| ==>
      && WfGap(ps[i].gap) && WfLexeme(ps[i].lexeme)
      && (ps[i].lexeme.Bare? && i + 1 < |ps| ==> ps[i + 1].gap != [] || ps[i + 1].lexeme.Paren?)
  }

  predicate WfEnding(e: Ending) {
    WfGap(e.gap) && (e.comment.Some? ==> NEWLINE !in e.comment.value)
  }

  function LexemeValue(l: Lexeme): Text {
    match l
    case Paren(u) => [u]
    case Bare(text) => text
    case Str(chars) => Map((c: Char) => c.u, chars)
  }

  function PieceValues(ps: seq<Piece>): seq<Text> {
    Map((p: Piece) => LexemeValue(p.lexeme), ps)
  }

  function TokenValues(ts: seq<Token>): seq<Text> {
    Map((t: Token) => t.v, ts)
  }

  // ---------------------------------------------------------------- lexing a layout

  lemma {:induction false} CommentSkipped(body: Text, rest: Text)
    requires NEWLINE !in body && (rest == [] || rest[0] == NEWLINE)
    ensures SkipComment(body + rest) == rest
  {
    if body == [] {
      assert body + rest == rest;
    } else {
      assert (body + rest)[1..] == body[1..] + rest;
      assert body[0] in body;
      CommentSkipped(body[1..], rest);
    }
  }

  lemma {:induction false} GapLexes(gap: seq<Blank>, rest: Text, line: nat) returns (line': nat)
    requires WfGap(gap)
    ensures Lex(PrintGap(gap, rest), line) == Lex(rest, line')
  {
    if gap == [] {
      line' := line;
    } else {
      var tail := PrintGap(gap[1..], rest);
      match gap[0] {
        case Space(u) =>
          assert ([u] + tail)[1..] == tail;
          line' := GapLexes(gap[1..], rest, if u == NEWLINE then line + 1 else line);
        case Comment(body) =>
          CommentLexes(body, tail, line);
          line' := GapLexes(gap[1..], rest, line + 1);
      }
    }
  }

  lemma CommentLexes(body: Text, tail: Text, line: nat)
    requires NEWLINE !in body
    ensures Lex([SEMICOLON] + (body + ([NEWLINE] + tail)), line) == Lex(tail, line + 1)
  {
    var s := [SEMICOLON] + (body + ([NEWLINE] + tail));
    assert s == ([SEMICOLON] + body) + ([NEWLINE] + tail);
    CommentSkipped([SEMICOLON] + body, [NEWLINE] + tail);
    assert ([NEWLINE] + tail)[1..] == tail;
  }

  lemma {:induction false} CharsRead(cs: seq<Char>, rest: Text)
    requires WfLexeme(Str(cs))
    ensures ReadQuoted(PrintChars(cs, rest)) == Quoted(Map((c: Char) => c.u, cs), rest)
  {
    if cs == [] {
      assert ([QUOTE] + rest)[1..] == rest;
    } else {
      CharsRead(cs[1..], rest);
      var tail := PrintChars(cs[1..], rest);
      assert Map((c: Char) => c.u, cs) == [cs[0].u] + Map((c: Char) => c.u, cs[1..]);
      if cs[0].Plain? {
        assert ([cs[0].u] + tail)[1..] == tail;
      } else {
        assert ([BACKSLASH, cs[0].u] + tail)[2..] == tail;
      }
    }
  }

  lemma {:induction false} AtomReads(text: Text, rest: Text)
    requires (forall i :: 0 <= i < |text| ==> InAtom(text[i])) && (rest == [] || !InAtom(rest[0]))
    ensures AtomLength(text + rest) == |text|
  {
    if text == [] {
      assert text + rest == rest;
    } else {
      assert (text + rest)[1..] == text[1..] + rest;
      AtomReads(text[1..], rest);
    }
  }

  lemma LexemeLexes(l: Lexeme, rest: Text, line: nat) returns (line': nat)
    requires WfLexeme(l) && (l.Bare? ==> rest == [] || !InAtom(rest[0]))
    ensures Lex(PrintLexeme(l, rest), line) == Cons(Token(LexemeValue(l), line), Lex(rest, line'))
  {
    match l {
      case Paren(u) =>
        ParenLexes(u, rest, line);
        line' := line;
      case Bare(text) =>
        AtomReads(text, rest);
        BareLexes(text, rest, line);
        line' := line;
      case Str(chars) =>
        CharsRead(chars, rest);
        line' := QuotedLexes(PrintChars(chars, rest), LexemeValue(l), rest, line);
    }
  }

  lemma ParenLexes(u: int, rest: Text, line: nat)
    requires IsParen(u)
    ensures Lex([u] + rest, line) == Cons(Token([u], line), Lex(rest, line))
  {
    assert ([u] + rest)[1..] == rest;
  }

  lemma BareLexes(text: Text, rest: Text, line: nat)
    requires text != [] && InAtom(text[0]) && text[0] != QUOTE && AtomLength(text + rest) == |text|
    ensures Lex(text + rest, line) == Cons(Token(text, line), Lex(rest, line))
  {
    var s := text + rest;
    assert s[0] == text[0] && s[..|text|] == text && s[|text|..] == rest;
    hide AtomLength;
  }

  lemma QuotedLexes(inside: Text, value: Text, rest: Text, line: nat) returns (line': nat)
    requires ReadQuoted(inside) == Quoted(value, rest)
    ensures Lex([QUOTE] + inside, line) == Cons(Token(value, line), Lex(rest, line'))
  {
    hide ReadQuoted;
    hide Newlines;
    var s := [QUOTE] + inside;
    assert s[1..] == inside;
    line' := line + Newlines(s[..|s| - |rest|]);
  }

  lemma {:induction false} EndingLexes(e: Ending, line: nat)
    requires WfEnding(e)
    ensures Lex(PrintEnding(e), line) == Some([])
  {
    var tail := if e.comment.Some? then [SEMICOLON] + e.comment.value else [];
    var line' := GapLexes(e.gap, tail, line);
    if e.comment.Some? {
      CommentSkipped(tail, []);
      assert tail + [] == tail;
    }
  }

  lemma GapStops(gap: seq<Blank>, rest: Text)
    requires WfGap(gap) && (gap == [] ==> rest == [] || !InAtom(rest[0]))
    ensures PrintGap(gap, rest) == [] || !InAtom(PrintGap(gap, rest)[0])
  {
  }

  /** Tokenizing any layout gives the values of its lexemes, whatever blanks and comments
      stand between them. */
  lemma {:induction false} LayoutLexes(ps: seq<Piece>, e: Ending, line: nat)
    requires WfPieces(ps) && WfEnding(e)
    ensures Lex(PrintPieces(ps, PrintEnding(e)), line).Some?
    ensures TokenValues(Lex(PrintPieces(ps, PrintEnding(e)), line).value) == PieceValues(ps)
    decreases |ps|
  {
    hide Lex;
    hide PrintLexeme;
    hide LexemeValue;
    hide PrintEnding;
    hide PrintGap;
    if ps == [] {
      EndingLexes(e, line);
    } else {
      var rest := PrintPieces(ps[1..], PrintEnding(e));
      WfTail(ps);
      if ps[0].lexeme.Bare? {
        AtomStops(ps, e);
      }
      var line1 := GapLexes(ps[0].gap, PrintLexeme(ps[0].lexeme, rest), line);
      var line2 := LexemeLexes(ps[0].lexeme, rest, line1);
      LayoutLexes(ps[1..], e, line2);
      var t, ts := Token(LexemeValue(ps[0].lexeme), line1), Lex(rest, line2).value;
      assert TokenValues([t] + ts) == [t.v] + TokenValues(ts);
      assert PieceValues(ps) == [LexemeValue(ps[0].lexeme)] + PieceValues(ps[1..]);
    }
  }

  lemma WfTail(ps: seq<Piece>)
    requires ps != [] && WfPieces(ps)
    ensures WfPieces(ps[1..])
  {
    assert forall i :: 0 <= i < |ps| - 1 ==> ps[1..][i] == ps[i + 1];
  }

  lemma AtomStops(ps: seq<Piece>, e: Ending)
    requires ps != [] && WfPieces(ps) && WfEnding(e) && ps[0].lexeme.Bare?
    ensures var rest := PrintPieces(ps[1..], PrintEnding(e)); rest == [] || !InAtom(rest[0])
  {
    if |ps| == 1 {
      GapStops(e.gap, if e.comment.Some? then [SEMICOLON] + e.comment.value else []);
    } else {
      var next := ps[1];
      assert ps[1..][0] == next;
      GapStops(next.gap, PrintLexeme(next.lexeme, PrintPieces(ps[1..][1..], PrintEnding(e))));
    }
  }

  // ---------------------------------------------------------------- the round trip

  /** `parse(tokenize(text))`. */
  function Read(text: Text): Option<seq<Node>> {
    var ts := Lex(text, 1);
    if ts.None? then None else Forest(ts.value)
  }

  lemma SameValuesSameErasure(a: seq<Token>, b: seq<Token>)
    requires TokenValues(a) == TokenValues(b)
    ensures EraseTokens(a) == EraseTokens(b)
  {
    assert |a| == |TokenValues(a)| == |TokenValues(b)| == |b|;
    forall i | 0 <= i < |a|
      ensures EraseTokens(a)[i] == EraseTokens(b)[i]
    {
      assert a[i].v == TokenValues(a)[i] == TokenValues(b)[i] == b[i].v;
      assert EraseTokens(a)[i] == EraseToken(a[i]) && EraseTokens(b)[i] == EraseToken(b[i]);
    }
  }

  /** A forest comes back from any layout of its tokens, up to line numbers, exactly when no
      atom of it reads as a parenthesis where one would count. */
  lemma LayoutReadsBack(f: seq<Node>, ps: seq<Piece>, e: Ending)
    requires WfPieces(ps) && WfEnding(e) && PieceValues(ps) == TokenValues(FlattenAll(f, []))
    ensures var r := Read(PrintPieces(ps, PrintEnding(e)));
            CleanAll(f, false) <==> r.Some? && EraseAll(r.value) == EraseAll(f)
  {
    LayoutLexes(ps, e, 1);
    var ts := Lex(PrintPieces(ps, PrintEnding(e)), 1).value;
    SameValuesSameErasure(ts, FlattenAll(f, []));
    FlattenAllErases(f, []);
    ForestErases(ts);
    CleanAllErases(f, false);
    if CleanAll(f, false) {
      ForestUndoes(EraseAll(f));
      assert EraseTokens([]) == [];
    }
    if Forest(ts).Some? {
      ForestIsClean(ts);
      CleanAllErases(Forest(ts).value, false);
    }
  }

  /** Every token list has a layout: parentheses as they are, everything else quoted. */
  function Escape(v: Text): seq<Char> {
    Map((u: int) => Escaped(u), v)
  }

  function QuotedPiece(t: Token): Piece {
    Piece([Space(0x20)], if IsOpen(t) then Paren(OPEN) else if IsClose(t) then Paren(CLOSE) else Str(Escape(t.v)))
  }

  function QuotedLayout(ts: seq<Token>): seq<Piece> {
    Map(QuotedPiece, ts)
  }

  lemma QuotedLayoutWf(ts: seq<Token>)
    ensures WfPieces(QuotedLayout(ts)) && PieceValues(QuotedLayout(ts)) == TokenValues(ts)
  {
    forall t: Token
      ensures LexemeValue(QuotedPiece(t).lexeme) == t.v
    {
      assert Map((c: Char) => c.u, Escape(t.v)) == t.v;
    }
  }

  /** Printing a forest and reading it back. */
  lemma PrintedForestReadsBack(f: seq<Node>)
    ensures var r := Read(PrintPieces(QuotedLayout(FlattenAll(f, [])), []));
            CleanAll(f, false) <==> r.Some? && EraseAll(r.value) == EraseAll(f)
  {
    QuotedLayoutWf(FlattenAll(f, []));
    LayoutReadsBack(f, QuotedLayout(FlattenAll(f, [])), Ending([], None));
  }

  /** A quoted parenthesis is indistinguishable from a real one once it is a token. */
  lemma QuotedParenExample()
    ensures Read([QUOTE, OPEN, QUOTE]) == None
  {
    var s := [QUOTE, OPEN, QUOTE];
    assert s[1..] == [OPEN, QUOTE] && [OPEN, QUOTE][1..] == [QUOTE] && [QUOTE][1..] == [];
    assert ReadQuoted([QUOTE]) == Quoted([], []);
    assert ReadQuoted([OPEN, QUOTE]) == Quoted([OPEN], []);
    assert Lex([], 1 + Newlines(s)) == Some([]);
    assert s[..|s|] == s;
    var t := Token([OPEN], 1);
    assert [t] + [] == [t];
    assert ReadQuoted(s[1..]) == Quoted([OPEN], []);
    assert Lex(s, 1) == Cons(t, Lex([], 1 + Newlines(s)));
    assert [t][1..] == [];
  }
}
