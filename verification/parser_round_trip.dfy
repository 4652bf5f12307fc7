/**
  Round trips between program texts and parsed trees: parsing and unparsing
  are inverse on parser-shaped trees; the leaf and loop counts follow; and the
  extra OTHER that the `std::istream` lexer yields at end of input changes no
  parse.
*/
module ParserRoundTrip {
  import opened Wrappers
  import opened Lexer
  import StreamLexer
  import Ast
  import opened Parser
  import opened ParserProps

  /** Unparsing a successful parse gives back the text with every character
      other than the eight commands removed; the tree is parser-shaped. */
  lemma ParseThenUnparse(src: string)
    requires ParseText(src).Ok?
    ensures Unparse(ParseText(src).value) == Filter(src)
    ensures ParseText(src).value.Sequence? && AllShaped(ParseText(src).value.inner)
  {
    var acc := Ast.Sequence([]);
    ParseSpellsInput(src, false, acc);
    var root := ParseText(src).value;
    assert src[..|src|] == src;
    assert acc.inner + Added(acc, root) == Added(acc, root);
  }

  /** One leaf's character is parsed into that leaf. */
  lemma LeafThenParse(k: Ast.Kind, rest: string, inner: bool, acc: Ast.Node)
    requires acc.Sequence?
    ensures ParseSequence(Tokens(Unparse(Ast.Instruction(k)) + rest), inner, acc)
         == ParseSequence(Tokens(rest), inner, Ast.Sequence(acc.inner + [Ast.Instruction(k)]))
  {
    var t := TokenOf(k);
    ClassifySpelling(t);
    TokensAppend([KindChar(k)], rest);
    var toks := Tokens(Unparse(Ast.Instruction(k)) + rest);
    assert toks[0] == t && toks[1..] == Tokens(rest);
    ParserProps.UnfoldStep(toks, inner, acc);
  }

  /** A loop's text is parsed into that loop, once its body's text is. */
  lemma LoopThenParse(b: seq<Ast.Node>, rest: string, inner: bool, acc: Ast.Node)
    requires acc.Sequence?
    requires ParseSequence(Tokens(UnparseAll(b) + ("]" + rest)), true, Ast.Sequence([]))
          == ParseSequence(Tokens("]" + rest), true, Ast.Sequence(b))
    ensures ParseSequence(Tokens(Unparse(Ast.WhileLoop(b)) + rest), inner, acc)
         == ParseSequence(Tokens(rest), inner, Ast.Sequence(acc.inner + [Ast.WhileLoop(b)]))
  {
    var body := UnparseAll(b) + ("]" + rest);
    var toks := Tokens(Unparse(Ast.WhileLoop(b)) + rest);
    assert toks == Tokens("[" + body) && toks[0] == WhileStart && toks[1..] == Tokens(body) by {
      Regroup4("[", UnparseAll(b), "]", rest);
      TokensAppend("[", body);
    }
    CloseThenParse(b, rest);
    ParserProps.UnfoldLoop(toks, inner, acc);
  }

  lemma Regroup4<T>(a: seq<T>, b: seq<T>, c: seq<T>, d: seq<T>)
    ensures a + b + c + d == a + (b + (c + d))
  {
  }

  /** A closing bracket ends the loop body parsed so far. */
  lemma CloseThenParse(b: seq<Ast.Node>, rest: string)
    ensures ParseSequence(Tokens("]" + rest), true, Ast.Sequence(b)) == (Ok(Ast.Sequence(b)), Tokens(rest))
  {
    TokensAppend("]", rest);
    assert Tokens("]" + rest)[0] == WhileEnd && Tokens("]" + rest)[1..] == Tokens(rest);
  }

  /** Parsing the text of a parser-shaped tree, followed by anything, first
      rebuilds exactly that tree's children. */
  lemma {:induction false} UnparseThenParseAll(c: seq<Ast.Node>, tail: string, inner: bool, acc: Ast.Node)
    requires acc.Sequence? && AllShaped(c)
    ensures ParseSequence(Tokens(UnparseAll(c) + tail), inner, acc)
         == ParseSequence(Tokens(tail), inner, Ast.Sequence(acc.inner + c))
    decreases c
  {
    if |c| == 0 {
      assert UnparseAll(c) + tail == tail;
      assert acc.inner + c == acc.inner;
    } else {
      var x, more := c[0], c[1..];
      assert AllShaped(more) by {
        forall i | 0 <= i < |more| ensures Shaped(more[i]) { assert more[i] == c[i + 1]; }
      }
      var rest := UnparseAll(more) + tail;
      assert UnparseAll(c) + tail == Unparse(x) + rest;
      var acc' := Ast.Sequence(acc.inner + [x]);
      assert acc'.inner + more == acc.inner + c;
      match x
      case Instruction(k) =>
        LeafThenParse(k, rest, inner, acc);
        UnparseThenParseAll(more, tail, inner, acc');
      case WhileLoop(b) =>
        assert Shaped(x);
        UnparseThenParseAll(b, "]" + rest, true, Ast.Sequence([]));
        assert [] + b == b;
        LoopThenParse(b, rest, inner, acc);
        UnparseThenParseAll(more, tail, inner, acc');
    }
  }

  /** Parsing the text of a parser-shaped tree gives the tree back. */
  lemma UnparseThenParse(root: Ast.Node)
    requires root.Sequence? && AllShaped(root.inner)
    ensures ParseText(Unparse(root)) == Ok(root)
  {
    UnparseThenParseAll(root.inner, "", false, Ast.Sequence([]));
    assert UnparseAll(root.inner) + "" == Unparse(root);
    assert [] + root.inner == root.inner;
  }

  // ---------------------------------------------------------------------
  // Counts

  const LeafCommands: string := "<>+-.,"

  /** The number of characters of a text that stand for an instruction leaf. */
  function LeafChars(s: string): nat
  {
    if |s| == 0 then 0 else (if s[0] in LeafCommands then 1 else 0) + LeafChars(s[1..])
  }

  lemma {:induction false} LeafCharsAppend(s: string, u: string)
    ensures LeafChars(s + u) == LeafChars(s) + LeafChars(u)
    decreases |s|
  {
    if |s| == 0 {
      assert s + u == u;
    } else {
      assert (s + u)[1..] == s[1..] + u;
      LeafCharsAppend(s[1..], u);
    }
  }

  /** Removing comments keeps every command character. */
  lemma {:induction false} FilterKeepsCommands(s: string)
    ensures LeafChars(Filter(s)) == LeafChars(s)
    ensures Ast.Occurrences('[', Filter(s)) == Ast.Occurrences('[', s)
    decreases |s|
  {
    if |s| > 0 {
      FilterKeepsCommands(s[1..]);
      var h := if IsCommand(s[0]) then [s[0]] else "";
      LeafCharsAppend(h, Filter(s[1..]));
      Ast.OccurrencesAppend('[', h, Filter(s[1..]));
      assert s[0] in LeafCommands ==> IsCommand(s[0]);
    }
  }

  /** A tree's text has one leaf character per leaf and one '[' per loop. */
  lemma {:induction false} UnparseCounts(n: Ast.Node)
    ensures LeafChars(Unparse(n)) == Ast.LeafCount(n)
    ensures Ast.Occurrences('[', Unparse(n)) == Ast.LoopCount(n)
    decreases n, 1
  {
    match n
    case Instruction(k) =>
      assert KindChar(k) in LeafCommands by {
        match k
        case PointerIncrement =>
        case PointerDecrement =>
        case ValueIncrement =>
        case ValueDecrement =>
        case PutChar =>
        case GetChar =>
      }
    case Sequence(c) =>
      UnparseAllCounts(c);
    case WhileLoop(c) =>
      UnparseAllCounts(c);
      var u := UnparseAll(c);
      LeafCharsAppend("[" + u, "]");
      LeafCharsAppend("[", u);
      Ast.OccurrencesAppend('[', "[" + u, "]");
      Ast.OccurrencesAppend('[', "[", u);
  }

  lemma {:induction false} UnparseAllCounts(c: seq<Ast.Node>)
    ensures LeafChars(UnparseAll(c)) == Ast.LeafCountAll(c)
    ensures Ast.Occurrences('[', UnparseAll(c)) == Ast.LoopCountAll(c)
    decreases c, 0
  {
    if |c| > 0 {
      UnparseCounts(c[0]);
      UnparseAllCounts(c[1..]);
      LeafCharsAppend(Unparse(c[0]), UnparseAll(c[1..]));
      Ast.OccurrencesAppend('[', Unparse(c[0]), UnparseAll(c[1..]));
    }
  }

  /** On success the tree has one leaf per `<>+-.,` character of the text and
      one loop per '['. */
  lemma ParseCounts(src: string)
    requires ParseText(src).Ok?
    ensures Ast.LeafCount(ParseText(src).value) == LeafChars(src)
    ensures Ast.LoopCount(ParseText(src).value) == Ast.Occurrences('[', src)
  {
    ParseThenUnparse(src);
    UnparseCounts(ParseText(src).value);
    FilterKeepsCommands(src);
  }

  // ---------------------------------------------------------------------
  // The trailing OTHER of the stream lexer

  /** One more OTHER at the end of the tokens changes no result. */
  lemma {:induction false} TrailingOtherIsSkipped(toks: seq<Token>, inner: bool, acc: Ast.Node)
    requires acc.Sequence?
    ensures ParseSequence(toks + [Other], inner, acc).0 == ParseSequence(toks, inner, acc).0
    ensures var rest, rest' := ParseSequence(toks, inner, acc).1, ParseSequence(toks + [Other], inner, acc).1;
      && (rest' == rest + [Other] || (rest == [] && rest' == []))
      && (inner && ParseSequence(toks, inner, acc).0.Ok? ==> rest' == rest + [Other])
    decreases |toks|
  {
    var toks' := toks + [Other];
    if |toks| == 0 {
      assert toks' == [Other];
      assert ParseSequence(toks', inner, acc) == ParseSequence([], inner, acc);
    } else {
      assert toks'[0] == toks[0] && toks'[1..] == toks[1..] + [Other];
      var t := toks[0];
      if t == End {
      } else if t == WhileStart {
        ParserProps.UnfoldLoop(toks, inner, acc);
        ParserProps.UnfoldLoop(toks', inner, acc);
        TrailingOtherIsSkipped(toks[1..], true, Ast.Sequence([]));
        var (ri, after) := ParseSequence(toks[1..], true, Ast.Sequence([]));
        if ri.Ok? {
          var after' := ParseSequence(toks'[1..], true, Ast.Sequence([])).1;
          assert after' == after + [Other];
          TrailingOtherIsSkipped(after, inner, Ast.PushBack(acc, Ast.MakeLoop(ri.value)));
        }
      } else if t == WhileEnd {
      } else {
        ParserProps.UnfoldStep(toks, inner, acc);
        ParserProps.UnfoldStep(toks', inner, acc);
        var acc' := if t == Other then acc else Ast.PushBack(acc, Ast.Instruction(LeafOf(t)));
        TrailingOtherIsSkipped(toks[1..], inner, acc');
      }
    }
  }

  /** Parsing over the `std::istream` lexer as written gives the same result
      as over the corrected lexer. */
  lemma StreamLexerParsesAlike(src: string)
    ensures ParseSequence(StreamLexer.Drain(StreamLexer.Stream(src, false)), false, Ast.Sequence([])).0
         == ParseText(src)
  {
    StreamLexer.DrainAddsOther(src);
    TrailingOtherIsSkipped(Tokens(src), false, Ast.Sequence([]));
  }
}
