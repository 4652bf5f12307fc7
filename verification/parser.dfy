/**
  The bfllvm recursive-descent parser. `ParseSequence` is `parse_sequence`:
  it consumes the tokens the lexer yields (END, or the end of the token
  sequence, stops it) and returns the parsed sequence or the error, together
  with the tokens it did not consume. The `_state` side channel becomes the
  `state` field of a `Parser` value.
*/
module Parser {
  import opened Wrappers
  import opened Lexer
  import Ast

  /** The two structural errors the parser reports. */
  datatype ParseError = MissingOpen | MissingClose

  /** The text `state()` holds after a failure. */
  function Message(e: ParseError): (m: string)
    ensures m != InitialState
  {
    match e
    case MissingOpen => "Expected an opening '['"
    case MissingClose => "Expected a closing ']'"
  }

  /** The state of a freshly constructed parser. */
  const InitialState: string := "ok"

  /** The six tokens that stand for one instruction leaf. */
  predicate IsLeafToken(t: Token)
  {
    t.PtrInc? || t.PtrDec? || t.ValInc? || t.ValDec? || t.PutChar? || t.GetChar?
  }

  /** The leaf each of those tokens appends. */
  function LeafOf(t: Token): Ast.Kind
    requires IsLeafToken(t)
  {
    match t
    case PtrInc => Ast.PointerIncrement
    case PtrDec => Ast.PointerDecrement
    case ValInc => Ast.ValueIncrement
    case ValDec => Ast.ValueDecrement
    case PutChar => Ast.PutChar
    case GetChar => Ast.GetChar
  }

  /** The token a leaf is read from: `LeafOf` is a bijection between the six
      leaf tokens and the six kinds. */
  function TokenOf(k: Ast.Kind): (t: Token)
    ensures IsLeafToken(t) && LeafOf(t) == k
  {
    match k
    case PointerIncrement => PtrInc
    case PointerDecrement => PtrDec
    case ValueIncrement => ValInc
    case ValueDecrement => ValDec
    case PutChar => PutChar
    case GetChar => GetChar
  }

  /** The other half of the bijection: distinct leaf tokens append distinct leaves. */
  lemma LeafOfTokenOf(t: Token)
    requires IsLeafToken(t)
    ensures TokenOf(LeafOf(t)) == t
  {
    match t
    case PtrInc =>
    case PtrDec =>
    case ValInc =>
    case ValDec =>
    case PutChar =>
    case GetChar =>
  }

  /** `parse_sequence(inner_loop)`, with `result` the sequence built so far.
      A top-level call starts with an empty `Sequence`. */
  function ParseSequence(toks: seq<Token>, innerLoop: bool, result: Ast.Node)
    : (r: (Result<Ast.Node, ParseError>, seq<Token>))
    requires result.Sequence?
    ensures |r.1| <= |toks|
    ensures r.0.Ok? ==> r.0.value.Sequence?
    ensures r.0.Err? && innerLoop ==> r.0.error == MissingClose
    decreases |toks|
  {
    if |toks| == 0 || toks[0] == End then
      (if innerLoop then Err(MissingClose) else Ok(result), toks)
    else
      var t, rest := toks[0], toks[1..];
      if t == WhileStart then
        var (inner, after) := ParseSequence(rest, true, Ast.Sequence([]));
        if inner.Err? then
          (Err(inner.error), after)
        else
          ParseSequence(after, innerLoop, Ast.PushBack(result, Ast.MakeLoop(inner.value)))
      else if t == WhileEnd then
        if innerLoop then (Ok(result), rest) else (Err(MissingOpen), rest)
      else if t == Other then
        ParseSequence(rest, innerLoop, result)
      else
        ParseSequence(rest, innerLoop, Ast.PushBack(result, Ast.Instruction(LeafOf(t))))
  }

  /** A parser: the tokens its lexer will still yield and the `_state` text. */
  datatype Parser = Parser(tokens: seq<Token>, state: string)

  /** `Parser(stream)`: a lexer over the whole text and state "ok". */
  function NewParser(src: string): Parser
  {
    Parser(Tokens(src), InitialState)
  }

  /** `Parser::parse`: the root sequence on success, nothing on failure; the
      state is overwritten with the error text on failure only. */
  function Parse(p: Parser): (r: (Option<Ast.Node>, Parser))
    ensures r.0.Some? ==> r.0.value.Sequence? && r.1.state == p.state
    ensures r.0.None? ==> r.1.state == Message(MissingOpen) || r.1.state == Message(MissingClose)
    ensures |r.1.tokens| <= |p.tokens|
  {
    var (res, rest) := ParseSequence(p.tokens, false, Ast.Sequence([]));
    match res
    case Ok(root) => (Some(root), Parser(rest, p.state))
    case Err(e) => (None, Parser(rest, Message(e)))
  }

  /** The parse of a whole text, as a result value. */
  function ParseText(src: string): Result<Ast.Node, ParseError>
  {
    ParseSequence(Tokens(src), false, Ast.Sequence([])).0
  }

  /** On a fresh parser the AST is present exactly when the state still reads
      "ok", and a failure leaves the text of the very error the parse hit. */
  lemma FreshParserState(src: string)
    ensures Parse(NewParser(src)).0.Some? <==> Parse(NewParser(src)).1.state == InitialState
    ensures ParseText(src).Ok? <==> Parse(NewParser(src)).0.Some?
    ensures ParseText(src).Ok? ==> Parse(NewParser(src)).0 == Some(ParseText(src).value)
    ensures ParseText(src).Err? ==> Parse(NewParser(src)).1.state == Message(ParseText(src).error)
  {
  }
}
