/**
  The bfllvm lexer: a fixed one-character-to-one-token table over a character
  stream. The stream is a sequence of the characters not yet consumed, so the
  lexer's only state is that suffix.
*/
module Lexer {

  /** The ten token kinds, in the order of their numeric codes. */
  datatype Token =
    | PtrInc      // '>'
    | PtrDec      // '<'
    | ValInc      // '+'
    | ValDec      // '-'
    | PutChar     // '.'
    | GetChar     // ','
    | WhileStart  // '['
    | WhileEnd    // ']'
    | Other       // any other character: commentary
    | End         // end of the stream

  /** The underlying enum value of a token: consecutive, starting at 0. */
  function Code(t: Token): (k: nat)
    ensures k < 10
  {
    match t
    case PtrInc => 0
    case PtrDec => 1
    case ValInc => 2
    case ValDec => 3
    case PutChar => 4
    case GetChar => 5
    case WhileStart => 6
    case WhileEnd => 7
    case Other => 8
    case End => 9
  }

  /** The token with a given code. */
  function FromCode(k: nat): (t: Token)
    requires k < 10
    ensures Code(t) == k
  {
    [PtrInc, PtrDec, ValInc, ValDec, PutChar, GetChar, WhileStart, WhileEnd, Other, End][k]
  }

  /** Codes and tokens are in one-to-one correspondence with 0..9: the token
      set is closed, has exactly ten distinct values, and END is the last. */
  lemma CodesAreABijection()
    ensures forall t: Token :: FromCode(Code(t)) == t
    ensures forall t: Token, u: Token :: Code(t) == Code(u) ==> t == u
    ensures forall k: nat :: k < 10 ==> Code(FromCode(k)) == k
    ensures Code(PtrInc) == 0 && Code(End) == 9
    ensures forall t: Token :: Code(t) <= Code(End)
  {
    forall t: Token ensures FromCode(Code(t)) == t {
      match t
      case PtrInc =>
      case PtrDec =>
      case ValInc =>
      case ValDec =>
      case PutChar =>
      case GetChar =>
      case WhileStart =>
      case WhileEnd =>
      case Other =>
      case End =>
    }
  }

  /** The eight characters that carry meaning. */
  const Commands: seq<char> := "<>+-.,[]"

  predicate IsCommand(c: char)
  {
    c in Commands
  }

  /** Tokens standing for one command character. */
  predicate IsCommandToken(t: Token)
  {
    !t.Other? && !t.End?
  }

  /** The character a command token is read from. */
  function Spelling(t: Token): (c: char)
    requires IsCommandToken(t)
    ensures IsCommand(c)
  {
    match t
    case PtrInc => '>'
    case PtrDec => '<'
    case ValInc => '+'
    case ValDec => '-'
    case PutChar => '.'
    case GetChar => ','
    case WhileStart => '['
    case WhileEnd => ']'
  }

  /** The character-to-token table that `peek` applies to the next character. */
  function Classify(c: char): (t: Token)
    ensures t != End
    ensures t == Other <==> !IsCommand(c)
    ensures t != Other ==> Spelling(t) == c
  {
    match c
    case '<' => PtrDec
    case '>' => PtrInc
    case '+' => ValInc
    case '-' => ValDec
    case '.' => PutChar
    case ',' => GetChar
    case '[' => WhileStart
    case ']' => WhileEnd
    case _ => Other
  }

  /** Reading a token back from its spelling gives the token again, so no two
      command tokens share a character and none is swapped with another. */
  lemma {:induction false} ClassifySpelling(t: Token)
    requires IsCommandToken(t)
    ensures Classify(Spelling(t)) == t
  {
    match t
    case PtrInc =>
    case PtrDec =>
    case ValInc =>
    case ValDec =>
    case PutChar =>
    case GetChar =>
    case WhileStart =>
    case WhileEnd =>
  }

  /** The lexer state: the characters not yet consumed. */
  datatype Lexer = Lexer(rest: seq<char>)

  /** The next token, without consuming anything. */
  function Peek(lx: Lexer): (t: Token)
    ensures t == End <==> |lx.rest| == 0
    ensures |lx.rest| > 0 ==> (t == Other <==> !IsCommand(lx.rest[0]))
    ensures |lx.rest| > 0 && t != Other ==> Spelling(t) == lx.rest[0]
  {
    if |lx.rest| == 0 then End else Classify(lx.rest[0])
  }

  /** Removes the next token from the stream and returns it. */
  function GetNext(lx: Lexer): (r: (Token, Lexer))
    ensures r.0 == Peek(lx)
    ensures |lx.rest| > 0 ==> |r.1.rest| == |lx.rest| - 1 && lx.rest == [lx.rest[0]] + r.1.rest
    ensures |lx.rest| == 0 ==> r.0 == End && r.1 == lx
  {
    if |lx.rest| == 0 then (End, lx) else (Peek(lx), Lexer(lx.rest[1..]))
  }

  /** `GetNext` applied `n` times. */
  function Advance(lx: Lexer, n: nat): Lexer
    decreases n
  {
    if n == 0 then lx else Advance(GetNext(lx).1, n - 1)
  }

  /** After as many calls as there are characters the stream is exhausted, and
      from then on every further `Peek` and `GetNext` yields END and changes
      nothing. */
  lemma {:induction false} EndIsSticky(lx: Lexer, n: nat)
    requires n >= |lx.rest|
    ensures Advance(lx, n).rest == []
    ensures Peek(Advance(lx, n)) == End
    ensures GetNext(Advance(lx, n)) == (End, Advance(lx, n))
    decreases n
  {
    if n > 0 {
      EndIsSticky(GetNext(lx).1, n - 1);
    }
  }

  /** The tokens of a whole text, one per character. */
  function Tokens(s: seq<char>): (ts: seq<Token>)
    ensures |ts| == |s|
  {
    if |s| == 0 then [] else [Classify(s[0])] + Tokens(s[1..])
  }

  lemma {:induction false} TokensAppend(s: seq<char>, u: seq<char>)
    ensures Tokens(s + u) == Tokens(s) + Tokens(u)
    decreases |s|
  {
    if |s| == 0 {
      assert s + u == u;
    } else {
      assert (s + u)[1..] == s[1..] + u;
      TokensAppend(s[1..], u);
    }
  }

  /** The tokens `GetNext` yields before it first returns END. */
  function Drain(lx: Lexer): seq<Token>
    decreases |lx.rest|
  {
    var (t, lx') := GetNext(lx);
    if t == End then [] else [t] + Drain(lx')
  }

  /** Driving the lexer until END yields exactly one token per character. */
  lemma {:induction false} DrainIsTokens(s: seq<char>)
    ensures Drain(Lexer(s)) == Tokens(s)
    decreases |s|
  {
    if |s| > 0 {
      DrainIsTokens(s[1..]);
      assert Lexer(s[1..]) == GetNext(Lexer(s)).1;
    }
  }
}
