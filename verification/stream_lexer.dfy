/**
  The lexer as written against `std::istream`: `get_next` and `peek` test the
  stream's end-of-file flag BEFORE looking at the next character, and that flag
  is only raised by a read that finds no character. So once the characters are
  used up, one more `peek` still answers (with the end-of-file value, which the
  table maps to OTHER) and only then does END appear. The rest of the model uses
  the corrected lexer of module `Lexer`; this module records the discrepancy and
  shows that the parser is not affected by it.
*/
module StreamLexer {
  import opened Lexer

  /** An input stream: unread characters and the end-of-file flag. */
  datatype Stream = Stream(rest: seq<char>, eof: bool)

  /** `std::istream::peek`: reading past the last character raises the flag. */
  function StreamPeekChar(s: Stream): (r: (bool, Stream))
  {
    if |s.rest| == 0 then (false, Stream(s.rest, true)) else (true, s)
  }

  /** `Lexer::peek` as written. The boolean of `StreamPeekChar` says whether a
      character was there; the end-of-file value falls to the default case. */
  function Peek(s: Stream): (r: (Token, Stream))
    ensures r.1.rest == s.rest
    ensures r.0 == End <==> s.eof
    ensures !s.eof && |s.rest| > 0 ==> r.0 == Classify(s.rest[0]) && r.1 == s
    ensures !s.eof && |s.rest| == 0 ==> r.0 == Other && r.1.eof
  {
    if s.eof then (End, s)
    else
      var (found, s') := StreamPeekChar(s);
      (if found then Classify(s.rest[0]) else Other, s')
  }

  /** `std::istream::get`: consumes one character, or raises the flag. */
  function StreamGet(s: Stream): Stream
  {
    if |s.rest| == 0 then Stream(s.rest, true) else Stream(s.rest[1..], s.eof)
  }

  /** `Lexer::get_next` as written: peek, then consume. */
  function GetNext(s: Stream): (r: (Token, Stream))
    ensures r.0 == Peek(s).0
    ensures !s.eof && |s.rest| > 0 ==> r.1 == Stream(s.rest[1..], false)
    ensures !s.eof && |s.rest| == 0 ==> r.1 == Stream([], true)
    ensures s.eof ==> r.1 == s
  {
    if !s.eof then
      var (next, s') := Peek(s);
      (next, StreamGet(s'))
    else (End, s)
  }

  /** The distance to END: every `GetNext` that does not return END shrinks it. */
  function Remaining(s: Stream): nat
  {
    |s.rest| + if s.eof then 0 else 1
  }

  /** The tokens `GetNext` yields before it first returns END. */
  function Drain(s: Stream): seq<Token>
    decreases Remaining(s)
  {
    var (t, s') := GetNext(s);
    if t == End then [] else [t] + Drain(s')
  }

  /** The discrepancy on the smallest input: on a fresh stream with nothing
      left, two peeks in a row disagree, and `get_next` returns OTHER where the
      documented contract promises END. */
  lemma EmptyStreamYieldsOther()
    ensures Peek(Stream([], false)).0 == Other
    ensures Peek(Peek(Stream([], false)).1).0 == End
    ensures GetNext(Stream([], false)).0 == Other
    ensures Drain(Stream([], false)) == [Other]
  {
  }

  /** On every text the stream lexer yields the corrected lexer's tokens
      followed by one extra OTHER. */
  lemma {:induction false} DrainAddsOther(s: seq<char>)
    ensures Drain(Stream(s, false)) == Tokens(s) + [Other]
    decreases |s|
  {
    if |s| == 0 {
      EmptyStreamYieldsOther();
    } else {
      DrainAddsOther(s[1..]);
    }
  }
}
