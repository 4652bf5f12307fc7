/**
  The memory and I/O model shared by the AST semantics and the generated code:
  a tape of byte cells, a cell pointer, the bytes `getchar` will return, and
  the trace of calls to the three C library routines.
*/
module Tape {

  /** `BF_ARRAY_SIZE`: the number of tape cells. */
  const TapeSize: nat := 60000

  /** The end-of-input value `getchar` returns. */
  const Eof: int := -1

  predicate IsByte(v: int)
  {
    0 <= v < 256
  }

  /** A tape of `n` zero bytes: the global's zero initialiser. */
  function Zeros(n: nat): (t: seq<int>)
    ensures |t| == n
    ensures forall i :: 0 <= i < n ==> t[i] == 0
  {
    seq(n, i => 0)
  }

  /** 8-bit `add`: two's-complement wrap-around. */
  function Add8(v: int, d: int): (r: int)
    ensures IsByte(r)
  {
    (v + d) % 256
  }

  /** 8-bit `sub`: two's-complement wrap-around. */
  function Sub8(v: int, d: int): (r: int)
    ensures IsByte(r)
  {
    (v - d) % 256
  }

  /** `sext i8 to i32` of the byte whose low eight bits `v` carries. */
  function SignExtend(v: int): (r: int)
    ensures -128 <= r < 128
    ensures r % 256 == v % 256
    ensures IsByte(v) ==> (r < 0 <==> v >= 128)
  {
    var b := v % 256;
    if b < 128 then b else b - 256
  }

  /** `trunc i32 to i8`: keep the low eight bits. */
  function Truncate(v: int): (r: int)
    ensures IsByte(r)
    ensures IsByte(v) ==> r == v
  {
    v % 256
  }

  /** The calls the generated program makes into the C library. */
  datatype Event =
    | Putchar(arg: int)    // putchar(arg)
    | Fflush               // fflush(stdout)
    | Getchar(result: int) // getchar() returned result

  /** The observable state of a running program. */
  datatype State = State(tape: seq<int>, ptr: int, input: seq<int>, trace: seq<Event>)

  /** Every value is a byte: the cells of a tape, or the values of an input. */
  predicate AllBytes(t: seq<int>)
  {
    forall i :: 0 <= i < |t| ==> IsByte(t[i])
  }

  /** The pointer designates a cell of the tape. */
  predicate InBounds(s: State)
  {
    0 <= s.ptr < |s.tape|
  }

  /** The state the program starts in: a zero tape, pointer at cell 0. */
  function Initial(input: seq<int>): (s: State)
    ensures |s.tape| == TapeSize && AllBytes(s.tape) && s.ptr == 0 && InBounds(s)
  {
    State(Zeros(TapeSize), 0, input, [])
  }

  /** What `getchar` returns and the input left afterwards: the first value,
      consumed, or EOF with nothing consumed. On byte input EOF is told
      apart from every data value, and what is returned is a byte or EOF. */
  function NextInput(input: seq<int>): (r: (int, seq<int>))
    ensures |input| > 0 ==> input == [r.0] + r.1
    ensures |input| == 0 ==> r.0 == Eof && r.1 == input
    ensures AllBytes(input) ==> (r.0 == Eof <==> |input| == 0)
    ensures AllBytes(input) ==> (IsByte(r.0) || r.0 == Eof) && AllBytes(r.1)
  {
    if |input| == 0 then (Eof, input) else (input[0], input[1..])
  }

  /** Byte arithmetic wraps at both ends; EOF stored to a cell reads as 255. */
  lemma ByteWrapAround()
    ensures Add8(255, 1) == 0 && Sub8(0, 1) == 255
    ensures Truncate(Eof) == 255 && SignExtend(255) == -1
  {
  }

  /** Incrementing and decrementing a byte undo each other. */
  lemma IncDecCancel(v: int)
    requires IsByte(v)
    ensures Sub8(Add8(v, 1), 1) == v
    ensures Add8(Sub8(v, 1), 1) == v
  {
    if v == 255 {
      assert Add8(v, 1) == 0;
    } else {
      assert Add8(v, 1) == v + 1;
    }
    if v == 0 {
      assert Sub8(v, 1) == 255;
    } else {
      assert Sub8(v, 1) == v - 1;
    }
  }
}
