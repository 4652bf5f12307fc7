/**
  What a Brainfuck tree means: a reference interpreter over the tape model.
  Reading or writing a cell outside the tape is stuck (None), and so is a
  loop that needs more than `fuel` nested iterations.
*/
module Semantics {
  import opened Wrappers
  import opened Tape
  import opened Ast

  /** Store `v` in the current cell. */
  function SetCell(s: State, v: int): (r: State)
    requires InBounds(s)
    ensures r.tape == s.tape[s.ptr := v]
    ensures r.ptr == s.ptr && r.input == s.input && r.trace == s.trace
  {
    s.(tape := s.tape[s.ptr := v])
  }

  /** The effect of one leaf instruction. */
  function Step(k: Kind, s: State): (r: Option<State>)
    ensures k == PointerIncrement ==> r == Some(s.(ptr := s.ptr + 1))
    ensures k == PointerDecrement ==> r == Some(s.(ptr := s.ptr - 1))
    ensures !k.PointerIncrement? && !k.PointerDecrement? ==> (r.Some? <==> InBounds(s))
  {
    match k
    case PointerIncrement => Some(s.(ptr := s.ptr + 1))
    case PointerDecrement => Some(s.(ptr := s.ptr - 1))
    case ValueIncrement =>
      if InBounds(s) then Some(SetCell(s, Add8(s.tape[s.ptr], 1))) else None
    case ValueDecrement =>
      if InBounds(s) then Some(SetCell(s, Sub8(s.tape[s.ptr], 1))) else None
    case PutChar =>
      if InBounds(s) then
        Some(s.(trace := s.trace + [Putchar(SignExtend(s.tape[s.ptr])), Fflush]))
      else None
    case GetChar =>
      var (v, rest) := NextInput(s.input);
      if InBounds(s) then
        Some(State(s.tape[s.ptr := Truncate(v)], s.ptr, rest, s.trace + [Getchar(v)]))
      else None
  }

  /** Run one node. */
  function Run(n: Node, s: State, fuel: nat): Option<State>
    decreases fuel, n, 1
  {
    match n
    case Instruction(k) => Step(k, s)
    case Sequence(c) => RunAll(c, s, fuel)
    case WhileLoop(c) => RunLoop(c, s, fuel)
  }

  /** Run the children of a sequence in order, stopping at the first stuck one. */
  function RunAll(c: seq<Node>, s: State, fuel: nat): Option<State>
    decreases fuel, c, 0
  {
    if |c| == 0 then Some(s)
    else match Run(c[0], s, fuel)
      case None => None
      case Some(s') => RunAll(c[1..], s', fuel)
  }

  /** `while (*ptr != 0) { c }`: each iteration costs one unit of fuel. */
  function RunLoop(c: seq<Node>, s: State, fuel: nat): Option<State>
    decreases fuel, c, 2
  {
    if !InBounds(s) then None
    else if s.tape[s.ptr] == 0 then Some(s)
    else if fuel == 0 then None
    else match RunAll(c, s, fuel - 1)
      case None => None
      case Some(s') => RunLoop(c, s', fuel - 1)
  }
}
