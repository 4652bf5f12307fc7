/**
  What the straight-line code the generator emits does to memory: each
  leaf's instruction list, the loop condition and the entry code.
*/
module LeafEffects {
  import opened Wrappers
  import opened Tape
  import opened Ast
  import opened Ir
  import opened CodeGen

  /** Pointer increment and decrement move the pointer by one cell and touch nothing else. */
  lemma PointerCode(s: State, regs: Regs)
    ensures EvalAll(LeafCode(PointerIncrement), Machine(s, regs)) ==
      Some(Machine(s.(ptr := s.ptr + 1), regs.(ptr := s.ptr + 1)))
    ensures EvalAll(LeafCode(PointerDecrement), Machine(s, regs)) ==
      Some(Machine(s.(ptr := s.ptr - 1), regs.(ptr := s.ptr - 1)))
  {
  }

  /** Value increment adds one, modulo 256, to the current cell only. */
  lemma IncrementCode(s: State, regs: Regs)
    ensures var r := EvalAll(LeafCode(ValueIncrement), Machine(s, regs));
      (r.Some? <==> InBounds(s)) &&
      (r.Some? ==> r.value.mem == s.(tape := s.tape[s.ptr := Add8(s.tape[s.ptr], 1)]))
  {
  }

  /** Value decrement subtracts one, modulo 256, from the current cell only. */
  lemma DecrementCode(s: State, regs: Regs)
    ensures var r := EvalAll(LeafCode(ValueDecrement), Machine(s, regs));
      (r.Some? <==> InBounds(s)) &&
      (r.Some? ==> r.value.mem == s.(tape := s.tape[s.ptr := Sub8(s.tape[s.ptr], 1)]))
  {
  }

  /** Output calls putchar once with the sign-extended cell, then fflush once. */
  lemma OutputCodeEffect(s: State, regs: Regs)
    ensures var r := EvalAll(LeafCode(PutChar), Machine(s, regs));
      (r.Some? <==> InBounds(s)) &&
      (r.Some? ==> r.value.mem == s.(trace := s.trace + [Putchar(SignExtend(s.tape[s.ptr])), Fflush]))
  {
  }

  /** Input stores getchar's result, truncated to a byte, in the current cell only. */
  lemma InputCode(s: State, regs: Regs)
    ensures var r := EvalAll(LeafCode(GetChar), Machine(s, regs));
      (r.Some? <==> InBounds(s)) &&
      (r.Some? ==> var (v, rest) := NextInput(s.input);
        r.value.mem == State(s.tape[s.ptr := Truncate(v)], s.ptr, rest, s.trace + [Getchar(v)]))
  {
  }

  /** The condition block's code loads the current cell and tests it against zero. */
  lemma ConditionCodeEffect(s: State, regs: Regs)
    ensures var r := EvalAll(ConditionCode, Machine(s, regs));
      (r.Some? <==> InBounds(s)) &&
      (r.Some? ==> r.value.mem == s && (r.value.regs.flag <==> s.tape[s.ptr] != 0))
  {
  }

  /** The entry code points the pointer at cell 0, whatever `current_ptr` held before. */
  lemma EntryCodeEffect(s: State, regs: Regs)
    ensures EvalAll(EntryCode, Machine(s, regs)) == Some(Machine(s.(ptr := 0), regs.(ptr := 0)))
  {
  }
}
