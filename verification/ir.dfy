/**
  The abstract IR the code generator emits: each instruction stands for one
  IRBuilder call of the generator, over four virtual registers (a pointer, an
  i8, an i32 and an i1). A function is a sequence of named blocks; branch
  targets are block indices.
*/
module Ir {
  import opened Wrappers
  import opened Tape

  datatype Inst =
    | AllocPtr              // %current_ptr = alloca ptr
    | ArrayStart            // ptr := getelementptr bf_array, 0
    | LoadPtr               // ptr := load ptr, %current_ptr
    | StorePtr              // store ptr, %current_ptr
    | OffsetPtr(delta: int) // ptr := getelementptr i8, ptr, delta
    | LoadByte              // i8 := load i8, ptr
    | StoreByte             // store i8, ptr
    | AddByte(k: int)       // i8 := add i8, k
    | SubByte(k: int)       // i8 := sub i8, k
    | ExtendByte            // i32 := sext i8
    | TruncateWord          // i8 := trunc i32
    | CallPutchar           // call putchar(i32)
    | LoadStdout            // load ptr, @stdout
    | CallFflush            // call fflush(stdout)
    | CallGetchar           // i32 := call getchar()
    | CompareNonZero        // i1 := icmp ne i8, 0
    | Br(target: nat)                       // br label target
    | CondBr(ifTrue: nat, ifFalse: nat)     // br i1, label ifTrue, label ifFalse
    | Ret(value: int)                       // ret i32 value

  predicate IsTerminator(i: Inst)
  {
    i.Br? || i.CondBr? || i.Ret?
  }

  datatype Block = Block(name: string, insts: seq<Inst>)

  /** No terminator yet: the builder may still append to it. */
  predicate Open(b: Block)
  {
    forall i :: 0 <= i < |b.insts| ==> !IsTerminator(b.insts[i])
  }

  /** Exactly one terminator, and it is the last instruction. */
  predicate Closed(b: Block)
  {
    |b.insts| > 0 && IsTerminator(b.insts[|b.insts| - 1]) &&
    forall i :: 0 <= i < |b.insts| - 1 ==> !IsTerminator(b.insts[i])
  }

  /** The blocks a terminator may pass control to. */
  function Successors(i: Inst): (r: seq<nat>)
    ensures !IsTerminator(i) || i.Ret? ==> r == []
  {
    match i
    case Br(t) => [t]
    case CondBr(t, f) => [t, f]
    case _ => []
  }

  /** Every branch in `b` names one of the first `n` blocks. */
  predicate TargetsBelow(b: Block, n: nat)
  {
    forall i, j :: 0 <= i < |b.insts| && 0 <= j < |Successors(b.insts[i])| ==>
      Successors(b.insts[i])[j] < n
  }

  /** The virtual registers. */
  datatype Regs = Regs(ptr: int, byte: int, word: int, flag: bool)

  datatype Machine = Machine(mem: State, regs: Regs)

  /** The effect of one non-terminator; a load or store off the tape is stuck. */
  function Eval(i: Inst, m: Machine): Option<Machine>
    requires !IsTerminator(i)
  {
    var s := m.mem;
    var g := m.regs;
    match i
    case AllocPtr => Some(m)
    case ArrayStart => Some(m.(regs := g.(ptr := 0)))
    case LoadPtr => Some(m.(regs := g.(ptr := s.ptr)))
    case StorePtr => Some(m.(mem := s.(ptr := g.ptr)))
    case OffsetPtr(d) => Some(m.(regs := g.(ptr := g.ptr + d)))
    case LoadByte =>
      if 0 <= g.ptr < |s.tape| then Some(m.(regs := g.(byte := s.tape[g.ptr]))) else None
    case StoreByte =>
      if 0 <= g.ptr < |s.tape| then Some(m.(mem := s.(tape := s.tape[g.ptr := g.byte]))) else None
    case AddByte(k) => Some(m.(regs := g.(byte := Add8(g.byte, k))))
    case SubByte(k) => Some(m.(regs := g.(byte := Sub8(g.byte, k))))
    case ExtendByte => Some(m.(regs := g.(word := SignExtend(g.byte))))
    case TruncateWord => Some(m.(regs := g.(byte := Truncate(g.word))))
    case CallPutchar => Some(m.(mem := s.(trace := s.trace + [Putchar(g.word)])))
    case LoadStdout => Some(m)
    case CallFflush => Some(m.(mem := s.(trace := s.trace + [Fflush])))
    case CallGetchar =>
      var (v, rest) := NextInput(s.input);
      Some(Machine(s.(input := rest, trace := s.trace + [Getchar(v)]), g.(word := v)))
    case CompareNonZero => Some(m.(regs := g.(flag := g.byte != 0)))
  }

  /** Run a straight-line list of non-terminators. */
  function EvalAll(code: seq<Inst>, m: Machine): Option<Machine>
  {
    EvalFrom(code, 0, m)
  }

  /** Run `code` from its `j`-th instruction on; a terminator in it is stuck. */
  function EvalFrom(code: seq<Inst>, j: nat, m: Machine): Option<Machine>
    decreases |code| - j
  {
    if j >= |code| then Some(m)
    else if IsTerminator(code[j]) then None
    else match Eval(code[j], m)
      case None => None
      case Some(m') => EvalFrom(code, j + 1, m')
  }

  /** How a run of a function ends: the returned value and the final machine. */
  datatype Exit = Exit(status: int, machine: Machine)

  /**
    Run function `f` from instruction `i` of block `b`. Every branch taken
    costs one unit of fuel; running out of fuel, falling off a block, or a
    stuck instruction gives None.
  */
  function Exec(f: seq<Block>, b: nat, i: nat, m: Machine, fuel: nat): Option<Exit>
    decreases fuel, if b < |f| && i <= |f[b].insts| then |f[b].insts| - i else 0
  {
    if b >= |f| || i >= |f[b].insts| then None
    else
      var inst := f[b].insts[i];
      match inst
      case Ret(v) => Some(Exit(v, m))
      case Br(t) => if fuel == 0 then None else Exec(f, t, 0, m, fuel - 1)
      case CondBr(t, e) =>
        if fuel == 0 then None else Exec(f, if m.regs.flag then t else e, 0, m, fuel - 1)
      case _ =>
        match Eval(inst, m)
        case None => None
        case Some(m') => Exec(f, b, i + 1, m', fuel)
  }
}
