/**
  The generated code does what the tree means: each leaf's instruction list
  has the leaf's effect on the tape, and running the generated function
  reaches `ret 0` in the state the reference interpreter computes.
*/
module CodeGenCorrect {
  import opened Wrappers
  import opened Tape
  import opened Ast
  import opened Semantics
  import opened Ir
  import opened CodeGen
  import opened CodeGenProps
  import opened LeafEffects

  /** Each leaf's code computes the reference semantics of the leaf. */
  lemma LeafCodeMatchesStep(k: Kind, s: State, regs: Regs)
    ensures EvalAll(LeafCode(k), Machine(s, regs)).Some? <==> Step(k, s).Some?
    ensures Step(k, s).Some? ==> EvalAll(LeafCode(k), Machine(s, regs)).value.mem == Step(k, s).value
  {
    match k
    case PointerIncrement => PointerCode(s, regs);
    case PointerDecrement => PointerCode(s, regs);
    case ValueIncrement => IncrementCode(s, regs);
    case ValueDecrement => DecrementCode(s, regs);
    case PutChar => OutputCodeEffect(s, regs);
    case GetChar => InputCode(s, regs);
  }

  /** The builder's blocks are prefixes of the final function's blocks. */
  ghost predicate Extends(f: seq<Block>, g: Gen)
  {
    |g.blocks| <= |f| && forall i :: 0 <= i < |g.blocks| ==> g.blocks[i].insts <= f[i].insts
  }

  /** The position the builder appends at next. */
  function Here(g: Gen): nat
    requires HasInsertPoint(g)
  {
    |g.blocks[g.cur].insts|
  }

  lemma ExtendsEarlier(f: seq<Block>, h: Gen, r: Gen)
    requires Extends(f, r) && Grows(h, r)
    ensures Extends(f, h)
  {
    forall i | 0 <= i < |h.blocks|
      ensures h.blocks[i].insts <= f[i].insts
    {
      if i == h.cur {
        assert h.blocks[i].insts <= r.blocks[i].insts <= f[i].insts;
      }
    }
  }

  lemma ExtendsBeforeTail(f: seq<Block>, g: Gen, cond: nat, after: nat)
    requires HasInsertPoint(g) && after < |g.blocks| && Extends(f, LoopTail(g, cond, after))
    ensures Extends(f, g)
  {
    LoopTailShape(g, cond, after);
    var t := LoopTail(g, cond, after);
    forall i | 0 <= i < |g.blocks|
      ensures g.blocks[i].insts <= f[i].insts
    {
      assert g.blocks[i].insts <= t.blocks[i].insts <= f[i].insts;
    }
  }

  /** A position in the generated function: instruction `index` of block `block`. */
  datatype Pc = Pc(block: nat, index: nat)

  /**
    From `p` with machine `m`, execution arrives at `q` with machine `m'`
    after taking exactly `gas` branches, whatever fuel is left over.
  */
  ghost predicate Reaches(f: seq<Block>, p: Pc, m: Machine, gas: nat, q: Pc, m': Machine)
  {
    forall k: nat {:trigger Later(f, p, m, gas, k)} :: Later(f, p, m, gas, k) == Exec(f, q.block, q.index, m', k)
  }

  /** The outcome of running from `p` with `gas` more units of fuel than `k`. */
  function Later(f: seq<Block>, p: Pc, m: Machine, gas: nat, k: nat): Option<Exit>
  {
    Exec(f, p.block, p.index, m, gas + k)
  }

  lemma ReachesTransitive(f: seq<Block>, p: Pc, m: Machine, a: nat, q: Pc, m1: Machine, b: nat, r: Pc, m2: Machine)
    requires Reaches(f, p, m, a, q, m1) && Reaches(f, q, m1, b, r, m2)
    ensures Reaches(f, p, m, a + b, r, m2)
  {
    forall k: nat
      ensures Later(f, p, m, a + b, k) == Exec(f, r.block, r.index, m2, k)
    {
      assert Later(f, p, m, a, b + k) == Exec(f, q.block, q.index, m1, b + k);
      assert Later(f, q, m1, b, k) == Exec(f, r.block, r.index, m2, k);
      assert a + b + k == a + (b + k);
    }
  }

  /** Three legs of a run joined into one. */
  lemma ReachesChain(f: seq<Block>, p: Pc, m: Machine, a: nat, q: Pc, m1: Machine, b: nat, r: Pc, m2: Machine,
                     c: nat, t: Pc, m3: Machine)
    requires Reaches(f, p, m, a, q, m1) && Reaches(f, q, m1, b, r, m2) && Reaches(f, r, m2, c, t, m3)
    ensures Reaches(f, p, m, a + b + c, t, m3)
  {
    ReachesTransitive(f, p, m, a, q, m1, b, r, m2);
    ReachesTransitive(f, p, m, a + b, r, m2, c, t, m3);
  }

  /** Running straight-line code from the middle of a block costs no fuel. */
  lemma {:induction false} ExecStraight(f: seq<Block>, b: nat, i: nat, code: seq<Inst>, j: nat, m: Machine, fuel: nat)
    requires b < |f| && i + |code| <= |f[b].insts| && f[b].insts[i..i + |code|] == code
    requires j <= |code| && EvalFrom(code, j, m).Some?
    ensures Exec(f, b, i + j, m, fuel) == Exec(f, b, i + |code|, EvalFrom(code, j, m).value, fuel)
    decreases |code| - j
  {
    if j < |code| {
      assert f[b].insts[i + j] == code[j];
      ExecStraight(f, b, i, code, j + 1, Eval(code[j], m).value, fuel);
    }
  }

  lemma ReachesStraight(f: seq<Block>, b: nat, i: nat, code: seq<Inst>, m: Machine)
    requires b < |f| && i + |code| <= |f[b].insts| && f[b].insts[i..i + |code|] == code
    requires EvalAll(code, m).Some?
    ensures Reaches(f, Pc(b, i), m, 0, Pc(b, i + |code|), EvalAll(code, m).value)
  {
    forall k: nat
      ensures Later(f, Pc(b, i), m, 0, k) == Exec(f, b, i + |code|, EvalAll(code, m).value, k)
    {
      ExecStraight(f, b, i, code, 0, m, k);
    }
  }

  /** The instruction at `p` is a branch to `t`. */
  ghost predicate BranchesTo(f: seq<Block>, p: Pc, t: nat)
  {
    p.block < |f| && p.index < |f[p.block].insts| && f[p.block].insts[p.index] == Br(t)
  }

  /** An unconditional branch costs one unit of fuel. */
  lemma ReachesBr(f: seq<Block>, p: Pc, m: Machine, t: nat)
    requires BranchesTo(f, p, t)
    ensures Reaches(f, p, m, 1, Pc(t, 0), m)
  {
    forall k: nat
      ensures Later(f, p, m, 1, k) == Exec(f, t, 0, m, k)
    {
    }
  }

  /** A branch to a block that starts with a branch: two units of fuel. */
  lemma TwoBranches(f: seq<Block>, p: Pc, t: nat, u: nat, m: Machine)
    requires BranchesTo(f, p, t) && BranchesTo(f, Pc(t, 0), u)
    ensures Reaches(f, p, m, 2, Pc(u, 0), m)
  {
    ReachesBr(f, p, m, t);
    ReachesBr(f, Pc(t, 0), m, u);
    ReachesTransitive(f, p, m, 1, Pc(t, 0), m, 1, Pc(u, 0), m);
  }

  /** A conditional branch follows the flag register and costs one unit of fuel. */
  lemma ReachesCondBr(f: seq<Block>, b: nat, i: nat, m: Machine, t: nat, e: nat)
    requires b < |f| && i < |f[b].insts| && f[b].insts[i] == CondBr(t, e)
    ensures Reaches(f, Pc(b, i), m, 1, Pc(if m.regs.flag then t else e, 0), m)
  {
    var d := if m.regs.flag then t else e;
    forall k: nat
      ensures Later(f, Pc(b, i), m, 1, k) == Exec(f, d, 0, m, k)
    {
    }
  }

  /** Where `a` is a prefix of the block's code, the block holds `a` from position 0. */
  lemma PrefixAt(f: seq<Block>, b: nat, a: seq<Inst>, i: nat, n: nat)
    requires b < |f| && a <= f[b].insts && i + n <= |a|
    ensures i + n <= |f[b].insts| && f[b].insts[i..i + n] == a[i..i + n]
  {
    assert a == f[b].insts[..|a|];
  }

  /** A prefix is the first slice of its length. */
  lemma PrefixSlice<T>(a: seq<T>, s: seq<T>)
    requires a <= s
    ensures |a| <= |s| && s[0..|a|] == a
  {
  }

  /** The builder's position as a position in the function. */
  function At(g: Gen): Pc
    requires HasInsertPoint(g)
  {
    Pc(g.cur, Here(g))
  }

  /** The leaf's code runs from the insertion point to its end. */
  lemma LeafSim(kind: Kind, g: Gen, f: seq<Block>, s: State, regs: Regs)
    returns (regs': Regs)
    requires HasInsertPoint(g) && Extends(f, Lower(Instruction(kind), g)) && Step(kind, s).Some?
    ensures Reaches(f, At(g), Machine(s, regs), 0, At(Lower(Instruction(kind), g)), Machine(Step(kind, s).value, regs'))
  {
    var code := LeafCode(kind);
    var m := Machine(s, regs);
    LeafPlacement(kind, g, f);
    LeafCodeMatchesStep(kind, s, regs);
    ReachesStraight(f, g.cur, Here(g), code, m);
    regs' := EvalAll(code, m).value.regs;
    assert EvalAll(code, m).value == Machine(Step(kind, s).value, regs');
  }

  /** A leaf's code sits in `f` at the builder's position, which it moves past. */
  lemma LeafPlacement(kind: Kind, g: Gen, f: seq<Block>)
    requires HasInsertPoint(g) && Extends(f, Lower(Instruction(kind), g))
    ensures var code := LeafCode(kind);
      g.cur < |f| && Here(g) + |code| <= |f[g.cur].insts| && f[g.cur].insts[Here(g)..Here(g) + |code|] == code &&
      At(Lower(Instruction(kind), g)) == Pc(g.cur, Here(g) + |code|)
  {
    var r := Lower(Instruction(kind), g);
    var code := LeafCode(kind);
    assert r.blocks[g.cur].insts == g.blocks[g.cur].insts + code;
    PrefixAt(f, g.cur, r.blocks[g.cur].insts, Here(g), |code|);
  }

  /** A loop is entered by a branch to its `condition` block, and lowering it ends in `after_loop`. */
  lemma LoopEntry(c: seq<Node>, g: Gen, f: seq<Block>)
    requires Valid(g) && Extends(f, Lower(WhileLoop(c), g))
    ensures BranchesTo(f, At(g), |g.blocks|)
    ensures HasInsertPoint(Lower(WhileLoop(c), g)) && At(Lower(WhileLoop(c), g)) == Pc(|g.blocks| + 2, 0)
  {
    LoopBlocks(c, g);
    var insts := Lower(WhileLoop(c), g).blocks[g.cur].insts;
    PrefixAt(f, g.cur, insts, Here(g), 1);
    assert insts[Here(g)] == Br(|g.blocks|);
  }

  /**
    Lowering a node simulates running it: from the builder's position before
    lowering, the generated code reaches the position after lowering, in the
    state the reference interpreter computes.
  */
  lemma {:induction false} LowerSim(n: Node, g: Gen, f: seq<Block>, s: State, regs: Regs, fuel: nat)
    returns (gas: nat, regs': Regs)
    requires Valid(g) && Extends(f, Lower(n, g)) && Run(n, s, fuel).Some?
    ensures Reaches(f, At(g), Machine(s, regs), gas, At(Lower(n, g)), Machine(Run(n, s, fuel).value, regs'))
    decreases fuel, n, 1
  {
    match n
    case Instruction(kind) =>
      regs' := LeafSim(kind, g, f, s, regs);
      gas := 0;
    case Sequence(c) =>
      gas, regs' := LowerAllSim(c, g, f, s, regs, fuel);
    case WhileLoop(c) =>
      var m := Machine(s, regs);
      LoopEntry(c, g, f);
      ReachesBr(f, At(g), m, |g.blocks|);
      var lg, lr := LoopSim(c, g, f, s, regs, fuel);
      ReachesTransitive(f, At(g), m, 1, Pc(|g.blocks|, 0), m, lg, At(Lower(n, g)), Machine(RunLoop(c, s, fuel).value, lr));
      gas, regs' := 1 + lg, lr;
  }

  lemma {:induction false} LowerAllSim(c: seq<Node>, g: Gen, f: seq<Block>, s: State, regs: Regs, fuel: nat)
    returns (gas: nat, regs': Regs)
    requires Valid(g) && Extends(f, LowerAll(c, g)) && RunAll(c, s, fuel).Some?
    ensures Reaches(f, At(g), Machine(s, regs), gas, At(LowerAll(c, g)), Machine(RunAll(c, s, fuel).value, regs'))
    decreases fuel, c, 0
  {
    if |c| == 0 {
      gas, regs' := 0, regs;
    } else {
      var h := Lower(c[0], g);
      var r := LowerAll(c, g);
      assert r == LowerAll(c[1..], h);
      assert Valid(h) && Extends(f, h) by {
        LowerValid(c[0], g);
        LowerAllValid(c[1..], h);
        ExtendsEarlier(f, h, r);
      }
      var s1 := Run(c[0], s, fuel).value;
      assert RunAll(c, s, fuel) == RunAll(c[1..], s1, fuel);
      var g1, r1 := LowerSim(c[0], g, f, s, regs, fuel);
      var g2, r2 := LowerAllSim(c[1..], h, f, s1, r1, fuel);
      ReachesTransitive(f, At(g), Machine(s, regs), g1, At(h), Machine(s1, r1), g2, At(r), Machine(RunAll(c, s, fuel).value, r2));
      gas, regs' := g1 + g2, r2;
    }
  }

  /** A block holding the condition code and its branch, run from its start. */
  lemma ConditionBlockSim(f: seq<Block>, k0: nat, s: State, regs: Regs) returns (regs': Regs)
    requires k0 < |f| && ConditionCode + [CondBr(k0 + 1, k0 + 2)] <= f[k0].insts
    requires InBounds(s)
    ensures Reaches(f, Pc(k0, 0), Machine(s, regs), 1,
      Pc(if s.tape[s.ptr] != 0 then k0 + 1 else k0 + 2, 0), Machine(s, regs'))
  {
    ConditionPrefix(f[k0].insts, k0 + 1, k0 + 2);
    var m := Machine(s, regs);
    ConditionCodeEffect(s, regs);
    var m1 := EvalAll(ConditionCode, m).value;
    ReachesStraight(f, k0, 0, ConditionCode, m);
    ReachesCondBr(f, k0, 3, m1, k0 + 1, k0 + 2);
    regs' := m1.regs;
    assert m1 == Machine(s, regs');
    ReachesTransitive(f, Pc(k0, 0), m, 0, Pc(k0, 3), m1, 1,
      Pc(if s.tape[s.ptr] != 0 then k0 + 1 else k0 + 2, 0), Machine(s, regs'));
  }

  /** The condition block: from its start to the body or to `after_loop`. */
  lemma ConditionSim(c: seq<Node>, g: Gen, f: seq<Block>, s: State, regs: Regs)
    returns (regs': Regs)
    requires Valid(g) && Extends(f, Lower(WhileLoop(c), g)) && InBounds(s)
    ensures var k0 := |g.blocks|;
      Reaches(f, Pc(k0, 0), Machine(s, regs), 1, Pc(if s.tape[s.ptr] != 0 then k0 + 1 else k0 + 2, 0), Machine(s, regs'))
  {
    LoopCondition(c, g, f);
    regs' := ConditionBlockSim(f, |g.blocks|, s, regs);
  }

  /** A loop's `condition` block holds, in `f`, the test of the current cell and the conditional branch. */
  lemma LoopCondition(c: seq<Node>, g: Gen, f: seq<Block>)
    requires Valid(g) && Extends(f, Lower(WhileLoop(c), g))
    ensures var k0 := |g.blocks|;
      k0 < |f| && ConditionCode + [CondBr(k0 + 1, k0 + 2)] <= f[k0].insts
  {
    var k0 := |g.blocks|;
    var r := Lower(WhileLoop(c), g);
    ConditionInsts(c, g);
    assert r.blocks[k0].insts <= f[k0].insts;
  }

  /** The `condition` block as the builder leaves it. */
  lemma ConditionInsts(c: seq<Node>, g: Gen)
    requires Valid(g)
    ensures var k0 := |g.blocks|; var r := Lower(WhileLoop(c), g);
      k0 < |r.blocks| && r.blocks[k0].insts == ConditionCode + [CondBr(k0 + 1, k0 + 2)]
  {
    LoopBlocks(c, g);
  }

  /** Instructions that start with the condition code and its branch. */
  lemma ConditionPrefix(insts: seq<Inst>, t: nat, e: nat)
    requires ConditionCode + [CondBr(t, e)] <= insts
    ensures 4 <= |insts| && insts[0..3] == ConditionCode && insts[3] == CondBr(t, e)
  {
    assert insts[..4] == ConditionCode + [CondBr(t, e)];
    assert insts[0..3] == insts[..4][0..3];
  }

  /** The body of a loop is lowered from `loop_body_start` into blocks that end up in `f`. */
  lemma LoopBodyFrame(c: seq<Node>, g: Gen, f: seq<Block>)
    requires Valid(g) && Extends(f, Lower(WhileLoop(c), g))
    ensures Valid(LoopHead(g)) && At(LoopHead(g)) == Pc(|g.blocks| + 1, 0)
    ensures HasInsertPoint(LowerAll(c, LoopHead(g))) && Extends(f, LowerAll(c, LoopHead(g)))
  {
    var h := LoopHead(g);
    LoopHeadFrame(g);
    LoopHeadValid(g);
    LowerAllValid(c, h);
    ExtendsBeforeTail(f, LowerAll(c, h), |g.blocks|, |g.blocks| + 2);
  }

  /** In `f`, the block the body ends in branches to `loop_back`. */
  lemma BodyExitBranch(c: seq<Node>, g: Gen, f: seq<Block>)
    requires Valid(g) && Extends(f, Lower(WhileLoop(c), g))
    ensures var body := LowerAll(c, LoopHead(g));
      HasInsertPoint(body) && BranchesTo(f, At(body), |Lower(WhileLoop(c), g).blocks| - 1)
  {
    var r := Lower(WhileLoop(c), g);
    var body := LowerAll(c, LoopHead(g));
    LoopBodyExit(c, g);
    var exit := r.blocks[body.cur].insts;
    PrefixAt(f, body.cur, exit, Here(body), 1);
    assert exit[Here(body)] == Br(|r.blocks| - 1);
  }

  /** In `f`, `loop_back` branches to `condition`. */
  lemma BackBranch(c: seq<Node>, g: Gen, f: seq<Block>)
    requires Valid(g) && Extends(f, Lower(WhileLoop(c), g))
    ensures var back := |Lower(WhileLoop(c), g).blocks| - 1;
      0 <= back && BranchesTo(f, Pc(back, 0), |g.blocks|)
  {
    var r := Lower(WhileLoop(c), g);
    LoopBlocks(c, g);
    PrefixAt(f, |r.blocks| - 1, r.blocks[|r.blocks| - 1].insts, 0, 1);
  }

  /**
    One run of a loop, iteration by iteration: from the start of the
    `condition` block to the start of `after_loop`.
  */
  lemma {:induction false} LoopSim(c: seq<Node>, g: Gen, f: seq<Block>, s: State, regs: Regs, fuel: nat)
    returns (gas: nat, regs': Regs)
    requires Valid(g) && Extends(f, Lower(WhileLoop(c), g)) && RunLoop(c, s, fuel).Some?
    ensures Reaches(f, Pc(|g.blocks|, 0), Machine(s, regs), gas, Pc(|g.blocks| + 2, 0),
      Machine(RunLoop(c, s, fuel).value, regs'))
    decreases fuel, c, 2
  {
    var k0 := |g.blocks|;
    var cr := ConditionSim(c, g, f, s, regs);
    if s.tape[s.ptr] == 0 {
      assert RunLoop(c, s, fuel) == Some(s);
      gas, regs' := 1, cr;
    } else {
      var ig, ir := LoopIterationSim(c, g, f, s, cr, fuel);
      ReachesTransitive(f, Pc(k0, 0), Machine(s, regs), 1, Pc(k0 + 1, 0), Machine(s, cr),
        ig, Pc(k0 + 2, 0), Machine(RunLoop(c, s, fuel).value, ir));
      gas, regs' := 1 + ig, ir;
    }
  }

  /** From `loop_body_start`, with a non-zero cell: the body runs, the back
      edge returns to `condition`, and the rest of the loop follows. */
  lemma {:induction false} LoopIterationSim(c: seq<Node>, g: Gen, f: seq<Block>, s: State, regs: Regs, fuel: nat)
    returns (gas: nat, regs': Regs)
    requires Valid(g) && Extends(f, Lower(WhileLoop(c), g)) && RunLoop(c, s, fuel).Some?
    requires InBounds(s) && s.tape[s.ptr] != 0
    ensures Reaches(f, Pc(|g.blocks| + 1, 0), Machine(s, regs), gas, Pc(|g.blocks| + 2, 0),
      Machine(RunLoop(c, s, fuel).value, regs'))
    decreases fuel, c, 1
  {
    var k0 := |g.blocks|;
    var h := LoopHead(g);
    var body := LowerAll(c, h);
    LoopBodyFrame(c, g, f);
    var s1 := RunAll(c, s, fuel - 1).value;
    assert RunLoop(c, s, fuel) == RunLoop(c, s1, fuel - 1);
    var bg, br := LowerAllSim(c, h, f, s, regs, fuel - 1);
    var back := |Lower(WhileLoop(c), g).blocks| - 1;
    BodyExitBranch(c, g, f);
    BackBranch(c, g, f);
    TwoBranches(f, At(body), back, k0, Machine(s1, br));
    var ig, ir := LoopSim(c, g, f, s1, br, fuel - 1);
    ReachesChain(f, Pc(k0 + 1, 0), Machine(s, regs), bg, At(body), Machine(s1, br),
      2, Pc(k0, 0), Machine(s1, br), ig, Pc(k0 + 2, 0), Machine(RunLoop(c, s, fuel).value, ir));
    gas, regs' := bg + 2 + ig, ir;
  }

  /** The builder state after the entry code, before the program is lowered. */
  function EntryGen(): (g: Gen)
    ensures HasInsertPoint(g)
  {
    Emit(Gen([Block("entry", [])], 0), EntryCode)
  }

  /** Where the pieces of `Generate` sit in the function it returns. */
  lemma GenerateLayout(root: Node)
    ensures var f := Generate(root); var g0 := EntryGen(); var g1 := Lower(root, g0);
      Valid(g0) && At(g0) == Pc(0, 3) && Extends(f, g1) &&
      EntryCode <= f[0].insts &&
      Here(g1) < |f[g1.cur].insts| && f[g1.cur].insts[Here(g1)] == Br(|g1.blocks|) &&
      |g1.blocks| < |f| && f[|g1.blocks|].insts == [Ret(0)]
  {
    var f := Generate(root);
    var g := Gen([Block("entry", [])], 0);
    var g0 := EntryGen();
    var g1 := Lower(root, g0);
    var e := |g1.blocks|;
    StraightLineCode(Kind.PutChar);
    EmitValid(g, EntryCode);
    assert [] + EntryCode == EntryCode;
    assert g0.blocks == [Block("entry", EntryCode)];
    LowerValid(root, g0);
    GenerateUnfolds(root);
    assert f[g1.cur].insts == g1.blocks[g1.cur].insts + [Br(e)];
    assert EntryCode <= g1.blocks[0].insts <= f[0].insts;
  }

  /** Arriving at a `ret 0` ends the run with exit status 0 in that machine. */
  lemma ReachesRet(f: seq<Block>, p: Pc, m: Machine, gas: nat, q: Pc, m': Machine)
    requires Reaches(f, p, m, gas, q, m')
    requires q.block < |f| && q.index < |f[q.block].insts| && f[q.block].insts[q.index] == Ret(0)
    ensures forall fuel': nat | gas <= fuel' :: Exec(f, p.block, p.index, m, fuel') == Some(Exit(0, m'))
  {
    forall fuel': nat | gas <= fuel'
      ensures Exec(f, p.block, p.index, m, fuel') == Some(Exit(0, m'))
    {
      assert Later(f, p, m, gas, fuel' - gas) == Exec(f, q.block, q.index, m', fuel' - gas);
    }
  }

  /** The entry block's code: `current_ptr` starts at cell 0, whatever it held. */
  lemma EntrySim(root: Node, s: State, junk: int, regs: Regs)
    requires s.ptr == 0
    ensures Reaches(Generate(root), Pc(0, 0), Machine(s.(ptr := junk), regs), 0, At(EntryGen()), Machine(s, regs.(ptr := 0)))
  {
    var f := Generate(root);
    var m0 := Machine(s.(ptr := junk), regs);
    assert EntryCode <= f[0].insts && At(EntryGen()) == Pc(0, 3) by {
      GenerateLayout(root);
    }
    PrefixSlice(EntryCode, f[0].insts);
    EntryCodeEffect(s.(ptr := junk), regs);
    assert s.(ptr := junk).(ptr := 0) == s;
    ReachesStraight(f, 0, 0, EntryCode, m0);
  }

  /** The branch from the end of the program to `end`. */
  lemma ExitSim(root: Node, m: Machine)
    ensures var g1 := Lower(root, EntryGen()); var e := |g1.blocks|;
      HasInsertPoint(g1) && Reaches(Generate(root), At(g1), m, 1, Pc(e, 0), m) &&
      e < |Generate(root)| && Generate(root)[e].insts == [Ret(0)]
  {
    var f := Generate(root);
    var g1 := Lower(root, EntryGen());
    GenerateLayout(root);
    ReachesBr(f, At(g1), m, |g1.blocks|);
  }

  /** The generated function simulates the tree from the end of the entry code to the branch to `end`. */
  lemma ProgramSim(root: Node, s: State, regs: Regs, fuel: nat) returns (gas: nat, regs': Regs)
    requires Run(root, s, fuel).Some?
    ensures HasInsertPoint(Lower(root, EntryGen()))
    ensures Reaches(Generate(root), At(EntryGen()), Machine(s, regs), gas,
      At(Lower(root, EntryGen())), Machine(Run(root, s, fuel).value, regs'))
  {
    var f := Generate(root);
    var g0 := EntryGen();
    assert Valid(g0) && Extends(f, Lower(root, g0)) by {
      GenerateLayout(root);
    }
    gas, regs' := LowerSim(root, g0, f, s, regs, fuel);
  }

  /** Three legs ending at a `ret 0` make a run that exits with status 0. */
  lemma RunsToRet(f: seq<Block>, p0: Pc, m0: Machine, a: nat, p1: Pc, m1: Machine, b: nat, p2: Pc, m2: Machine,
                  c: nat, e: nat, m3: Machine)
    requires Reaches(f, p0, m0, a, p1, m1) && Reaches(f, p1, m1, b, p2, m2) && Reaches(f, p2, m2, c, Pc(e, 0), m3)
    requires e < |f| && f[e].insts == [Ret(0)]
    ensures forall fuel': nat :: a + b + c <= fuel' ==> Exec(f, p0.block, p0.index, m0, fuel') == Some(Exit(0, m3))
  {
    ReachesTransitive(f, p0, m0, a, p1, m1, b, p2, m2);
    ReachesTransitive(f, p0, m0, a + b, p2, m2, c, Pc(e, 0), m3);
    ReachesRet(f, p0, m0, a + b + c, Pc(e, 0), m3);
  }

  /**
    The generated function agrees with the reference interpreter: when the
    tree runs to completion from the zero tape, `main` returns 0 in the same
    state, whatever `current_ptr` and the registers held at entry.
  */
  lemma GenerateAgrees(root: Node, input: seq<int>, junk: int, regs: Regs, fuel: nat)
    returns (gas: nat, m: Machine)
    requires Run(root, Initial(input), fuel).Some?
    ensures m.mem == Run(root, Initial(input), fuel).value
    ensures forall fuel': nat :: gas <= fuel' ==>
      Exec(Generate(root), 0, 0, Machine(Initial(input).(ptr := junk), regs), fuel') == Some(Exit(0, m))
  {
    var s := Initial(input);
    var g1 := Lower(root, EntryGen());
    EntrySim(root, s, junk, regs);
    var lg, lr := ProgramSim(root, s, regs.(ptr := 0), fuel);
    m := Machine(Run(root, s, fuel).value, lr);
    ExitSim(root, m);
    RunsToRet(Generate(root), Pc(0, 0), Machine(s.(ptr := junk), regs), 0, At(EntryGen()), Machine(s, regs.(ptr := 0)),
      lg, At(g1), m, 1, |g1.blocks|, m);
    gas := lg + 1;
  }
}
