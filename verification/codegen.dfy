/**
  The code generator: a visitor that lowers the tree into the blocks of
  `main`. The IRBuilder's state is a `Gen`: the blocks created so far, in
  creation order, and the block the builder currently appends to.
*/
module CodeGen {
  import opened Ast
  import opened Ir

  datatype Gen = Gen(blocks: seq<Block>, cur: nat)

  /** The builder has an insertion block. */
  predicate HasInsertPoint(g: Gen)
  {
    g.cur < |g.blocks|
  }

  /** Append instructions at the insertion point; every other block stays as it was. */
  function Emit(g: Gen, code: seq<Inst>): (r: Gen)
    requires HasInsertPoint(g)
    ensures HasInsertPoint(r) && r.cur == g.cur && |r.blocks| == |g.blocks|
    ensures r.blocks[g.cur] == Block(g.blocks[g.cur].name, g.blocks[g.cur].insts + code)
  {
    var b := g.blocks[g.cur];
    g.(blocks := g.blocks[g.cur := Block(b.name, b.insts + code)])
  }

  /** Emitting touches no block but the insertion block. */
  lemma EmitFrame(g: Gen, code: seq<Inst>)
    requires HasInsertPoint(g)
    ensures forall i :: 0 <= i < |g.blocks| && i != g.cur ==> Emit(g, code).blocks[i] == g.blocks[i]
  {
  }

  /** `BasicBlock::Create(ctx, name, main)`: a new empty block at the end; returns its index. */
  function Create(g: Gen, name: string): (r: (Gen, nat))
    ensures r.0.cur == g.cur && |r.0.blocks| == |g.blocks| + 1 && r.1 == |g.blocks|
    ensures r.0.blocks[r.1] == Block(name, [])
  {
    (g.(blocks := g.blocks + [Block(name, [])]), |g.blocks|)
  }

  /** Creating a block leaves the blocks created before it as they were. */
  lemma CreateFrame(g: Gen, name: string)
    ensures Create(g, name).0.blocks[..|g.blocks|] == g.blocks
  {
  }

  /** The code of each leaf, one instruction per IRBuilder call; none of it branches. */
  function LeafCode(k: Kind): (r: seq<Inst>)
    ensures 0 < |r| && forall i :: 0 <= i < |r| ==> !IsTerminator(r[i])
  {
    match k
    case PointerIncrement => [LoadPtr, OffsetPtr(1), StorePtr]
    case PointerDecrement => [LoadPtr, OffsetPtr(-1), StorePtr]
    case ValueIncrement => [LoadPtr, LoadByte, AddByte(1), StoreByte]
    case ValueDecrement => [LoadPtr, LoadByte, SubByte(1), StoreByte]
    case PutChar => OutputCode
    case GetChar => [CallGetchar, TruncateWord, LoadPtr, StoreByte]
  }

  /** `output_current_value`: putchar of the sign-extended cell, then fflush(stdout). */
  const OutputCode: seq<Inst> := [LoadPtr, LoadByte, ExtendByte, CallPutchar, LoadStdout, CallFflush]

  /** The condition block's code before its branch: `*(*current_ptr) != 0`. */
  const ConditionCode: seq<Inst> := [LoadPtr, LoadByte, CompareNonZero]

  /** The code allocating `current_ptr` and pointing it at cell 0. */
  const EntryCode: seq<Inst> := [AllocPtr, ArrayStart, StorePtr]

  /** `accept` on a node with the code generator as visitor. */
  function Lower(n: Node, g: Gen): (r: Gen)
    requires HasInsertPoint(g)
    ensures HasInsertPoint(r) && |r.blocks| == |g.blocks| + 4 * LoopCount(n)
    decreases n, 1
  {
    match n
    case Instruction(k) => Emit(g, LeafCode(k))
    case Sequence(c) => LowerAll(c, g)
    case WhileLoop(c) =>
      var g1 := LoopHead(g);
      LoopTail(LowerAll(c, g1), |g.blocks|, |g.blocks| + 2)
  }

  /**
    The start of a loop's lowering: branch from the current block to a new
    `condition` block, create `loop_body_start` and `after_loop`, fill the
    condition block, and continue in the body block.
  */
  function LoopHead(g: Gen): (r: Gen)
    requires HasInsertPoint(g)
    ensures HasInsertPoint(r) && |r.blocks| == |g.blocks| + 3 && r.cur == |g.blocks| + 1
  {
    var (g1, cond) := Create(g, "condition");
    var g2 := Emit(g1, [Br(cond)]).(cur := cond);
    var (g3, body) := Create(g2, "loop_body_start");
    var (g4, after) := Create(g3, "after_loop");
    Emit(g4, ConditionCode + [CondBr(body, after)]).(cur := body)
  }

  /**
    The end of a loop's lowering, after its body: branch to a new `loop_back`
    block, which branches to the condition block, and continue in `after_loop`.
  */
  function LoopTail(g: Gen, cond: nat, after: nat): (r: Gen)
    requires HasInsertPoint(g) && after < |g.blocks|
    ensures HasInsertPoint(r) && |r.blocks| == |g.blocks| + 1 && r.cur == after
  {
    var (g1, back) := Create(g, "loop_back");
    var g2 := Emit(g1, [Br(back)]).(cur := back);
    Emit(g2, [Br(cond)]).(cur := after)
  }

  /** The visitor's loop over the children of a sequence or loop body, in order. */
  function LowerAll(c: seq<Node>, g: Gen): (r: Gen)
    requires HasInsertPoint(g)
    ensures HasInsertPoint(r) && |r.blocks| == |g.blocks| + 4 * LoopCountAll(c)
    decreases c, 0
  {
    if |c| == 0 then g else LowerAll(c[1..], Lower(c[0], g))
  }

  /** `generate_code`: the entry block, the program, then the `end` block returning 0. */
  function Generate(root: Node): (f: seq<Block>)
    ensures |f| == 2 + 4 * LoopCount(root)
  {
    var g0 := Emit(Gen([Block("entry", [])], 0), EntryCode);
    var g1 := Lower(root, g0);
    var (g2, end) := Create(g1, "end");
    var g3 := Emit(g2, [Br(end)]).(cur := end);
    Emit(g3, [Ret(0)]).blocks
  }
}
