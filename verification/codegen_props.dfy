/**
  Structural facts about the generated function: how many blocks it has,
  that every block ends in exactly one terminator, that every branch names a
  block of the function, and how each loop's four blocks are wired.
*/
module CodeGenProps {
  import opened Ast
  import opened Ir
  import opened CodeGen

  /** A block that is still being filled, or one that is finished. */
  predicate WellFormed(b: Block, n: nat)
  {
    (Open(b) || Closed(b)) && TargetsBelow(b, n)
  }

  /** The builder invariant: the insertion block is open and every block is well formed. */
  ghost predicate Valid(g: Gen)
  {
    HasInsertPoint(g) && Open(g.blocks[g.cur]) &&
    forall i :: 0 <= i < |g.blocks| ==> WellFormed(g.blocks[i], |g.blocks|)
  }

  /**
    How lowering changes the builder: blocks other than the insertion block are
    untouched, the insertion block only gains instructions, and every block it
    leaves behind, old or new, is finished.
  */
  ghost predicate Grows(g: Gen, r: Gen)
  {
    HasInsertPoint(g) && HasInsertPoint(r) && |g.blocks| <= |r.blocks| &&
    (forall i :: 0 <= i < |g.blocks| && i != g.cur ==> r.blocks[i] == g.blocks[i]) &&
    r.blocks[g.cur].name == g.blocks[g.cur].name &&
    g.blocks[g.cur].insts <= r.blocks[g.cur].insts &&
    (r.cur == g.cur || |g.blocks| <= r.cur) &&
    (r.cur != g.cur ==> Closed(r.blocks[g.cur])) &&
    (forall i :: |g.blocks| <= i < |r.blocks| && i != r.cur ==> Closed(r.blocks[i]))
  }

  lemma GrowsReflexive(g: Gen)
    requires HasInsertPoint(g)
    ensures Grows(g, g)
  {
  }

  lemma GrowsTransitive(g: Gen, h: Gen, r: Gen)
    requires Grows(g, h) && Grows(h, r)
    ensures Grows(g, r)
  {
    if h.cur == g.cur {
      assert g.blocks[g.cur].insts <= h.blocks[g.cur].insts <= r.blocks[g.cur].insts;
    }
  }

  /** Appending non-terminators keeps a block open. */
  lemma AppendKeepsOpen(b: Block, code: seq<Inst>, n: nat)
    requires Open(b) && forall i :: 0 <= i < |code| ==> !IsTerminator(code[i])
    ensures Open(Block(b.name, b.insts + code)) && TargetsBelow(Block(b.name, b.insts + code), n)
  {
    var insts := b.insts + code;
    forall i | 0 <= i < |insts|
      ensures !IsTerminator(insts[i])
    {
      if i >= |b.insts| {
        assert insts[i] == code[i - |b.insts|];
      }
    }
  }

  /** Appending one terminator to an open block finishes it. */
  lemma AppendCloses(b: Block, t: Inst, n: nat)
    requires Open(b) && IsTerminator(t) && forall j :: 0 <= j < |Successors(t)| ==> Successors(t)[j] < n
    ensures Closed(Block(b.name, b.insts + [t])) && TargetsBelow(Block(b.name, b.insts + [t]), n)
  {
    var insts := b.insts + [t];
    assert insts[|insts| - 1] == t;
    forall i | 0 <= i < |insts| - 1
      ensures !IsTerminator(insts[i])
    {
      assert insts[i] == b.insts[i];
    }
  }

  lemma TargetsBelowGrows(b: Block, n: nat, n': nat)
    requires TargetsBelow(b, n) && n <= n'
    ensures TargetsBelow(b, n')
  {
  }

  /** No instruction list the generator appends before a branch contains a terminator. */
  lemma StraightLineCode(k: Kind)
    ensures forall i :: 0 <= i < |LeafCode(k)| ==> !IsTerminator(LeafCode(k)[i])
    ensures forall i :: 0 <= i < |ConditionCode| ==> !IsTerminator(ConditionCode[i])
    ensures forall i :: 0 <= i < |EntryCode| ==> !IsTerminator(EntryCode[i])
  {
  }

  /** The blocks after `LoopHead`, written out. */
  lemma LoopHeadShape(g: Gen)
    requires HasInsertPoint(g)
    ensures var k := |g.blocks|; var b := g.blocks[g.cur];
      LoopHead(g).blocks ==
        g.blocks[g.cur := Block(b.name, b.insts + [Br(k)])] +
        [Block("condition", ConditionCode + [CondBr(k + 1, k + 2)]),
         Block("loop_body_start", []),
         Block("after_loop", [])]
  {
    var k := |g.blocks|;
    var b := g.blocks[g.cur];
    var g1 := Create(g, "condition").0;
    assert g1.blocks == g.blocks + [Block("condition", [])];
    var g2 := Emit(g1, [Br(k)]).(cur := k);
    assert g2.blocks == g.blocks[g.cur := Block(b.name, b.insts + [Br(k)])] + [Block("condition", [])];
    var g4 := Create(Create(g2, "loop_body_start").0, "after_loop").0;
    assert g4.blocks == g2.blocks + [Block("loop_body_start", []), Block("after_loop", [])];
    var g5 := Emit(g4, ConditionCode + [CondBr(k + 1, k + 2)]).(cur := k + 1);
    assert g5 == LoopHead(g);
    assert g5.blocks[k] == Block("condition", ConditionCode + [CondBr(k + 1, k + 2)]);
  }

  /** The blocks after `LoopTail`, written out. */
  lemma LoopTailShape(g: Gen, cond: nat, after: nat)
    requires HasInsertPoint(g) && after < |g.blocks|
    ensures var b := g.blocks[g.cur];
      LoopTail(g, cond, after).blocks ==
        g.blocks[g.cur := Block(b.name, b.insts + [Br(|g.blocks|)])] + [Block("loop_back", [Br(cond)])]
  {
    var b := g.blocks[g.cur];
    var back := |g.blocks|;
    var g1 := Create(g, "loop_back").0;
    assert g1.blocks == g.blocks + [Block("loop_back", [])];
    var g2 := Emit(g1, [Br(back)]).(cur := back);
    assert g2.blocks == g.blocks[g.cur := Block(b.name, b.insts + [Br(back)])] + [Block("loop_back", [])];
    var g3 := Emit(g2, [Br(cond)]).(cur := after);
    assert g3 == LoopTail(g, cond, after);
    assert g3.blocks[back] == Block("loop_back", [Br(cond)]);
  }

  /** Emitting straight-line code keeps the invariant and only extends the insertion block. */
  lemma EmitValid(g: Gen, code: seq<Inst>)
    requires Valid(g) && forall i :: 0 <= i < |code| ==> !IsTerminator(code[i])
    ensures Valid(Emit(g, code)) && Grows(g, Emit(g, code))
  {
    AppendKeepsOpen(g.blocks[g.cur], code, |g.blocks|);
  }

  /** The condition block is finished and branches into the loop's blocks. */
  lemma ConditionBlockClosed(k: nat)
    ensures Closed(Block("condition", ConditionCode + [CondBr(k + 1, k + 2)]))
    ensures TargetsBelow(Block("condition", ConditionCode + [CondBr(k + 1, k + 2)]), k + 3)
  {
    StraightLineCode(Kind.PutChar);
    AppendKeepsOpen(Block("condition", []), ConditionCode, k + 3);
    assert Block("condition", []).insts + ConditionCode == ConditionCode;
    AppendCloses(Block("condition", ConditionCode), CondBr(k + 1, k + 2), k + 3);
  }

  /** What `LoopHead` leaves in each block. */
  lemma LoopHeadFrame(g: Gen)
    requires HasInsertPoint(g)
    ensures var h := LoopHead(g); var k := |g.blocks|; var b := g.blocks[g.cur];
      |h.blocks| == k + 3 && h.cur == k + 1 &&
      h.blocks[g.cur] == Block(b.name, b.insts + [Br(k)]) &&
      (forall i :: 0 <= i < k && i != g.cur ==> h.blocks[i] == g.blocks[i]) &&
      h.blocks[k] == Block("condition", ConditionCode + [CondBr(k + 1, k + 2)]) &&
      h.blocks[k + 1] == Block("loop_body_start", []) &&
      h.blocks[k + 2] == Block("after_loop", [])
  {
    LoopHeadShape(g);
  }

  /** After `LoopHead` every block is well formed and the body block is open. */
  lemma LoopHeadValid(g: Gen)
    requires Valid(g)
    ensures Valid(LoopHead(g))
  {
    var k := |g.blocks|;
    var b := g.blocks[g.cur];
    var h := LoopHead(g);
    LoopHeadFrame(g);
    forall i | 0 <= i < k + 3
      ensures WellFormed(h.blocks[i], k + 3)
    {
      if i == g.cur {
        AppendCloses(b, Br(k), k + 3);
      } else if i < k {
        TargetsBelowGrows(g.blocks[i], k, k + 3);
      } else if i == k {
        ConditionBlockClosed(k);
      }
    }
  }

  /** The body's last block gains its branch to `loop_back`, a finished block. */
  lemma BackBranchCloses(r: Gen)
    requires Valid(r)
    ensures var back := |r.blocks|;
      Closed(Block(r.blocks[r.cur].name, r.blocks[r.cur].insts + [Br(back)])) &&
      TargetsBelow(Block(r.blocks[r.cur].name, r.blocks[r.cur].insts + [Br(back)]), back + 1)
  {
    AppendCloses(r.blocks[r.cur], Br(|r.blocks|), |r.blocks| + 1);
  }

  /** After `LoopTail` every block is well formed and `after_loop` is open. */
  lemma LoopTailValid(g: Gen, h: Gen, r: Gen)
    requires Valid(g) && h == LoopHead(g) && Valid(r) && Grows(h, r)
    ensures Valid(LoopTail(r, |g.blocks|, |g.blocks| + 2))
  {
    var k := |g.blocks|;
    var t := LoopTail(r, k, k + 2);
    var back := |r.blocks|;
    LoopHeadFrame(g);
    LoopTailShape(r, k, k + 2);
    BackBranchCloses(r);
    assert t.blocks[k + 2] == h.blocks[k + 2];
    forall i | 0 <= i < back + 1
      ensures WellFormed(t.blocks[i], back + 1)
    {
      if i < back && i != r.cur {
        TargetsBelowGrows(r.blocks[i], back, back + 1);
      }
    }
  }

  /** `LoopTail` finishes every block the loop created except `after_loop`. */
  lemma LoopTailGrows(g: Gen, h: Gen, r: Gen)
    requires Valid(g) && h == LoopHead(g) && Valid(r) && Grows(h, r)
    ensures Grows(g, LoopTail(r, |g.blocks|, |g.blocks| + 2))
  {
    var k := |g.blocks|;
    var b := g.blocks[g.cur];
    var t := LoopTail(r, k, k + 2);
    var back := |r.blocks|;
    LoopHeadFrame(g);
    LoopTailShape(r, k, k + 2);
    BackBranchCloses(r);
    AppendCloses(b, Br(k), k + 3);
    ConditionBlockClosed(k);
    assert t.blocks[g.cur] == h.blocks[g.cur];
    assert b.insts <= b.insts + [Br(k)];
    forall i | k <= i < back + 1 && i != t.cur
      ensures Closed(t.blocks[i])
    {
    }
  }

  /** Lowering any node keeps the builder invariant. */
  lemma {:induction false} LowerValid(n: Node, g: Gen)
    requires Valid(g)
    ensures Valid(Lower(n, g)) && Grows(g, Lower(n, g))
    decreases n, 1
  {
    match n
    case Instruction(k) =>
      StraightLineCode(k);
      EmitValid(g, LeafCode(k));
    case Sequence(c) =>
      LowerAllValid(c, g);
    case WhileLoop(c) =>
      var h := LoopHead(g);
      LoopHeadValid(g);
      LowerAllValid(c, h);
      LoopTailValid(g, h, LowerAll(c, h));
      LoopTailGrows(g, h, LowerAll(c, h));
  }

  lemma {:induction false} LowerAllValid(c: seq<Node>, g: Gen)
    requires Valid(g)
    ensures Valid(LowerAll(c, g)) && Grows(g, LowerAll(c, g))
    decreases c, 0
  {
    if |c| == 0 {
      GrowsReflexive(g);
    } else {
      var h := Lower(c[0], g);
      LowerValid(c[0], g);
      LowerAllValid(c[1..], h);
      GrowsTransitive(g, h, LowerAll(c[1..], h));
    }
  }

  /** The number of terminators in a list of instructions. */
  function TerminatorCount(insts: seq<Inst>): nat
    decreases |insts|
  {
    if |insts| == 0 then 0
    else (if IsTerminator(insts[0]) then 1 else 0) + TerminatorCount(insts[1..])
  }

  lemma {:induction false} NoTerminatorCount(insts: seq<Inst>)
    requires forall i :: 0 <= i < |insts| ==> !IsTerminator(insts[i])
    ensures TerminatorCount(insts) == 0
    decreases |insts|
  {
    if |insts| > 0 {
      assert forall i :: 0 <= i < |insts[1..]| ==> insts[1..][i] == insts[i + 1];
      NoTerminatorCount(insts[1..]);
    }
  }

  lemma {:induction false} ZeroCountNoTerminator(insts: seq<Inst>)
    requires TerminatorCount(insts) == 0
    ensures forall i :: 0 <= i < |insts| ==> !IsTerminator(insts[i])
    decreases |insts|
  {
    if |insts| > 0 {
      ZeroCountNoTerminator(insts[1..]);
      forall i | 1 <= i < |insts|
        ensures !IsTerminator(insts[i])
      {
        assert insts[i] == insts[1..][i - 1];
      }
    }
  }

  lemma {:induction false} TerminatorCountAppend(a: seq<Inst>, b: seq<Inst>)
    ensures TerminatorCount(a + b) == TerminatorCount(a) + TerminatorCount(b)
    decreases |a|
  {
    if |a| == 0 {
      assert a + b == b;
    } else {
      assert (a + b)[1..] == a[1..] + b;
      TerminatorCountAppend(a[1..], b);
    }
  }

  /** A finished block holds exactly one terminator, its last instruction, and conversely. */
  lemma ClosedMeansOneTerminator(b: Block)
    ensures Closed(b) <==>
      |b.insts| > 0 && IsTerminator(b.insts[|b.insts| - 1]) && TerminatorCount(b.insts) == 1
  {
    if |b.insts| > 0 {
      var n := |b.insts| - 1;
      assert b.insts == b.insts[..n] + [b.insts[n]];
      TerminatorCountAppend(b.insts[..n], [b.insts[n]]);
      assert TerminatorCount([b.insts[n]]) == (if IsTerminator(b.insts[n]) then 1 else 0) + TerminatorCount([]);
      if Closed(b) {
        assert forall i :: 0 <= i < n ==> b.insts[..n][i] == b.insts[i];
        NoTerminatorCount(b.insts[..n]);
      }
      if IsTerminator(b.insts[n]) && TerminatorCount(b.insts) == 1 {
        ZeroCountNoTerminator(b.insts[..n]);
        assert forall i :: 0 <= i < n ==> b.insts[..n][i] == b.insts[i];
      }
    }
  }

  /** The blocks of `Generate`, written out around the lowered program. */
  lemma GenerateUnfolds(root: Node)
    ensures var g1 := Lower(root, Emit(Gen([Block("entry", [])], 0), EntryCode));
      var b := g1.blocks[g1.cur];
      Generate(root) ==
        g1.blocks[g1.cur := Block(b.name, b.insts + [Br(|g1.blocks|)])] + [Block("end", [Ret(0)])]
  {
    var g1 := Lower(root, Emit(Gen([Block("entry", [])], 0), EntryCode));
    var b := g1.blocks[g1.cur];
    var e := |g1.blocks|;
    var g2 := Create(g1, "end").0;
    assert g2.blocks == g1.blocks + [Block("end", [])];
    var g3 := Emit(g2, [Br(e)]).(cur := e);
    assert g3.blocks == g1.blocks[g1.cur := Block(b.name, b.insts + [Br(e)])] + [Block("end", [])];
    assert [] + [Ret(0)] == [Ret(0)];
    assert Emit(g3, [Ret(0)]).blocks ==
      g1.blocks[g1.cur := Block(b.name, b.insts + [Br(e)])] + [Block("end", [Ret(0)])];
  }

  /** The builder after the entry code: one open block holding `EntryCode`. */
  lemma EntryValid()
    ensures var g0 := Emit(Gen([Block("entry", [])], 0), EntryCode);
      Valid(g0) && g0.cur == 0 && g0.blocks == [Block("entry", EntryCode)]
  {
    var g := Gen([Block("entry", [])], 0);
    StraightLineCode(Kind.PutChar);
    EmitValid(g, EntryCode);
    assert [] + EntryCode == EntryCode;
  }

  /** Once the `end` block is added and branched to, every block is finished. */
  lemma FinishedBlock(g0: Gen, g1: Gen, i: nat)
    requires Valid(g1) && Grows(g0, g1) && |g0.blocks| == 1 && g0.cur == 0 && i <= |g1.blocks|
    ensures var b := g1.blocks[g1.cur]; var e := |g1.blocks|;
      var f := g1.blocks[g1.cur := Block(b.name, b.insts + [Br(e)])] + [Block("end", [Ret(0)])];
      Closed(f[i]) && TerminatorCount(f[i].insts) == 1 && TargetsBelow(f[i], |f|)
  {
    var b := g1.blocks[g1.cur];
    var e := |g1.blocks|;
    var last := Block(b.name, b.insts + [Br(e)]);
    var f := g1.blocks[g1.cur := last] + [Block("end", [Ret(0)])];
    UpdateAppendAt(g1.blocks, g1.cur, last, Block("end", [Ret(0)]), i);
    if i == e {
      AppendCloses(Block("end", []), Ret(0), e + 1);
      assert [] + [Ret(0)] == [Ret(0)];
    } else if i == g1.cur {
      AppendCloses(b, Br(e), e + 1);
    } else {
      EarlierBlockClosed(g0, g1, i);
      TargetsBelowGrows(g1.blocks[i], e, e + 1);
    }
    ClosedMeansOneTerminator(f[i]);
  }

  /** Updating one element of a sequence and appending another. */
  lemma UpdateAppendAt<T>(s: seq<T>, j: nat, v: T, w: T, i: nat)
    requires j < |s| && i <= |s|
    ensures (s[j := v] + [w])[i] == if i == |s| then w else if i == j then v else s[i]
  {
  }

  /** A block the builder has left behind is closed, and branches only within the builder. */
  lemma EarlierBlockClosed(g0: Gen, g1: Gen, i: nat)
    requires Valid(g1) && Grows(g0, g1) && |g0.blocks| == 1 && g0.cur == 0 && i < |g1.blocks| && i != g1.cur
    ensures Closed(g1.blocks[i]) && TargetsBelow(g1.blocks[i], |g1.blocks|)
  {
    assert WellFormed(g1.blocks[i], |g1.blocks|);
  }

  /**
    The generated function: entry block first, `end` last returning 0,
    2 + 4 * loops blocks, each finished by exactly one terminator, and every
    branch naming a block of the function.
  */
  lemma GenerateWellFormed(root: Node)
    ensures var f := Generate(root);
      |f| == 2 + 4 * LoopCount(root) &&
      f[0].name == "entry" && EntryCode <= f[0].insts &&
      f[|f| - 1] == Block("end", [Ret(0)]) &&
      forall i :: 0 <= i < |f| ==>
        Closed(f[i]) && TerminatorCount(f[i].insts) == 1 && TargetsBelow(f[i], |f|)
  {
    var g0 := Emit(Gen([Block("entry", [])], 0), EntryCode);
    var g1 := Lower(root, g0);
    var f := Generate(root);
    var e := |g1.blocks|;
    assert Valid(g1) && Grows(g0, g1) && g0.cur == 0 && g0.blocks == [Block("entry", EntryCode)] by {
      EntryValid();
      LowerValid(root, g0);
    }
    GenerateUnfolds(root);
    assert |f| == e + 1 && f[e] == Block("end", [Ret(0)]);
    assert f[0].name == "entry" && EntryCode <= f[0].insts by {
      assert g1.blocks[0].name == "entry" && EntryCode <= g1.blocks[0].insts;
      if g1.cur == 0 {
        assert EntryCode <= g1.blocks[0].insts <= f[0].insts;
      } else {
        assert f[0] == g1.blocks[0];
      }
    }
    forall i | 0 <= i < |f|
      ensures Closed(f[i]) && TerminatorCount(f[i].insts) == 1 && TargetsBelow(f[i], |f|)
    {
      FinishedBlock(g0, g1, i);
    }
  }

  /** The blocks of a loop the builder leaves behind, and where it continues. */
  lemma LoopBlocks(c: seq<Node>, g: Gen)
    requires Valid(g)
    ensures var k := |g.blocks|; var r := Lower(WhileLoop(c), g); var b := g.blocks[g.cur];
      |r.blocks| == k + 4 + 4 * LoopCountAll(c) && r.cur == k + 2 &&
      r.blocks[g.cur] == Block(b.name, b.insts + [Br(k)]) &&
      r.blocks[k] == Block("condition", ConditionCode + [CondBr(k + 1, k + 2)]) &&
      r.blocks[k + 1].name == "loop_body_start" &&
      r.blocks[k + 2] == Block("after_loop", []) &&
      r.blocks[|r.blocks| - 1] == Block("loop_back", [Br(k)])
  {
    var k := |g.blocks|;
    var h := LoopHead(g);
    LoopHeadFrame(g);
    LoopHeadValid(g);
    var body := LowerAll(c, h);
    LowerAllValid(c, h);
    LoopTailShape(body, k, k + 2);
    assert body.cur == k + 1 || k + 3 <= body.cur;
    assert body.blocks[g.cur] == h.blocks[g.cur];
    assert body.blocks[k] == h.blocks[k];
    assert body.blocks[k + 2] == h.blocks[k + 2];
  }

  /** The block the body ends in gains the branch to `loop_back`. */
  lemma LoopBodyExit(c: seq<Node>, g: Gen)
    requires Valid(g)
    ensures var k := |g.blocks|; var r := Lower(WhileLoop(c), g);
      var body := LowerAll(c, LoopHead(g)); var e := body.cur; var back := |r.blocks| - 1;
      HasInsertPoint(body) && back == |body.blocks| &&
      (e == k + 1 || k + 3 <= e < back) &&
      r.blocks[e] == Block(body.blocks[e].name, body.blocks[e].insts + [Br(back)])
  {
    var k := |g.blocks|;
    var h := LoopHead(g);
    LoopHeadFrame(g);
    LoopHeadValid(g);
    var body := LowerAll(c, h);
    LowerAllValid(c, h);
    LoopTailShape(body, k, k + 2);
  }

  /**
    The four blocks of a loop and their branches: the block before the loop
    branches to `condition`; `condition` branches to `loop_body_start` or
    `after_loop`; the body's last block branches to `loop_back`, which branches
    to `condition`; lowering continues in the still empty `after_loop`.
  */
  lemma LoopWiring(c: seq<Node>, g: Gen)
    requires Valid(g)
    ensures var k := |g.blocks|; var r := Lower(WhileLoop(c), g);
      var e := LowerAll(c, LoopHead(g)).cur; var back := |r.blocks| - 1;
      |r.blocks| == k + 4 + 4 * LoopCountAll(c) &&
      r.blocks[g.cur] == Block(g.blocks[g.cur].name, g.blocks[g.cur].insts + [Br(k)]) &&
      r.blocks[k] == Block("condition", ConditionCode + [CondBr(k + 1, k + 2)]) &&
      r.blocks[k + 1].name == "loop_body_start" &&
      r.blocks[k + 2] == Block("after_loop", []) && r.cur == k + 2 &&
      r.blocks[back] == Block("loop_back", [Br(k)]) &&
      (e == k + 1 || k + 3 <= e < back) &&
      |r.blocks[e].insts| > 0 && r.blocks[e].insts[|r.blocks[e].insts| - 1] == Br(back)
  {
    LoopBlocks(c, g);
    LoopBodyExit(c, g);
  }

  /** Code emitted in two steps is the code emitted in one. */
  lemma EmitEmit(g: Gen, a: seq<Inst>, b: seq<Inst>)
    requires HasInsertPoint(g)
    ensures Emit(Emit(g, a), b) == Emit(g, a + b)
  {
    var x := g.blocks[g.cur];
    assert x.insts + a + b == x.insts + (a + b);
  }

  /** The children of a sequence are lowered one after the other. */
  lemma {:induction false} LowerAllAppend(a: seq<Node>, b: seq<Node>, g: Gen)
    requires HasInsertPoint(g)
    ensures LowerAll(a + b, g) == LowerAll(b, LowerAll(a, g))
    decreases |a|
  {
    if |a| == 0 {
      assert a + b == b;
    } else {
      assert (a + b)[0] == a[0];
      assert (a + b)[1..] == a[1..] + b;
      LowerAllAppend(a[1..], b, Lower(a[0], g));
    }
  }

  /** The leaf code of a loop-free tree, in order. */
  function FlatCode(n: Node): seq<Inst>
    decreases n, 1
  {
    match n
    case Instruction(k) => LeafCode(k)
    case Sequence(c) => FlatCodeAll(c)
    case WhileLoop(c) => []
  }

  function FlatCodeAll(c: seq<Node>): seq<Inst>
    decreases c, 0
  {
    if |c| == 0 then [] else FlatCode(c[0]) + FlatCodeAll(c[1..])
  }

  /**
    Without loops, lowering creates no block: it appends the leaves' code, in
    order, to the insertion block.
  */
  lemma {:induction false} LowerLoopFree(n: Node, g: Gen)
    requires HasInsertPoint(g) && LoopCount(n) == 0
    ensures Lower(n, g) == Emit(g, FlatCode(n))
    decreases n, 1
  {
    match n
    case Instruction(k) =>
    case Sequence(c) =>
      LowerAllLoopFree(c, g);
  }

  lemma {:induction false} LowerAllLoopFree(c: seq<Node>, g: Gen)
    requires HasInsertPoint(g) && LoopCountAll(c) == 0
    ensures LowerAll(c, g) == Emit(g, FlatCodeAll(c))
    decreases c, 0
  {
    if |c| == 0 {
      var x := g.blocks[g.cur];
      assert x.insts + [] == x.insts;
      assert g.blocks[g.cur := x] == g.blocks;
    } else {
      LowerLoopFree(c[0], g);
      LowerAllLoopFree(c[1..], Emit(g, FlatCode(c[0])));
      EmitEmit(g, FlatCode(c[0]), FlatCodeAll(c[1..]));
    }
  }
}
