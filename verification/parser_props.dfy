/**
  What the parser promises, stated against independent definitions: a
  left-to-right bracket-depth scan (`Check`), the prefix-depth notion of a
  balanced text (`Balanced`), and the text an AST stands for (`Unparse`).
*/
module ParserProps {
  import opened Wrappers
  import opened Lexer
  import Ast
  import opened Parser

  // ---------------------------------------------------------------------
  // Bracket matching

  /** The reference bracket check: a counter scan over the tokens that
      reports the first mismatch it meets. END stops it, as it stops the
      parser. */
  function Check(toks: seq<Token>, depth: nat): Option<ParseError>
    decreases |toks|
  {
    if |toks| == 0 || toks[0] == End then
      (if depth == 0 then None else Some(MissingClose))
    else if toks[0] == WhileStart then
      Check(toks[1..], depth + 1)
    else if toks[0] == WhileEnd then
      (if depth == 0 then Some(MissingOpen) else Check(toks[1..], depth - 1))
    else
      Check(toks[1..], depth)
  }

  /** How one character moves the bracket depth: '[' opens, ']' closes. */
  function Delta(c: char): int
  {
    if c == '[' then 1 else if c == ']' then -1 else 0
  }

  /** The bracket depth a text reaches. */
  function Depth(s: string): int
  {
    if |s| == 0 then 0 else Delta(s[0]) + Depth(s[1..])
  }

  /** Starting at depth `d`, no prefix of `s` closes more brackets than are open. */
  ghost predicate NeverBelow(s: string, d: int)
  {
    forall k :: 0 <= k <= |s| ==> d + Depth(s[..k]) >= 0
  }

  /** A balanced text: no prefix has more ']' than '[', and the totals agree. */
  ghost predicate Balanced(s: string)
  {
    NeverBelow(s, 0) && Depth(s) == 0
  }

  /** The depth of a nonempty prefix, one character at a time. */
  lemma DepthPrefix(s: string, k: nat)
    requires 1 <= k <= |s|
    ensures Depth(s[..k]) == Delta(s[0]) + Depth(s[1..][..k - 1])
  {
    assert s[..k][1..] == s[1..][..k - 1];
  }

  /** Staying above zero from depth `d` is staying above zero after the first step. */
  lemma NeverBelowCons(s: string, d: nat)
    requires |s| > 0 && d + Delta(s[0]) >= 0
    ensures NeverBelow(s, d) <==> NeverBelow(s[1..], d + Delta(s[0]))
  {
    var u, e := s[1..], Delta(s[0]);
    assert s[..0] == [];
    if NeverBelow(u, d + e) {
      forall k | 0 <= k <= |s|
        ensures d + Depth(s[..k]) >= 0
      {
        if k > 0 {
          DepthPrefix(s, k);
          assert d + e + Depth(u[..k - 1]) >= 0;
        }
      }
    }
    if NeverBelow(s, d) {
      forall k | 0 <= k <= |u|
        ensures d + e + Depth(u[..k]) >= 0
      {
        DepthPrefix(s, k + 1);
        assert d + Depth(s[..k + 1]) >= 0;
      }
    }
  }

  /** One step of the scan on the tokens of a text. */
  lemma CheckCons(s: string, d: nat)
    requires |s| > 0
    ensures s[0] == ']' && d == 0 ==> Check(Tokens(s), d) == Some(MissingOpen)
    ensures !(s[0] == ']' && d == 0) ==>
      d + Delta(s[0]) >= 0 && Check(Tokens(s), d) == Check(Tokens(s[1..]), d + Delta(s[0]))
  {
    assert Tokens(s)[0] == Classify(s[0]) && Tokens(s)[1..] == Tokens(s[1..]);
  }

  /** The scan succeeds exactly on balanced texts, reports a missing '[' as
      soon as some prefix closes too much, and otherwise a missing ']'. */
  lemma {:induction false} CheckMeansBalanced(s: string, d: nat)
    ensures Check(Tokens(s), d) == None <==> NeverBelow(s, d) && d + Depth(s) == 0
    ensures Check(Tokens(s), d) == Some(MissingOpen) <==> !NeverBelow(s, d)
    ensures Check(Tokens(s), d) == Some(MissingClose) <==> NeverBelow(s, d) && d + Depth(s) > 0
    decreases |s|
  {
    if |s| == 0 {
      assert s[..0] == s;
    } else {
      var c, u := s[0], s[1..];
      CheckCons(s, d);
      if c == ']' && d == 0 {
        assert s[..1] == [c];
        assert d + Depth(s[..1]) < 0;
      } else {
        CheckMeansBalanced(u, d + Delta(c));
        NeverBelowCons(s, d);
      }
    }
  }

  /** `parse_sequence` agrees with the scan: an inner parse closes exactly one
      level of depth or fails for want of a ']', and a top-level parse fails
      with exactly the error the scan finds. */
  lemma {:induction false} ParseAgreesWithCheck(toks: seq<Token>, inner: bool, acc: Ast.Node, d: nat)
    requires acc.Sequence?
    ensures inner && ParseSequence(toks, inner, acc).0.Ok? ==>
      Check(toks, d + 1) == Check(ParseSequence(toks, inner, acc).1, d)
    ensures inner && ParseSequence(toks, inner, acc).0.Err? ==>
      Check(toks, d + 1) == Some(MissingClose)
    ensures !inner ==>
      Check(toks, 0) == (var r := ParseSequence(toks, inner, acc).0; if r.Ok? then None else Some(r.error))
    decreases |toks|
  {
    if |toks| == 0 || toks[0] == End {
    } else {
      var t, rest := toks[0], toks[1..];
      if t == WhileStart {
        var (ri, after) := ParseSequence(rest, true, Ast.Sequence([]));
        ParseAgreesWithCheck(rest, true, Ast.Sequence([]), if inner then d + 1 else 0);
        if ri.Ok? {
          ParseAgreesWithCheck(after, inner, Ast.PushBack(acc, Ast.MakeLoop(ri.value)), d);
        }
      } else if t == WhileEnd {
      } else if t == Other {
        ParseAgreesWithCheck(rest, inner, acc, d);
      } else {
        ParseAgreesWithCheck(rest, inner, Ast.PushBack(acc, Ast.Instruction(LeafOf(t))), d);
      }
    }
  }

  /** Parsing succeeds iff the brackets of the text are balanced; a ']'
      without an open '[' is reported as such, an unclosed '[' otherwise. */
  lemma ParseSucceedsIffBalanced(src: string)
    ensures ParseText(src).Ok? <==> Balanced(src)
    ensures ParseText(src) == Err(MissingOpen) <==> !NeverBelow(src, 0)
    ensures ParseText(src) == Err(MissingClose) <==> NeverBelow(src, 0) && Depth(src) > 0
  {
    ParseAgreesWithCheck(Tokens(src), false, Ast.Sequence([]), 0);
    CheckMeansBalanced(src, 0);
  }

  // ---------------------------------------------------------------------
  // Unparsing

  /** The command character a leaf is read from. */
  function KindChar(k: Ast.Kind): char
  {
    Spelling(TokenOf(k))
  }

  /** The program text an AST stands for. */
  function Unparse(n: Ast.Node): string
  {
    match n
    case Instruction(k) => [KindChar(k)]
    case Sequence(c) => UnparseAll(c)
    case WhileLoop(c) => "[" + UnparseAll(c) + "]"
  }

  function UnparseAll(ns: seq<Ast.Node>): string
  {
    if |ns| == 0 then "" else Unparse(ns[0]) + UnparseAll(ns[1..])
  }

  /** The eight command characters of a text, in order. */
  function Filter(s: string): string
  {
    if |s| == 0 then ""
    else (if IsCommand(s[0]) then [s[0]] else "") + Filter(s[1..])
  }

  /** The trees the parser builds: plain sequences appear only at the root. */
  ghost predicate Shaped(n: Ast.Node)
  {
    match n
    case Instruction(_) => true
    case Sequence(c) => false
    case WhileLoop(c) => AllShaped(c)
  }

  ghost predicate AllShaped(ns: seq<Ast.Node>)
  {
    forall i :: 0 <= i < |ns| ==> Shaped(ns[i])
  }

  lemma {:induction false} FilterAppend(s: string, u: string)
    ensures Filter(s + u) == Filter(s) + Filter(u)
    decreases |s|
  {
    if |s| == 0 {
      assert s + u == u;
    } else {
      assert (s + u)[0] == s[0] && (s + u)[1..] == s[1..] + u;
      FilterAppend(s[1..], u);
      var h := if IsCommand(s[0]) then [s[0]] else "";
      assert Filter(s + u) == h + (Filter(s[1..]) + Filter(u));
      assert Filter(s) == h + Filter(s[1..]);
    }
  }

  lemma {:induction false} UnparseAllAppend(a: seq<Ast.Node>, b: seq<Ast.Node>)
    ensures UnparseAll(a + b) == UnparseAll(a) + UnparseAll(b)
    decreases |a|
  {
    if |a| == 0 {
      assert a + b == b;
    } else {
      assert (a + b)[1..] == a[1..] + b;
      UnparseAllAppend(a[1..], b);
    }
  }

  /** The children a successful `parse_sequence` appended to `acc`. */
  function Added(acc: Ast.Node, res: Ast.Node): seq<Ast.Node>
    requires acc.Sequence?
  {
    if res.Instruction? || |res.inner| < |acc.inner| then [] else res.inner[|acc.inner|..]
  }

  /** `res` is `acc` with the children `Added(acc, res)` appended. */
  ghost predicate Extends(acc: Ast.Node, res: Ast.Node)
    requires acc.Sequence?
  {
    res == Ast.Sequence(acc.inner + Added(acc, res))
  }

  /** What `parse_sequence` does with a text: a successful parse keeps what
      was built, adds only parser-shaped children, and those children spell
      the consumed characters with comments dropped (plus the closing ']' of
      an inner parse); the unconsumed tokens are those of the rest of the
      text, and a top-level parse consumes everything. */
  ghost predicate Spells(s: string, inner: bool, acc: Ast.Node)
    requires acc.Sequence?
  {
    var p := ParseSequence(Tokens(s), inner, acc);
    var j := |s| - |p.1|;
    && 0 <= j <= |s|
    && p.1 == Tokens(s[j..])
    && (p.0.Ok? ==> SpellsOk(s[..j], inner, acc, p.0.value) && (!inner ==> j == |s|))
  }

  /** A successful parse that consumed `consumed`. */
  ghost predicate SpellsOk(consumed: string, inner: bool, acc: Ast.Node, res: Ast.Node)
    requires acc.Sequence?
  {
    && Extends(acc, res)
    && AllShaped(Added(acc, res))
    && Filter(consumed) == UnparseAll(Added(acc, res)) + (if inner then "]" else "")
  }

  lemma {:induction false} ParseSpellsInput(s: string, inner: bool, acc: Ast.Node)
    requires acc.Sequence?
    ensures Spells(s, inner, acc)
    decreases |s|, 2
  {
    if |s| == 0 {
      var (r, rest) := ParseSequence(Tokens(s), inner, acc);
      assert rest == [];
      if r.Ok? {
        assert Added(acc, r.value) == [];
        assert acc.inner + [] == acc.inner;
      }
    } else if s[0] == '[' {
      SpellsLoop(s, inner, acc);
    } else if s[0] == ']' {
      SpellsClose(s, inner, acc);
    } else {
      SpellsStep(s, inner, acc);
    }
  }

  /** One unfolding of `parse_sequence` on a token that is not a bracket. */
  lemma UnfoldStep(toks: seq<Token>, inner: bool, acc: Ast.Node)
    requires acc.Sequence? && |toks| > 0
    requires toks[0] != End && toks[0] != WhileStart && toks[0] != WhileEnd
    ensures toks[0] == Other ==> ParseSequence(toks, inner, acc) == ParseSequence(toks[1..], inner, acc)
    ensures toks[0] != Other ==>
      ParseSequence(toks, inner, acc) == ParseSequence(toks[1..], inner, Ast.PushBack(acc, Ast.Instruction(LeafOf(toks[0]))))
  {
  }

  /** One unfolding of `parse_sequence` on a '['. */
  lemma UnfoldLoop(toks: seq<Token>, inner: bool, acc: Ast.Node)
    requires acc.Sequence? && |toks| > 0 && toks[0] == WhileStart
    ensures var (ri, after) := ParseSequence(toks[1..], true, Ast.Sequence([]));
      ParseSequence(toks, inner, acc) ==
        if ri.Err? then (Err(ri.error), after)
        else ParseSequence(after, inner, Ast.PushBack(acc, Ast.MakeLoop(ri.value)))
  {
  }

  lemma SpellsClose(s: string, inner: bool, acc: Ast.Node)
    requires acc.Sequence? && |s| > 0 && s[0] == ']'
    ensures Spells(s, inner, acc)
  {
    assert Tokens(s)[0] == WhileEnd && Tokens(s)[1..] == Tokens(s[1..]);
    var (r, rest) := ParseSequence(Tokens(s), inner, acc);
    assert rest == Tokens(s[1..]);
    if r.Ok? {
      assert r.value == acc;
      assert Added(acc, r.value) == [];
      assert acc.inner + [] == acc.inner;
      assert s[..1] == [s[0]] + "";
      FilterCons(s[0], "");
    }
  }

  lemma {:induction false} SpellsStep(s: string, inner: bool, acc: Ast.Node)
    requires acc.Sequence? && |s| > 0 && s[0] != '[' && s[0] != ']'
    ensures Spells(s, inner, acc)
    decreases |s|, 1
  {
    var t := Classify(s[0]);
    assert Tokens(s)[0] == t && Tokens(s)[1..] == Tokens(s[1..]);
    UnfoldStep(Tokens(s), inner, acc);
    if t == Other {
      SpellsAfterStep(s, inner, acc, acc);
    } else {
      SpellsAfterStep(s, inner, acc, Ast.PushBack(acc, Ast.Instruction(LeafOf(t))));
    }
  }

  /** A non-bracket character, once `parse_sequence` has turned `acc` into
      `acc'` for it. */
  lemma {:induction false} SpellsAfterStep(s: string, inner: bool, acc: Ast.Node, acc': Ast.Node)
    requires acc.Sequence? && acc'.Sequence? && |s| > 0 && s[0] != '[' && s[0] != ']'
    requires Classify(s[0]) == Other ==> acc' == acc
    requires Classify(s[0]) != Other ==> acc' == Ast.PushBack(acc, Ast.Instruction(LeafOf(Classify(s[0]))))
    requires ParseSequence(Tokens(s), inner, acc) == ParseSequence(Tokens(s[1..]), inner, acc')
    ensures Spells(s, inner, acc)
    decreases |s|, 0
  {
    var c, u := s[0], s[1..];
    var p := ParseSequence(Tokens(u), inner, acc');
    ParseSpellsInput(u, inner, acc');
    SpellsElim(u, inner, acc', p);
    var j1 := |u| - |p.1|;
    var j := 1 + j1;
    assert s[j..] == u[j1..];
    if p.0.Ok? {
      OkStep(s, j1, inner, acc, acc', p.0.value);
    }
    SpellsIntro(s, inner, acc, j);
  }

  /** The consumed text of a step grows by the one character the step read. */
  lemma OkStep(s: string, j1: nat, inner: bool, acc: Ast.Node, acc': Ast.Node, res: Ast.Node)
    requires acc.Sequence? && acc'.Sequence? && |s| > 0 && s[0] != '[' && s[0] != ']' && j1 < |s|
    requires Classify(s[0]) == Other ==> acc' == acc
    requires Classify(s[0]) != Other ==> acc' == Ast.PushBack(acc, Ast.Instruction(LeafOf(Classify(s[0]))))
    requires SpellsOk(s[1..][..j1], inner, acc', res)
    ensures SpellsOk(s[..1 + j1], inner, acc, res)
  {
    var c, consumed := s[0], s[1..][..j1];
    assert s[..1 + j1] == [c] + consumed;
    if Classify(c) == Other {
      OkOther(c, consumed, inner, acc, res);
    } else {
      OkLeaf(c, consumed, inner, acc, res);
    }
  }

  lemma OkOther(c: char, consumed: string, inner: bool, acc: Ast.Node, res: Ast.Node)
    requires acc.Sequence? && Classify(c) == Other
    requires SpellsOk(consumed, inner, acc, res)
    ensures SpellsOk([c] + consumed, inner, acc, res)
  {
    FilterCons(c, consumed);
  }

  lemma OkLeaf(c: char, consumed: string, inner: bool, acc: Ast.Node, res: Ast.Node)
    requires acc.Sequence? && IsLeafToken(Classify(c))
    requires SpellsOk(consumed, inner, Ast.PushBack(acc, Ast.Instruction(LeafOf(Classify(c)))), res)
    ensures SpellsOk([c] + consumed, inner, acc, res)
  {
    var leaf := Ast.Instruction(LeafOf(Classify(c)));
    OkCons(acc, leaf, res);
    LeafSpelling(c);
    FilterCons(c, consumed);
  }

  /** Appending `x` first and then `more`: the added children are `[x] + more`. */
  lemma OkCons(acc: Ast.Node, x: Ast.Node, res: Ast.Node)
    requires acc.Sequence?
    requires Extends(Ast.PushBack(acc, x), res)
    requires Shaped(x) && AllShaped(Added(Ast.PushBack(acc, x), res))
    ensures Extends(acc, res)
    ensures Added(acc, res) == [x] + Added(Ast.PushBack(acc, x), res)
    ensures AllShaped(Added(acc, res))
    ensures UnparseAll(Added(acc, res)) == Unparse(x) + UnparseAll(Added(Ast.PushBack(acc, x), res))
  {
    var more := Added(Ast.PushBack(acc, x), res);
    assert Ast.PushBack(acc, x).inner == acc.inner + [x];
    assert res.inner == acc.inner + ([x] + more);
    assert Added(acc, res) == [x] + more;
    ConsShaped(x, more);
    UnparseAllCons(x, more);
  }

  lemma FilterCons(c: char, s: string)
    ensures Filter([c] + s) == (if IsCommand(c) then [c] else "") + Filter(s)
  {
    assert ([c] + s)[1..] == s;
  }

  /** A leaf character unparses as itself. */
  lemma LeafSpelling(c: char)
    requires IsLeafToken(Classify(c))
    ensures IsCommand(c) && Unparse(Ast.Instruction(LeafOf(Classify(c)))) == [c]
  {
    assert TokenOf(LeafOf(Classify(c))) == Classify(c);
  }

  lemma UnparseAllCons(x: Ast.Node, more: seq<Ast.Node>)
    ensures UnparseAll([x] + more) == Unparse(x) + UnparseAll(more)
  {
    assert ([x] + more)[1..] == more;
  }

  lemma ConsShaped(n: Ast.Node, ns: seq<Ast.Node>)
    requires Shaped(n) && AllShaped(ns)
    ensures AllShaped([n] + ns)
  {
    var a := [n] + ns;
    forall i | 0 <= i < |a| ensures Shaped(a[i]) {
      if i > 0 { assert a[i] == ns[i - 1]; }
    }
  }

  lemma {:induction false} SpellsLoop(s: string, inner: bool, acc: Ast.Node)
    requires acc.Sequence? && |s| > 0 && s[0] == '['
    ensures Spells(s, inner, acc)
    decreases |s|, 1
  {
    var u := s[1..];
    assert Tokens(s)[0] == WhileStart && Tokens(s)[1..] == Tokens(u);
    var (ri, after) := ParseSequence(Tokens(u), true, Ast.Sequence([]));
    UnfoldLoop(Tokens(s), inner, acc);
    ParseSpellsInput(u, true, Ast.Sequence([]));
    if ri.Ok? {
      SpellsAfterLoop(s, inner, acc, ri.value, after);
    } else {
      SpellsLoopFails(s, inner, acc, after);
    }
  }

  /** The '[' case when the loop body does not parse: the error and the
      tokens after it are passed up. */
  lemma SpellsLoopFails(s: string, inner: bool, acc: Ast.Node, after: seq<Token>)
    requires acc.Sequence? && |s| > 0
    requires Spells(s[1..], true, Ast.Sequence([]))
    requires ParseSequence(Tokens(s[1..]), true, Ast.Sequence([])).1 == after
    requires ParseSequence(Tokens(s), inner, acc).0.Err? && ParseSequence(Tokens(s), inner, acc).1 == after
    ensures Spells(s, inner, acc)
  {
    var u := s[1..];
    var j1 := |u| - |after|;
    assert 0 <= j1 <= |u| && after == Tokens(u[j1..]);
    assert s[1 + j1..] == u[j1..];
  }

  /** A prefix of `s` cut after its first character and then twice more. */
  lemma SliceThree<T>(s: seq<T>, j1: nat, j2: nat)
    requires 1 + j1 + j2 <= |s|
    ensures s[..1 + j1 + j2] == [s[0]] + s[1..][..j1] + s[1..][j1..][..j2]
    ensures s[1 + j1 + j2..] == s[1..][j1..][j2..]
  {
    assert s[1..][..j1] == s[1..1 + j1];
    assert s[1..][j1..][..j2] == s[1 + j1..1 + j1 + j2];
    assert s[..1 + j1 + j2] == s[..1] + s[1..1 + j1] + s[1 + j1..1 + j1 + j2];
  }

  /** The parts of `Spells`, for the parse result `p`. */
  lemma SpellsElim(s: string, inner: bool, acc: Ast.Node, p: (Result<Ast.Node, ParseError>, seq<Token>))
    requires acc.Sequence? && Spells(s, inner, acc) && p == ParseSequence(Tokens(s), inner, acc)
    ensures var j := |s| - |p.1|; 0 <= j <= |s| && p.1 == Tokens(s[j..])
    ensures var j := |s| - |p.1|;
      p.0.Ok? ==> SpellsOk(s[..j], inner, acc, p.0.value) && (!inner ==> j == |s|)
  {
  }

  /** `Spells` from its parts, for a parse that consumed the first `j` characters. */
  lemma SpellsIntro(s: string, inner: bool, acc: Ast.Node, j: nat)
    requires acc.Sequence? && j <= |s|
    requires ParseSequence(Tokens(s), inner, acc).1 == Tokens(s[j..])
    requires ParseSequence(Tokens(s), inner, acc).0.Ok? ==>
      SpellsOk(s[..j], inner, acc, ParseSequence(Tokens(s), inner, acc).0.value)
    requires ParseSequence(Tokens(s), inner, acc).0.Ok? && !inner ==> j == |s|
    ensures Spells(s, inner, acc)
  {
  }

  /** The '[' case once the loop body has been parsed into `loopSeq`, leaving
      the tokens `after`. */
  lemma {:induction false} SpellsAfterLoop(s: string, inner: bool, acc: Ast.Node, loopSeq: Ast.Node, after: seq<Token>)
    requires acc.Sequence? && |s| > 0 && s[0] == '['
    requires ParseSequence(Tokens(s[1..]), true, Ast.Sequence([])) == (Ok(loopSeq), after)
    requires Spells(s[1..], true, Ast.Sequence([]))
    requires ParseSequence(Tokens(s), inner, acc) ==
      ParseSequence(after, inner, Ast.PushBack(acc, Ast.MakeLoop(loopSeq)))
    ensures Spells(s, inner, acc)
    decreases |s|, 0
  {
    var u := s[1..];
    var j1 := |u| - |after|;
    assert 0 <= j1 <= |u| && after == Tokens(u[j1..]) && SpellsOk(u[..j1], true, Ast.Sequence([]), loopSeq);
    var acc' := Ast.PushBack(acc, Ast.MakeLoop(loopSeq));
    var u2 := u[j1..];
    var p := ParseSequence(Tokens(u2), inner, acc');
    var r, rest := p.0, p.1;
    var j2 := |u2| - |rest|;
    ParseSpellsInput(u2, inner, acc');
    SpellsElim(u2, inner, acc', p);
    assert ParseSequence(Tokens(s), inner, acc) == p;
    SpellsJoin(s, inner, acc, loopSeq, j1, j2, p);
  }

  /** The text of a '[' case put together: the '[', the loop body with its
      ']' (`j1` characters), and what the enclosing parse consumed after it
      (`j2` characters). */
  lemma SpellsJoin(s: string, inner: bool, acc: Ast.Node, loopSeq: Ast.Node, j1: nat, j2: nat,
                   p: (Result<Ast.Node, ParseError>, seq<Token>))
    requires acc.Sequence? && |s| > 0 && s[0] == '[' && 1 + j1 + j2 <= |s|
    requires SpellsOk(s[1..][..j1], true, Ast.Sequence([]), loopSeq)
    requires ParseSequence(Tokens(s), inner, acc) == p
    requires p.1 == Tokens(s[1..][j1..][j2..])
    requires p.0.Ok? ==>
      SpellsOk(s[1..][j1..][..j2], inner, Ast.PushBack(acc, Ast.MakeLoop(loopSeq)), p.0.value) &&
      (!inner ==> j2 == |s| - 1 - j1)
    ensures Spells(s, inner, acc)
  {
    var j := 1 + j1 + j2;
    assert s[j..] == s[1..][j1..][j2..] by { SliceThree(s, j1, j2); }
    if p.0.Ok? {
      assert SpellsOk(s[..j], inner, acc, p.0.value) by {
        SliceThree(s, j1, j2);
        OkLoop(s[0], s[1..][..j1], s[1..][j1..][..j2], s[..j], inner, acc, loopSeq, p.0.value);
      }
    }
    SpellsIntro(s, inner, acc, j);
  }

  lemma OkLoop(c: char, b1: string, b2: string, consumed: string, inner: bool, acc: Ast.Node, loopSeq: Ast.Node, res: Ast.Node)
    requires acc.Sequence? && c == '[' && consumed == [c] + b1 + b2
    requires SpellsOk(b1, true, Ast.Sequence([]), loopSeq)
    requires SpellsOk(b2, inner, Ast.PushBack(acc, Ast.MakeLoop(loopSeq)), res)
    ensures SpellsOk(consumed, inner, acc, res)
  {
    var body := Added(Ast.Sequence([]), loopSeq);
    var loop := Ast.MakeLoop(loopSeq);
    assert loop == Ast.WhileLoop(body) && Shaped(loop) by {
      assert loopSeq.inner == [] + body;
    }
    OkCons(acc, loop, res);
    var more := Added(Ast.PushBack(acc, loop), res);
    var tail := if inner then "]" else "";
    var ub, um := UnparseAll(body), UnparseAll(more);
    assert Filter(consumed) == "[" + (ub + "]") + (um + tail) by {
      FilterCons(c, b1);
      FilterAppend([c] + b1, b2);
    }
    assert UnparseAll(Added(acc, res)) == "[" + ub + "]" + um;
    Regroup("[", ub, "]", um, tail);
  }

  lemma Regroup<T>(a: seq<T>, b: seq<T>, c: seq<T>, d: seq<T>, e: seq<T>)
    ensures a + (b + c) + (d + e) == a + b + c + d + e
  {
  }
}
