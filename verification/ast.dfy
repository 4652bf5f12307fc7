/**
  The bfllvm abstract syntax tree: a `Sequence` of children, a `WhileLoop`
  (a sequence with loop semantics), and six payload-free instruction leaves.
  Also the sequence accessors, the textual `print` format and visitor dispatch.
*/
module Ast {

  /** The six instruction leaves. */
  datatype Kind =
    | PointerIncrement
    | PointerDecrement
    | ValueIncrement
    | ValueDecrement
    | PutChar
    | GetChar

  datatype Node =
    | Sequence(inner: seq<Node>)
    | WhileLoop(inner: seq<Node>)
    | Instruction(kind: Kind)

  /** Nodes that own children: a `Sequence`, or a `WhileLoop`, which is one. */
  predicate HasChildren(n: Node)
  {
    !n.Instruction?
  }

  /** `Sequence::size`: the number of children. */
  function Size(s: Node): nat
    requires HasChildren(s)
  {
    |s.inner|
  }

  /** `Sequence::get`: the child at a position, in insertion order. */
  function Get(s: Node, i: nat): Node
    requires HasChildren(s) && i < Size(s)
  {
    s.inner[i]
  }

  /** `Sequence::push_back`: appends one child at the end. */
  function PushBack(s: Node, e: Node): (r: Node)
    requires HasChildren(s)
    ensures HasChildren(r) && r.Sequence? == s.Sequence?
    ensures Size(r) == Size(s) + 1
    ensures Get(r, Size(s)) == e
    ensures forall i :: 0 <= i < Size(s) ==> Get(r, i) == Get(s, i)
  {
    match s
    case Sequence(c) => Sequence(c + [e])
    case WhileLoop(c) => WhileLoop(c + [e])
  }

  /** The `While_Loop(const Sequence &)` constructor: a loop whose body is
      exactly the given sequence's children, in the same order. */
  function MakeLoop(s: Node): (r: Node)
    requires HasChildren(s)
    ensures r.WhileLoop?
    ensures Size(r) == Size(s)
    ensures forall i :: 0 <= i < Size(s) ==> Get(r, i) == Get(s, i)
  {
    WhileLoop(s.inner)
  }

  // ---------------------------------------------------------------------
  // Counting

  function LeafCount(n: Node): nat
  {
    match n
    case Instruction(_) => 1
    case Sequence(c) => LeafCountAll(c)
    case WhileLoop(c) => LeafCountAll(c)
  }

  function LeafCountAll(ns: seq<Node>): nat
  {
    if |ns| == 0 then 0 else LeafCount(ns[0]) + LeafCountAll(ns[1..])
  }

  function LoopCount(n: Node): nat
  {
    match n
    case Instruction(_) => 0
    case Sequence(c) => LoopCountAll(c)
    case WhileLoop(c) => 1 + LoopCountAll(c)
  }

  function LoopCountAll(ns: seq<Node>): nat
  {
    if |ns| == 0 then 0 else LoopCount(ns[0]) + LoopCountAll(ns[1..])
  }

  lemma {:induction false} LeafCountAllAppend(a: seq<Node>, b: seq<Node>)
    ensures LeafCountAll(a + b) == LeafCountAll(a) + LeafCountAll(b)
    decreases |a|
  {
    if |a| > 0 {
      assert (a + b)[1..] == a[1..] + b;
      LeafCountAllAppend(a[1..], b);
    } else {
      assert a + b == b;
    }
  }

  lemma {:induction false} LoopCountAllAppend(a: seq<Node>, b: seq<Node>)
    ensures LoopCountAll(a + b) == LoopCountAll(a) + LoopCountAll(b)
    decreases |a|
  {
    if |a| > 0 {
      assert (a + b)[1..] == a[1..] + b;
      LoopCountAllAppend(a[1..], b);
    } else {
      assert a + b == b;
    }
  }

  /** The number of occurrences of a character in a string. */
  function Occurrences(c: char, s: string): nat
  {
    if |s| == 0 then 0 else (if s[0] == c then 1 else 0) + Occurrences(c, s[1..])
  }

  lemma {:induction false} OccurrencesAppend(c: char, s: string, u: string)
    ensures Occurrences(c, s + u) == Occurrences(c, s) + Occurrences(c, u)
    decreases |s|
  {
    if |s| > 0 {
      assert (s + u)[1..] == s[1..] + u;
      OccurrencesAppend(c, s[1..], u);
    } else {
      assert s + u == u;
    }
  }

  lemma OccurrencesCons(c: char, x: char, s: string)
    ensures Occurrences(c, [x] + s) == (if x == c then 1 else 0) + Occurrences(c, s)
  {
    assert ([x] + s)[1..] == s;
  }

  lemma {:induction false} OccurrencesAbsent(c: char, s: string)
    requires c !in s
    ensures Occurrences(c, s) == 0
    decreases |s|
  {
    if |s| > 0 {
      assert s[0] in s;
      assert forall x :: x in s[1..] ==> x in s;
      OccurrencesAbsent(c, s[1..]);
    }
  }

  // ---------------------------------------------------------------------
  // Printing

  /** `std::string indent(n, ' ')`. */
  function Spaces(n: nat): (s: string)
    ensures |s| == n
    ensures forall i :: 0 <= i < n ==> s[i] == ' '
  {
    if n == 0 then "" else " " + Spaces(n - 1)
  }

  /** The `get_type` of each instruction. */
  function TypeName(k: Kind): string
  {
    match k
    case PointerIncrement => "ptr++"
    case PointerDecrement => "ptr--"
    case ValueIncrement => "*ptr++"
    case ValueDecrement => "*ptr--"
    case PutChar => "putchar"
    case GetChar => "getchar"
  }

  /** The header `While_Loop::print` writes before its body. */
  const Header: string := "while(*ptr!=0)"

  /** `print(indentation)` of any node. */
  function Print(n: Node, indent: nat): string
    decreases n, 2
  {
    match n
    case Instruction(k) => Spaces(indent) + "<" + TypeName(k) + ">"
    case Sequence(c) => PrintSequence(c, indent)
    case WhileLoop(c) => Spaces(indent) + Header + PrintSequence(c, indent)
  }

  /** `Sequence::print`: the braces at the given indentation, each child on its
      own line four columns further in. */
  function PrintSequence(c: seq<Node>, indent: nat): string
    decreases c, 1
  {
    Spaces(indent) + "{\n" + PrintChildren(c, indent + 4) + Spaces(indent) + "}"
  }

  function PrintChildren(c: seq<Node>, indent: nat): string
    decreases c, 0
  {
    if |c| == 0 then "" else Print(c[0], indent) + "\n" + PrintChildren(c[1..], indent)
  }

  /** Every type name is distinct, so a printed leaf names its kind. */
  lemma TypeNamesDistinct(k: Kind, k': Kind)
    requires k != k'
    ensures TypeName(k) != TypeName(k')
  {
  }

  /** The layout of `print`: every node starts with its indentation; a leaf is
      its bracketed type name; a sequence ends with a closing brace; an empty
      sequence is two brace lines; a loop is the loop header followed by the
      sequence print at the SAME indentation, so its opening brace is indented
      a second time. */
  lemma PrintLayout(n: Node, indent: nat)
    ensures |Print(n, indent)| > indent
    ensures Print(n, indent)[..indent] == Spaces(indent)
    ensures n.Instruction? ==> Print(n, indent)[indent..] == "<" + TypeName(n.kind) + ">"
    ensures n.Sequence? ==> Print(n, indent)[|Print(n, indent)| - 1] == '}'
    ensures n == Sequence([]) ==> Print(n, indent) == Spaces(indent) + "{\n" + Spaces(indent) + "}"
    ensures n.WhileLoop? ==>
      Print(n, indent) == Spaces(indent) + Header + Print(Sequence(n.inner), indent)
  {
    match n
    case Instruction(k) => LeafLayout(k, indent);
    case Sequence(c) => SequenceLayout(c, indent); if c == [] { EmptySequenceLayout(indent); }
    case WhileLoop(c) => LoopLayout(c, indent);
  }

  lemma LeafLayout(k: Kind, indent: nat)
    ensures var p := Print(Instruction(k), indent);
      |p| > indent && p[..indent] == Spaces(indent) && p[indent..] == "<" + TypeName(k) + ">"
  {
    var rest := "<" + TypeName(k) + ">";
    Assoc4(Spaces(indent), "<", TypeName(k), ">");
    Indented(Spaces(indent), rest);
  }

  lemma SequenceLayout(c: seq<Node>, indent: nat)
    ensures var p := Print(Sequence(c), indent);
      |p| > indent && p[..indent] == Spaces(indent) && p[|p| - 1] == '}'
  {
    var rest := "{\n" + PrintChildren(c, indent + 4) + Spaces(indent) + "}";
    assert Print(Sequence(c), indent) == Spaces(indent) + rest;
    Indented(Spaces(indent), rest);
  }

  lemma EmptySequenceLayout(indent: nat)
    ensures Print(Sequence([]), indent) == Spaces(indent) + "{\n" + Spaces(indent) + "}"
  {
    assert PrintChildren([], indent + 4) == "";
  }

  lemma LoopLayout(c: seq<Node>, indent: nat)
    ensures var p := Print(WhileLoop(c), indent);
      |p| > indent && p[..indent] == Spaces(indent) && p == Spaces(indent) + Header + Print(Sequence(c), indent)
  {
    var rest := Header + PrintSequence(c, indent);
    assert Print(WhileLoop(c), indent) == Spaces(indent) + rest;
    Indented(Spaces(indent), rest);
  }

  lemma Assoc4<T>(a: seq<T>, b: seq<T>, c: seq<T>, d: seq<T>)
    ensures a + b + c + d == a + (b + c + d)
  {
  }

  lemma Indented(lead: string, rest: string)
    requires |rest| > 0
    ensures |lead + rest| > |lead| && (lead + rest)[..|lead|] == lead && (lead + rest)[|lead|..] == rest
    ensures (lead + rest)[|lead + rest| - 1] == rest[|rest| - 1]
  {
  }

  /** Only a leaf prints a '<' and only a loop header prints a '(': the
      printed text has one '<' per instruction and one '(' per loop. */
  lemma {:induction false} PrintCounts(n: Node, indent: nat)
    ensures Occurrences('<', Print(n, indent)) == LeafCount(n)
    ensures Occurrences('(', Print(n, indent)) == LoopCount(n)
    decreases n, 2
  {
    match n
    case Instruction(k) =>
      PrintLeafCounts(k, indent);
    case Sequence(c) =>
      PrintSequenceCounts(c, indent);
    case WhileLoop(c) =>
      PrintSequenceCounts(c, indent);
      PrintHeaderCounts(indent);
      var h := Spaces(indent) + Header;
      OccurrencesAppend('<', h, PrintSequence(c, indent));
      OccurrencesAppend('(', h, PrintSequence(c, indent));
  }

  lemma PrintLeafCounts(k: Kind, indent: nat)
    ensures Occurrences('<', Print(Instruction(k), indent)) == 1
    ensures Occurrences('(', Print(Instruction(k), indent)) == 0
  {
    var a, t := Spaces(indent) + "<", TypeName(k) + ">";
    assert Print(Instruction(k), indent) == a + t;
    PrintCountsNone(indent);
    OccurrencesAppend('<', Spaces(indent), "<");
    OccurrencesAppend('(', Spaces(indent), "<");
    TypeNameIsPlain(k);
    OccurrencesAbsent('<', t);
    OccurrencesAbsent('(', t);
    OccurrencesAppend('<', a, t);
    OccurrencesAppend('(', a, t);
  }

  /** A type name and the closing '>' hold neither '<' nor '('. */
  lemma TypeNameIsPlain(k: Kind)
    ensures '<' !in TypeName(k) + ">" && '(' !in TypeName(k) + ">"
  {
    match k
    case PointerIncrement =>
    case PointerDecrement =>
    case ValueIncrement =>
    case ValueDecrement =>
    case PutChar =>
    case GetChar =>
  }

  lemma PrintHeaderCounts(indent: nat)
    ensures Occurrences('<', Spaces(indent) + Header) == 0
    ensures Occurrences('(', Spaces(indent) + Header) == 1
  {
    PrintCountsNone(indent);
    HeaderCounts();
    OccurrencesAppend('<', Spaces(indent), Header);
    OccurrencesAppend('(', Spaces(indent), Header);
  }

  lemma HeaderCounts()
    ensures Occurrences('<', Header) == 0
    ensures Occurrences('(', Header) == 1
  {
    HeaderHasNoLeaf();
    HeaderHasOneParen();
  }

  lemma HeaderHasNoLeaf()
    ensures Occurrences('<', Header) == 0
  {
    OccurrencesAbsent('<', Header);
  }

  lemma HeaderHasOneParen()
    ensures Occurrences('(', Header) == 1
  {
    var w, r := "while", "*ptr!=0)";
    assert Header == w + (['('] + r);
    OccurrencesAbsent('(', w);
    OccurrencesAbsent('(', r);
    OccurrencesAppend('(', w, ['('] + r);
    OccurrencesCons('(', '(', r);
  }

  lemma {:induction false} PrintSequenceCounts(c: seq<Node>, indent: nat)
    ensures Occurrences('<', PrintSequence(c, indent)) == LeafCountAll(c)
    ensures Occurrences('(', PrintSequence(c, indent)) == LoopCountAll(c)
    decreases c, 1
  {
    PrintChildrenCounts(c, indent + 4);
    PrintCountsNone(indent);
    var a := Spaces(indent) + "{\n";
    var b := PrintChildren(c, indent + 4);
    var d := Spaces(indent) + "}";
    OccurrencesAppend('<', Spaces(indent), "{\n");
    OccurrencesAppend('(', Spaces(indent), "{\n");
    OccurrencesAppend('<', Spaces(indent), "}");
    OccurrencesAppend('(', Spaces(indent), "}");
    OccurrencesAppend('<', a, b);
    OccurrencesAppend('(', a, b);
    OccurrencesAppend('<', a + b, d);
    OccurrencesAppend('(', a + b, d);
    assert PrintSequence(c, indent) == a + b + d;
  }

  lemma {:induction false} PrintChildrenCounts(c: seq<Node>, indent: nat)
    ensures Occurrences('<', PrintChildren(c, indent)) == LeafCountAll(c)
    ensures Occurrences('(', PrintChildren(c, indent)) == LoopCountAll(c)
    decreases c, 0
  {
    if |c| > 0 {
      PrintCounts(c[0], indent);
      PrintChildrenCounts(c[1..], indent);
      var p := Print(c[0], indent);
      var q := PrintChildren(c[1..], indent);
      OccurrencesAppend('<', p, "\n");
      OccurrencesAppend('(', p, "\n");
      OccurrencesAppend('<', p + "\n", q);
      OccurrencesAppend('(', p + "\n", q);
    }
  }

  lemma PrintCountsNone(indent: nat)
    ensures Occurrences('<', Spaces(indent)) == 0 && Occurrences('(', Spaces(indent)) == 0
  {
    OccurrencesAbsent('<', Spaces(indent));
    OccurrencesAbsent('(', Spaces(indent));
  }

  // ---------------------------------------------------------------------
  // Visitors

  /** The eight `visit` overloads of `AST_Visitor`. */
  datatype Overload =
    | OnSequence
    | OnWhileLoop
    | OnPointerDecrement
    | OnPointerIncrement
    | OnValueDecrement
    | OnValueIncrement
    | OnPutChar
    | OnGetChar

  /** A visitor: one handler per overload, each transforming the visitor's
      state `S` given the visited node. */
  datatype Visitor<!S> = Visitor(
    sequence: (Node, S) -> S,
    whileLoop: (Node, S) -> S,
    pointerDecrement: (Node, S) -> S,
    pointerIncrement: (Node, S) -> S,
    valueDecrement: (Node, S) -> S,
    valueIncrement: (Node, S) -> S,
    putChar: (Node, S) -> S,
    getChar: (Node, S) -> S)

  /** `accept`: each node class calls the overload for its own static type. */
  function Accept<S>(v: Visitor<S>, n: Node, s: S): S
  {
    match n
    case Sequence(_) => v.sequence(n, s)
    case WhileLoop(_) => v.whileLoop(n, s)
    case Instruction(PointerDecrement) => v.pointerDecrement(n, s)
    case Instruction(PointerIncrement) => v.pointerIncrement(n, s)
    case Instruction(ValueDecrement) => v.valueDecrement(n, s)
    case Instruction(ValueIncrement) => v.valueIncrement(n, s)
    case Instruction(PutChar) => v.putChar(n, s)
    case Instruction(GetChar) => v.getChar(n, s)
  }

  /** The `AST_Visitor` base class: every overload does nothing. */
  function DefaultVisitor<S>(): Visitor<S>
  {
    var skip := (n: Node, s: S) => s;
    Visitor(skip, skip, skip, skip, skip, skip, skip, skip)
  }

  /** A visitor whose every overload appends its own name to a log. */
  function Recorder(): Visitor<seq<Overload>>
  {
    Visitor(
      (n: Node, log: seq<Overload>) => log + [OnSequence],
      (n: Node, log: seq<Overload>) => log + [OnWhileLoop],
      (n: Node, log: seq<Overload>) => log + [OnPointerDecrement],
      (n: Node, log: seq<Overload>) => log + [OnPointerIncrement],
      (n: Node, log: seq<Overload>) => log + [OnValueDecrement],
      (n: Node, log: seq<Overload>) => log + [OnValueIncrement],
      (n: Node, log: seq<Overload>) => log + [OnPutChar],
      (n: Node, log: seq<Overload>) => log + [OnGetChar])
  }

  /** The default visitor leaves its state unchanged on every node. */
  lemma DefaultVisitorDoesNothing<S>(n: Node, s: S)
    ensures Accept(DefaultVisitor(), n, s) == s
  {
  }

  /** `accept` calls exactly one overload, the one named after the node's own
      class: a loop reaches the `While_Loop` overload, never the `Sequence`
      one, although a loop is a sequence. */
  lemma AcceptDispatchesOnOwnKind(n: Node, log: seq<Overload>)
    ensures n.Sequence? ==> Accept(Recorder(), n, log) == log + [OnSequence]
    ensures n.WhileLoop? ==> Accept(Recorder(), n, log) == log + [OnWhileLoop]
    ensures n == Instruction(PointerIncrement) ==> Accept(Recorder(), n, log) == log + [OnPointerIncrement]
    ensures n == Instruction(PointerDecrement) ==> Accept(Recorder(), n, log) == log + [OnPointerDecrement]
    ensures n == Instruction(ValueIncrement) ==> Accept(Recorder(), n, log) == log + [OnValueIncrement]
    ensures n == Instruction(ValueDecrement) ==> Accept(Recorder(), n, log) == log + [OnValueDecrement]
    ensures n == Instruction(PutChar) ==> Accept(Recorder(), n, log) == log + [OnPutChar]
    ensures n == Instruction(GetChar) ==> Accept(Recorder(), n, log) == log + [OnGetChar]
  {
  }
}
