# bfllvm in Dafny

bfllvm compiles Brainfuck to LLVM IR. This project models its pipeline:
- the one-character-to-one-token lexer;
- the recursive-descent parser, with its `"ok"` / error-text state;
- the AST (`Sequence`, `While_Loop`, six instruction leaves), its `print` format and its visitor dispatch;
- the code-generating visitor. It lowers the tree into the basic blocks of `main` over a 60000-cell byte tape.

The model is pure functions over immutable datatypes. Each property is stated against an independent partner:
- a bracket-depth scan and the prefix-depth definition of a balanced text, for the parser;
- an unparser, for the round trip;
- a reference interpreter over the tape, for the generated code.

Modules, in dependency order:

- `Wrappers`: `Option` and `Result`.
- `Lexer`: the `Token` enum and its codes, the character table, `peek` / `get_next` over the unread characters. END is sticky.
- `StreamLexer`: the lexer as written against `std::istream`, with its end-of-file flag. See "## Findings".
- `Ast`: the tree; `push_back` / `size` / `get`; the `While_Loop` constructor; leaf and loop counts; `print`; the visitor as a record of eight handlers, with `accept`.
- `Parser`: `parse_sequence`, and `Parser::parse` with the state text.
- `ParserProps`: parse succeeds iff the brackets balance, with the first-mismatch error; what a parse consumes and builds.
- `ParserRoundTrip`:
  - unparse after parse gives back the commands of the text;
  - parse after unparse gives back the tree;
  - the counts;
  - the lexer discrepancy changes no parse.
- `Tape`: the cells, 8-bit wrap-around, sign extension and truncation, `getchar` input with EOF = -1, and the trace of C library calls.
- `Semantics`: the reference interpreter of a tree. Loops are bounded by fuel.
- `Ir`: an abstract IR with one instruction per IRBuilder call, over four virtual registers, and its executor.
- `CodeGen`: the builder state (blocks created so far plus insertion block), `BasicBlock::Create`, the visitor's lowering, and `generate_code`.
- `CodeGenProps`: the structure of the generated function:
  - the block count;
  - entry first and `end` last;
  - one terminator per block;
  - branch targets in range;
  - the wiring of each loop's four blocks.
- `LeafEffects`: what each leaf's instruction list does to the machine.
- `CodeGenCorrect`: the generated function agrees with the reference interpreter. A run of the tree that ends within its fuel makes the generated `main` reach `ret 0`. It ends with the same tape, pointer, remaining input and trace of `putchar` / `fflush` / `getchar` calls.

## Model

| member | source | states |
|---|---|---|
| Lexer.Code | src/lexer.h:16-28 | the enum value of every token is below ten |
| Lexer.FromCode | src/lexer.h:16-28 | the token with a given code in 0..9 has that code |
| Lexer.CodesAreABijection | src/lexer.h:16-28 | codes and tokens correspond one to one; the codes start at 0 with PTR_INC and END is the last, 9 |
| Lexer.Spelling | src/lexer.cpp:29-46 | the character each command token is read from is one of the eight command characters |
| Lexer.Classify | src/lexer.cpp:29-49 | the table never yields END; it yields OTHER exactly on non-command characters; otherwise the token's spelling is the character |
| Lexer.ClassifySpelling | src/lexer.cpp:29-46 | each command token is read back from its own character, so no two tokens share or swap a character |
| Lexer.Peek | src/lexer.cpp:24-53 | END exactly when no character is left; otherwise OTHER exactly for a non-command character, and a command token spelled by the next character |
| Lexer.GetNext | src/lexer.cpp:13-22 | returns what `peek` returns; consumes exactly the first character when there is one; at the end returns END and changes nothing |
| Lexer.EndIsSticky | src/lexer.h:40-43 | after as many calls as there are characters, every further `peek` and `get_next` returns END and leaves the lexer unchanged |
| Lexer.DrainIsTokens | src/lexer.cpp:13-53 | calling `get_next` until END yields exactly one table token per character, in order |
| StreamLexer.Peek | src/lexer.cpp:24-53 | with the `istream` flag: END exactly when the flag is set; a fresh stream with nothing left yields OTHER and raises the flag |
| StreamLexer.GetNext | src/lexer.cpp:13-22 | with the `istream` flag: returns what `peek` returns; consumes one character, or raises the flag, or changes nothing once the flag is set |
| StreamLexer.EmptyStreamYieldsOther | src/lexer.cpp:13-22 | on an exhausted stream two peeks disagree (OTHER, then END) and `get_next` returns OTHER before END |
| StreamLexer.DrainAddsOther | src/lexer.cpp:13-53 | over `std::istream` the lexer yields the table tokens of the text followed by one extra OTHER |
| Parser.Message | src/parser.cpp:69-97 | each error text differs from the initial state "ok" |
| Parser.TokenOf | src/parser.cpp:26-55 | the six leaf tokens and the six leaf kinds correspond one to one through the parser's switch |
| Parser.LeafOfTokenOf | src/parser.cpp:26-55 | each leaf token's case appends a leaf from which that token is read back, so no two leaf tokens append the same leaf |
| Parser.ParseSequence | src/parser.cpp:17-99 | never consumes more tokens than it has; success yields a sequence; an inner parse can only fail with the missing-']' error |
| Parser.Parse | src/parser.cpp:12-15 | success keeps the state text and yields a sequence; failure sets the state to one of the two error texts |
| Parser.FreshParserState | src/parser.h:23-30 | on a fresh parser the AST is present exactly when `state()` still reads "ok"; a failure leaves the text of the error the parse hit |
| ParserProps.CheckMeansBalanced | src/parser.cpp:56-80 | the bracket scan finds no error iff no prefix closes too much and the depths total zero; it reports a missing '[' iff some prefix closes too much, and a missing ']' otherwise |
| ParserProps.ParseAgreesWithCheck | src/parser.cpp:17-99 | an inner parse closes exactly one level of bracket depth or fails for want of a ']'; a top-level parse fails with exactly the scan's first mismatch |
| ParserProps.ParseSucceedsIffBalanced | src/parser.cpp:17-99 | parsing succeeds iff the brackets are balanced; it fails with "Expected an opening '['" iff some prefix has more ']' than '[', and with "Expected a closing ']'" iff none does but a '[' stays open |
| ParserProps.ParseSpellsInput | src/parser.cpp:17-99 | a parse keeps what was built and appends only leaves and loops of leaves and loops; the appended children spell the consumed text with comments dropped; the unconsumed tokens are those of the rest of the text; a top-level parse consumes everything |
| ParserRoundTrip.ParseThenUnparse | src/parser.cpp:17-99 | unparsing a successful parse gives the text's command characters in order, and the tree has plain sequences only at the root |
| ParserRoundTrip.UnparseThenParse | src/parser.cpp:17-99 | parsing the text of any tree of that shape gives the same tree back |
| ParserRoundTrip.ParseCounts | src/parser.cpp:26-68 | a parsed tree has one leaf per `<>+-.,` character of the text and one loop per '[' |
| ParserRoundTrip.TrailingOtherIsSkipped | src/parser.cpp:81-85 | one more OTHER at the end of the tokens changes no parse result |
| ParserRoundTrip.StreamLexerParsesAlike | src/parser.cpp:17-99 | parsing over the `std::istream` lexer gives the same result as over the corrected lexer |
| Ast.PushBack | src/ast.h:61-69 | appends the element at the end, keeps earlier children and the node's class, and grows the size by one |
| Ast.MakeLoop | src/ast.h:202-205 | the loop built from a sequence has the same children in the same order |
| Ast.Spaces | src/ast.h:88 | the indentation string has the given length and holds only spaces |
| Ast.TypeNamesDistinct | src/ast.h:120-196 | the six type names are pairwise distinct, so a printed leaf names its kind |
| Ast.PrintLayout | src/ast.h:86-211 | every print starts with its indentation; a leaf is its bracketed type name; a sequence ends in '}' and an empty one is two brace lines; a loop is the header followed by the sequence print at the same indentation |
| Ast.PrintCounts | src/ast.h:86-211 | the printed text has one '<' per instruction leaf and one '(' per loop |
| Ast.DefaultVisitorDoesNothing | src/ast.h:28-39 | the base visitor leaves its state unchanged on every node |
| Ast.AcceptDispatchesOnOwnKind | src/ast.h:99-216 | `accept` calls exactly one overload, the one of the node's own class; a loop reaches the `While_Loop` overload, never the `Sequence` one |
| Tape.Zeros | src/code_gen.cpp:94-103 | the tape initialiser has the given number of cells, all zero |
| Tape.Add8 | src/code_gen.cpp:169-176 | an i8 `add` always yields a byte |
| Tape.Sub8 | src/code_gen.cpp:178-185 | an i8 `sub` always yields a byte |
| Tape.SignExtend | src/code_gen.cpp:140 | `sext i8 to i32` is in -128..127, keeps the low eight bits, and is negative exactly for bytes from 128 |
| Tape.Truncate | src/code_gen.cpp:196 | `trunc i32 to i8` yields a byte and keeps a value that already is one |
| Tape.Initial | src/code_gen.cpp:94-116 | the program starts with 60000 zero cells and the pointer at cell 0, in bounds |
| Tape.NextInput | src/code_gen.cpp:195 | `getchar` consumes exactly the first input value and returns it, or returns EOF and consumes nothing when the input is empty; on byte input EOF comes back exactly when the input is empty, and the result is a byte or EOF |
| Tape.ByteWrapAround | src/code_gen.cpp:169-199 | 255 + 1 wraps to 0 and 0 - 1 to 255; EOF stored to a cell reads as 255, which `putchar` gets as -1 |
| Tape.IncDecCancel | src/code_gen.cpp:169-185 | incrementing and decrementing a byte cell undo each other in either order |
| Semantics.Step | src/code_gen.cpp:153-199 | pointer moves always succeed and move by one; every cell access succeeds exactly when the pointer is on the tape |
| CodeGen.Emit | src/code_gen.cpp:137-198 | the insertion block keeps its name and gains exactly the emitted code at its end; the insertion point and the number of blocks stay the same |
| CodeGen.EmitFrame | src/code_gen.cpp:137-198 | emitting changes no block other than the insertion block |
| CodeGen.Create | src/code_gen.cpp:217-219 | a new block goes at the end of `main`, is empty and carries the given name, gets the next index, and leaves the insertion point alone |
| CodeGen.CreateFrame | src/code_gen.cpp:217-219 | the blocks created earlier are unchanged by a `Create` |
| CodeGen.LeafCode | src/code_gen.cpp:153-199 | every leaf's code is non-empty and straight-line: no instruction of it branches or returns |
| CodeGen.Lower | src/code_gen.cpp:153-244 | lowering a node adds exactly four blocks per loop in it |
| CodeGen.Generate | src/code_gen.cpp:106-125 | `main` has the entry block, the `end` block and four blocks per loop of the tree |
| CodeGen.LowerAll | src/code_gen.cpp:201-208 | lowering children adds exactly four blocks per loop in them |
| CodeGen.LoopHead | src/code_gen.cpp:212-228 | a loop's head adds three blocks and continues in the first block after `condition` |
| CodeGen.LoopTail | src/code_gen.cpp:236-243 | a loop's tail adds one block and continues in `after_loop` |
| CodeGenProps.EmitValid | src/code_gen.cpp:137-198 | emitting straight-line code keeps every finished block finished and the insertion block open |
| CodeGenProps.LowerValid | src/code_gen.cpp:153-244 | lowering any node keeps the builder invariant: the insertion block is open; every block is open or ends in its only terminator; branches name existing blocks; finished blocks stay as they are |
| CodeGenProps.LowerAllValid | src/code_gen.cpp:201-208 | the same invariant for the children of a sequence |
| CodeGenProps.ClosedMeansOneTerminator | src/code_gen.cpp:127-129 | a block is finished iff it holds exactly one terminator and that terminator is its last instruction |
| CodeGenProps.GenerateWellFormed | src/code_gen.cpp:106-132 | `main` has 2 + 4 per loop blocks; `entry` comes first and starts with the pointer set-up; `end` comes last and holds only `ret 0`; every block ends in exactly one terminator, and every branch names a block of `main` |
| CodeGenProps.LoopWiring | src/code_gen.cpp:210-244 | a loop's blocks are wired as written: the block before it branches to `condition`; `condition` tests the cell and branches to `loop_body_start` or `after_loop`; the body's last block branches to `loop_back`, which branches to `condition`; lowering continues in the empty `after_loop` |
| CodeGenProps.EmitEmit | src/code_gen.cpp:137-198 | code emitted in two steps is the code emitted in one |
| CodeGenProps.LowerAllAppend | src/code_gen.cpp:201-208 | the children of a sequence are lowered one after another, in order |
| CodeGenProps.LowerLoopFree | src/code_gen.cpp:153-208 | a loop-free tree is lowered into its insertion block as the leaf codes in program order, with no new block |
| LeafEffects.PointerCode | src/code_gen.cpp:153-167 | pointer increment and decrement move `current_ptr` by one cell and touch nothing else |
| LeafEffects.IncrementCode | src/code_gen.cpp:169-176 | value increment succeeds iff the pointer is on the tape and then adds one modulo 256 to the current cell only |
| LeafEffects.DecrementCode | src/code_gen.cpp:178-185 | value decrement succeeds iff the pointer is on the tape and then subtracts one modulo 256 from the current cell only |
| LeafEffects.OutputCodeEffect | src/code_gen.cpp:134-144 | output succeeds iff the pointer is on the tape and then calls `putchar` once with the sign-extended cell, then `fflush` once |
| LeafEffects.InputCode | src/code_gen.cpp:192-199 | input succeeds iff the pointer is on the tape, and then consumes one input value and stores it, truncated, in the current cell only |
| LeafEffects.ConditionCodeEffect | src/code_gen.cpp:222-224 | the condition code succeeds iff the pointer is on the tape; it changes no memory, and its flag is set exactly when the cell is non-zero |
| LeafEffects.EntryCodeEffect | src/code_gen.cpp:110-116 | the entry code points `current_ptr` at cell 0, whatever it held |
| CodeGenCorrect.LeafCodeMatchesStep | src/code_gen.cpp:153-199 | each leaf's code is stuck exactly when the interpreter's step is, and otherwise ends in the step's state |
| CodeGenCorrect.LeafSim | src/code_gen.cpp:153-199 | in the finished function, a leaf's code runs from its start to the builder's next insertion point in the interpreter's state |
| CodeGenCorrect.LowerSim | src/code_gen.cpp:153-244 | for any node the interpreter runs, the generated code runs from the node's start to where lowering continued, ending in the interpreter's state |
| CodeGenCorrect.LowerAllSim | src/code_gen.cpp:201-208 | the same, for the children of a sequence in order |
| CodeGenCorrect.ConditionSim | src/code_gen.cpp:222-225 | from `condition`, one branch leads to `loop_body_start` if the cell is non-zero and to `after_loop` otherwise, with memory unchanged |
| CodeGenCorrect.LoopSim | src/code_gen.cpp:210-244 | from `condition`, the generated loop reaches `after_loop` in the state the interpreter's loop ends in |
| CodeGenCorrect.LoopIterationSim | src/code_gen.cpp:227-240 | from `loop_body_start` with a non-zero cell, the body, the branch to `loop_back` and the back edge lead on to `after_loop` in the interpreter's final loop state |
| CodeGenCorrect.GenerateLayout | src/code_gen.cpp:106-125 | where the parts of `generate_code` land in `main`: the entry code opens block 0, the program's last block branches to `end`, and `end` holds `ret 0` |
| CodeGenCorrect.GenerateAgrees | src/code_gen.cpp:106-244 | if the interpreter runs the program within its fuel, `main` returns 0 from any larger fuel on; the final tape, pointer, remaining input and call trace are the interpreter's |

Some definitions carry no contract of their own; the lemmas named here state their behaviour:
- `Ast.Print`, `Ast.PrintSequence` and `Ast.PrintChildren` (src/ast.h:86-211) by `Ast.PrintLayout` and `Ast.PrintCounts`;
- `Ast.Accept` (src/ast.h:99-216) by `Ast.AcceptDispatchesOnOwnKind` and `Ast.DefaultVisitorDoesNothing`;
- `Ast.Size` and `Ast.Get` (src/ast.h:76-84) by `Ast.PushBack` and `Ast.MakeLoop`;
- `Parser.LeafOf` (src/parser.cpp:26-55) by `Parser.TokenOf` and `Parser.LeafOfTokenOf`;
- the whole of `CodeGen.Generate` (src/code_gen.cpp:106-132) by `CodeGenProps.GenerateWellFormed`, `CodeGenCorrect.GenerateLayout` and `CodeGenCorrect.GenerateAgrees`.

## Left out

- LLVM object creation in `init_structures` (context, module, builder, types, constants, the `putchar` / `getchar` / `fflush` declarations and the `stdout` global) is not modelled. The IR is abstract: one instruction per IRBuilder call, over four virtual registers. The library routines become trace events and an input sequence.
- `verifyFunction` / `verifyModule` are not modelled. `CodeGenProps.GenerateWellFormed` states the block structure they would check.
- `write_object_file` (bitcode writing to a file) is left out: it is file I/O.
- `output_char` is left out because nothing in the core calls it.
- src/code_gen.h, src/driver.cpp and src/tests/test_output.py are not part of this model. They are the visitor's declaration, the command-line driver and an end-to-end test script.
- Ast.Size: returns an unbounded `nat`, not the source's `uint32_t`. The same holds for `Ast.Get`'s index and for the print indentation: trees with 2^32 children or deeper indentation are out of scope.
- `get_inner` and the two `push_back` overloads (copy and move) are one `Ast.PushBack`. The children are values, so `shared_ptr` aliasing and ownership are not modelled.
- LLVM renames blocks that share a name (`condition1`, ...). The model keeps the name given to `BasicBlock::Create`, and branches name blocks by index.
- The `default` branch of the parser's switch ("unhandled parsing error detected.") is unreachable: END ends the loop before the switch, and the other nine tokens have cases. The model has no such branch.
- Lexer.Tokens: characters stand for the bytes `std::istream::get` reads. On ASCII text the two agree. A non-ASCII character is one OTHER here, where the source reads two to four bytes and yields one OTHER per byte. OTHER tokens are skipped by the parser, so no parse changes, but `Lexer.DrainIsTokens` and `StreamLexer.DrainAddsOther` give the source's token stream only on ASCII text.
- Ast.Print: the indentation is a required argument. The source's default `indentation = 0` (src/ast.h:45) is not modelled: a top-level print is `Ast.Print(n, 0)`.
- The `state()` accessor is the `state` field of the `Parser` value.
- Semantics.Step: reading or writing a cell outside the 60000-cell tape is stuck (`None`), where the compiled program has undefined behaviour. Pointer moves alone never fail, as in the source.
- CodeGenCorrect.GenerateAgrees: states one direction only. A run of the tree that ends within its fuel implies that the generated code agrees. Non-terminating programs, and programs whose tree run gets stuck off the tape, are not related to the generated code.
- The visitor class hierarchy (`AST_Visitor` with eight virtual `visit` overloads) is a record of eight handler functions over a state value. The code generator is written as direct recursion (`CodeGen.Lower`), which is what its `accept` calls amount to.

## Findings

| source | as written | input that shows it | evidently intended | confidence | as-written member | corrected member |
|---|---|---|---|---|---|---|
| src/lexer.cpp:13-53 | `get_next` and `peek` test `eof()` before peeking. The flag is raised only by a read that finds nothing, so once the characters are used up one more token, OTHER (the EOF value falls to the `default` case), comes before END | the empty stream `""`: the first `peek` is OTHER and the second END; `get_next` returns OTHER, then END | END as soon as no character is left, and every further `peek` and `get_next` END (the header's "peek the next token") | not executed | StreamLexer.DrainAddsOther | Lexer.DrainIsTokens |

The extra OTHER is harmless to compilation: `ParserRoundTrip.StreamLexerParsesAlike` proves that parsing over the lexer as written gives the same result as over the corrected one. `StreamLexer.EmptyStreamYieldsOther` shows the discrepancy on the empty stream.

