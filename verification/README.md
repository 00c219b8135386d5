# Y language tools: verified models

This project models five programs of the repository and proves what they promise, for all
inputs, all runs and all heaps.

**The self-hosted compiler** (`c_src/compiler.c`). `Lexer` turns characters into tokens with
positions, and `LexerLaws` says which characters make which tokens. `Parser` climbs precedences and fills flat arenas (`Ast`) whose nodes name one another
by handles; what it does on any tokens is written down as functions in `ParserSpec`, and
`ArenaShape` shows that every arena it builds is acyclic and in range. `RoundTrip` prints trees,
parses them and reads them back; `StmtTrip` and `FuncTrip` do so with statements and functions,
`Flattening` says what is read back of any nesting of blocks, `EmptyBlocks` what becomes of empty
ones, `Endings` when the parser is ever done, and `Forms` what it keeps of loops, matches and
structure literals. `Emitter` turns arena ranges into labelled three-address code, `Calls` says
what stands on the line of a call, `ModuleText` how the functions follow one another, `LocalNames` says when its names clash (numbers are written least significant
digit first, `Digits`), `Machine` says what code and arenas mean, and `Preservation` shows that they
mean the same. `Pipeline` and `Compilation` join lexer, parser and emitter: from the text of a
function to the runs of its code.

**The runtime** (`c_src/runtime.c`). `Runtime` works on one byte memory: a bump arena whose last
block grows in place and whose other blocks move, growing strings and vectors on top of it, and a
hash table of string handles (`Registry`). `Heap` and `HeapSteps` say what a memory has to look
like for an object to be there, and why each operation leaves all other objects alone.

**The capture settings** (`c_src/shadowplay_capture.h`). `Devices` parses the device list of the
audio server in one pass and chooses a microphone, `ArgVector` packs a command line into an arena,
`Commands` builds the recorder commands, and `Sound` reads these commands as the recorders do.

**The overlay** (`c_src/shadowplay_gui.h`). `Recorders` starts, polls and stops three child
processes, with the operating system free to let starts fail and children end at any time.

**A kernel and a post-pass.** `Gemm` is the tiled matrix kernel of `run_blackwell_benchmarks.py`,
`CastElision` the part of `scripts/fix_ll.py` that drops casts, and `LineText` its replacement of
names in the text of a line.

Code that changes state is modelled as classes with methods, each proved against a function or an
abstract value; the lemmas are about these.

## What turned out differently

Some promises do not hold of the code as it stands. The model keeps the code, and states exactly
when they hold:

- A number of more than one digit is emitted reversed, so that 12 becomes 21. A literal keeps its
  value if and only if its digits are a palindrome (`Digits.LiteralFaithful`). The parser reads
  every integer literal as 0 (`c_src/compiler.c:1708`), so a parsed tree comes back with zeros.
- Of the binary operators exactly `+`, `-`, `*`, `/`, `==`, `!=`, `<` and `>` are emitted as what
  they denote. `%`, `<=`, `>=` and the logical and bitwise ones become additions
  (`Machine.OpcodeFaithful`).
- All arguments share one index vector, and a call claims a range of it. `f(g(x))` is read back as
  `f(x)`; a tree comes back as written if and only if no argument contains a call with arguments
  (`RoundTrip.PrintParseRoundTrip`).
- Structure literals share two vectors in the same way, so that a literal in a literal loses its own
  field (`Forms.NestedLiteralLosesItself`).
- The lexer knows thirteen characters of their own and no tokens of two. Of the sixteen operators that
  the parser takes, only `+`, `*`, `<`, `>` and `&` can be written in a text (`Compilation.OperatorLexed`).
- `for`, `match` and compound assignments are parsed and emit nothing (`Calls.StmtEmitsExactly`).
- The statements of nested blocks are pushed before their owner. The range recorded for a block is
  the block if and only if no statement in it owns statements, and otherwise its last statement
  falls outside (`ArenaShape.BlockRange`). Correctness of the emitter is therefore stated over ranges,
  and correctness of the whole compiler against the function as it is read back
  (`Compilation.CompiledFunction`). `if a < b { return a; } return b;` is read back with the return in
  front: its code returns `a`, always (`Compilation.MinMiscompiled`).
  Code and source as written agree for functions whose statements have no blocks and whose literals
  are zero (`Compilation.CompiledAsWritten`), and what is read back is what was written under exactly
  that condition (`Flattening.ShiftedAsWritten`).
- The slot of a variable is made before its initialiser runs, so the code of `let x = x + y;` gets
  stuck. So does the source, unless `x` is a variable already (`Preservation.SelfInitialiser`).
- An empty block behind a name begins with what looks like a structure literal. A conditional or loop
  with an empty first block is read as written if and only if its condition does not end in a name
  (`EmptyBlocks.EmptyBlockExact`); on `if x {}` the parser never ends (`EmptyBlocks.IfNameNeverEnds`).
- Some loops of the parser never end once the tokens are over, as in an unclosed block
  (`Endings.UnclosedBlock`). The model watches such a loop for any number of rounds (`patience`) and
  gives up (`hung`); it does so if and only if the parser never ends, and otherwise the number makes no
  difference (`Endings.HungNeverEnds`).
- The search for a handle ends if and only if a cell of the registry is empty or the handle is
  stored (`Registry.SearchStopsExactly`); `Registry.FreeCell` says when a cell is empty.
- The note about the sound is wrong in two corner cases, which `Sound.NoteMatchesCommand` names.
- Casts can alias one another in a circle (`CastElision.CircleOfAliases`), on lines that cannot be
  reached and nowhere else (`CastElision.CircleUnreachable`); `CastElision.Resolve` then returns an
  alias. The function keeps its meaning all the same (`CastElision.ElisionPreserves`).
- Aliases are replaced in the text of a line, so an alias `%x` also hits the name `%x.arg`
  (`LineText.DottedNameIsHit`). The text that results is the substitution of the names if and only if
  no name is an alias followed by a character outside words (`LineText.TextExact`).
- Shutting down leaves the flags of the screen recorder and of the replay buffer as they were
  (`c_src/shadowplay_gui.h:840-848`), so that flags are right afterwards if and only if both were clear
  (`Recorders.Overlay.Cleanup`).

## Model

| member | source | states |
|---|---|---|
| Digits.ReadReversed | c_src/compiler.c:2522-2546 | the digits are written least significant first: read backwards they give the number |
| Digits.IntTextInjective | c_src/compiler.c:2516-2548 | two numbers are never written alike |
| Digits.LiteralFaithful | c_src/compiler.c:2516-2548 | a written literal denotes its number if and only if the number is a palindrome |
| Digits.OneDigitFaithful | c_src/compiler.c:2516-2548 | numbers below ten are palindromes |
| Digits.TwelveIsPrintedReversed | c_src/compiler.c:2516-2548 | twelve comes out as 21 |
| Emitter.LlvmEmitter.IntToStr | c_src/compiler.c:2516-2548 | the digit loop computes the least-significant-first text of its number |
| Emitter.LlvmEmitter.FreshTmp | c_src/compiler.c:2550-2555 | every call counts up and names the new number |
| Emitter.LlvmEmitter.FreshLabel | c_src/compiler.c:2557-2563 | every call counts up and names the new number behind its prefix |
| Emitter.LlvmEmitter.EmitExpr | c_src/compiler.c:2733-2807 | the buffer grows by the code of the expression, the operand and the counter are those of the specification; ends on every acyclic arena |
| Emitter.LlvmEmitter.EmitBinary | c_src/compiler.c:2745-2776 | both operands, then one instruction with the opcode of the operator |
| Emitter.LlvmEmitter.EmitCall | c_src/compiler.c:2777-2804 | the call line with the code of its arguments in the middle, entry by entry of the shared index vector; which arguments and which values stand on that line is `CallLine` and `CallRuns` |
| Calls.CallLine | c_src/compiler.c:2777-2804 | the code of a call begins with a fresh temporary and the name of the callee, ends with its parenthesis, and at its own nesting depth holds exactly one operand for each of its entries, in the order of the entries, a comma before every one but the first |
| Calls.CallRuns | c_src/compiler.c:2777-2804 | when the argument code has run, operand j on the line holds the value of the expression at entry j, or the code is stuck, exactly when some argument has no value; other variables are unchanged |
| Calls.ExprEmitsExactly | c_src/compiler.c:2733-2807 | code is emitted exactly for names, operators and calls; everything else but a literal is the constant zero |
| Calls.StmtEmitsExactly | c_src/compiler.c:2604-2721 | no code is emitted exactly for `for`, `match`, compound assignments and expressions without code |
| Emitter.LlvmEmitter.EmitPlace | c_src/compiler.c:2723-2731 | the address that an assignment stores to |
| Emitter.LlvmEmitter.EmitStmt | c_src/compiler.c:2604-2721 | the buffer and both counters change exactly as the statement says |
| Emitter.LlvmEmitter.EmitIf | c_src/compiler.c:2640-2684 | labels, branches and both arena ranges of a conditional |
| Emitter.LlvmEmitter.EmitWhile | c_src/compiler.c:2685-2716 | labels, branches and the arena range of a loop |
| Emitter.LlvmEmitter.EmitRange | c_src/compiler.c:2596-2600 | a block is the range of statements, each emitted once, in order |
| Emitter.LlvmEmitter.EmitFunc | c_src/compiler.c:2565-2602 | arguments, slots, body range and the final return, with temporaries counted from zero |
| Emitter.LlvmEmitter.EmitModule | c_src/compiler.c:2831-2836 | the functions of the arena, with one label counter running through all of them |
| ModuleText.ModuleHeaders | c_src/compiler.c:2831-2836 | the function headers in the text of the module are the names of the functions, each once, in order |
| ModuleText.FunctionFound | c_src/compiler.c:2565-2602 | with different names, the text from a header to its closing line is found by its name and is the code of that function |
| Machine.OpcodeFaithful | c_src/compiler.c:2753-2771 | of all binary operators, exactly + - * / == != < > are given an opcode that computes what they denote on all operands; every other one, logical and bitwise ones included, is emitted as an addition and differs somewhere |
| Machine.RunStable | c_src/compiler.c:2565-2807 | a run that has ended stays as it is however many steps are added |
| LocalNames.TmpInjective | c_src/compiler.c:2550-2555 | temporaries with different numbers have different names |
| LocalNames.LabelInjective | c_src/compiler.c:2557-2563 | labels with different numbers have different names, whatever their prefixes |
| LocalNames.ExprDefs | c_src/compiler.c:2733-2807 | an expression defines exactly the temporaries between its two counters, each once |
| LocalNames.StmtDefs | c_src/compiler.c:2604-2721 | a statement defines its temporaries, its labels and its declared names, nothing else |
| LocalNames.FuncDefs | c_src/compiler.c:2565-2602 | how often a function defines each name |
| LocalNames.FuncWellNamed | c_src/compiler.c:2565-2602 | no name is defined twice in an emitted function if and only if its declared names are distinct and none is a temporary in use, the entry label or another label of the function, or the argument name of a parameter |
| LocalNames.GeneratedNotPlain | c_src/compiler.c:2550-2563 | no generated name has the shape of a plain one, so plain declarations can only clash with one another |
| LocalNames.BranchTargets | c_src/compiler.c:2640-2716 | every branch target is a label that its function defines exactly once |
| LocalNames.ModuleLabelsDistinct | c_src/compiler.c:2557-2563 | no label but the entry labels is defined twice in the whole module |
| Preservation.ExprSim | c_src/compiler.c:2733-2807 | running the code of an expression leaves its value in its operand and no variable changed, or gets stuck exactly when there is no value |
| Preservation.RangeSim | c_src/compiler.c:2596-2600 | running the code of a block does what running the arena range does |
| Preservation.StmtSim | c_src/compiler.c:2604-2721 | running the code of a statement does what the statement does, returns from inside included |
| Preservation.IfSim | c_src/compiler.c:2640-2684 | the branches of a conditional arrive where the chosen range says |
| Preservation.LoopSim | c_src/compiler.c:2685-2716 | the loop of the code and the loop of the source take the same turns, returns from the body included |
| Preservation.ParamsSim | c_src/compiler.c:2581-2595 | after the prologue every parameter is a variable with its argument |
| Preservation.EntryIs | c_src/compiler.c:2565-2595 | the first line of a function binds its arguments to the names of its parameters, in order |
| Preservation.SelfInitialiser | c_src/compiler.c:2606-2621 | the code of an initialiser that mentions the name it declares gets stuck; that is what the source does if and only if the initialiser has no value there |
| Preservation.StmtClear | c_src/compiler.c:2606-2621 | a name that only such declarations introduce is never a variable, whatever runs: the source is stuck there too |
| Preservation.FuncSim | c_src/compiler.c:2565-2602 | the source run of a function, for any number of loop turns, has its counterpart in the code |
| Preservation.Reflect | c_src/compiler.c:2565-2602 | and every run of the code has its counterpart in the source |
| Preservation.MeaningPreserved | c_src/compiler.c:2565-2807 | the emitted function returns a value, with given variables, if and only if the source does; gets stuck if and only if the source does; runs forever if and only if the source does, initialisers that mention the name they declare included |
| ParserSpec.SkipUntil | c_src/compiler.c:2056-2067 | skipping stops at a stop token only, and never at the end of the tokens |
| ParserSpec.ParseStmt | c_src/compiler.c:2041-2272 | a statement takes at least one token while there is one |
| Parser.AstArena.PushExpr | c_src/compiler.c:1708-1711 | the handle of a pushed node is the new length |
| Parser.AstArena.PushStmt | c_src/compiler.c:2075-2078 | the handle of a pushed statement is the new length |
| Parser.TokenParser.Next | c_src/compiler.c:1632-1638 | returns the token under the cursor and moves on unless the tokens are over |
| Parser.TokenParser.Expect | c_src/compiler.c:1675-1689 | takes one token whatever it is |
| Parser.TokenParser.ParsePrimary | c_src/compiler.c:1692-1853 | refines the specified parse of an operand on any tokens |
| Parser.TokenParser.ParseIdent | c_src/compiler.c:1748-1804 | refines the specified parse of a name: path, structure literal or identifier; what the literal holds is `StructTaken` |
| Parser.TokenParser.ParseFields | c_src/compiler.c:1772-1793 | the field loop does what its recursive specification says, endless rounds included |
| Parser.TokenParser.ParsePostfix | c_src/compiler.c:1855-1905 | the postfix loop does what its recursive specification says |
| Parser.TokenParser.ParseArgs | c_src/compiler.c:1863-1881 | the argument loop does what its recursive specification says |
| Parser.TokenParser.ParseExprBp | c_src/compiler.c:2011-2034 | precedence climbing refines its specification; how operators group is `Grouping`, for every tree `PrintParseRoundTrip` |
| Parser.TokenParser.ClimbOperators | c_src/compiler.c:2014-2033 | the operator loop does what its recursive specification says; which operators bind tighter is `OperatorLevels` |
| Parser.TokenParser.ParseStmt | c_src/compiler.c:2041-2272 | refines the specified parse of a statement |
| Parser.TokenParser.ParseLet | c_src/compiler.c:2044-2079 | refines the specified declaration, skipped type included |
| Parser.TokenParser.ParseReturn | c_src/compiler.c:2080-2093 | refines the specified return |
| Parser.TokenParser.ParseStmts | c_src/compiler.c:2098-2109 | the block loop counts its own statements, whose handles are the specified ones |
| Parser.TokenParser.ParseBraced | c_src/compiler.c:2097-2110 | a block with its braces |
| Parser.TokenParser.ParseIf | c_src/compiler.c:2094-2134 | refines the specified conditional: the recorded ranges start where the blocks start |
| Parser.TokenParser.ParseWhile | c_src/compiler.c:2135-2156 | refines the specified loop |
| Parser.TokenParser.ParseFor | c_src/compiler.c:2157-2189 | refines the specified counting loop; what it keeps of the text is `ForTaken` |
| Parser.TokenParser.ParseMatch | c_src/compiler.c:2190-2237 | refines the specified match; what it keeps of the text is `MatchTaken` |
| Parser.TokenParser.ParseArms | c_src/compiler.c:2194-2231 | the arm loop does what its recursive specification says |
| Parser.TokenParser.ParsePattern | c_src/compiler.c:2202-2217 | wildcard, variant or name |
| Parser.TokenParser.ParseSimple | c_src/compiler.c:2238-2271 | refines the specified assignment, compound assignment or expression statement |
| Parser.TokenParser.ParseTypeText | c_src/compiler.c:2292-2305 | of a type only the number of its tokens is kept, as blanks |
| Parser.TokenParser.ParseParams | c_src/compiler.c:2281-2316 | the parameter loop does what its recursive specification says |
| Parser.TokenParser.ParseFuncDecl | c_src/compiler.c:2275-2357 | refines the specified function declaration |
| ArenaShape.PrimarySound | c_src/compiler.c:1692-1853 | on any tokens: the arena stays acyclic and in range, only grows, and the handle names a node |
| ArenaShape.FieldsSound | c_src/compiler.c:1772-1793 | the entries that a structure literal claims exist and name nodes |
| ArenaShape.ArgsSound | c_src/compiler.c:1863-1881 | the argument entries that a call claims exist and name nodes before the call |
| ArenaShape.PostfixSound | c_src/compiler.c:1855-1905 | the same for postfix chains |
| ArenaShape.ExprSound | c_src/compiler.c:2011-2034 | the same for whole expressions |
| ArenaShape.StmtSound | c_src/compiler.c:2041-2272 | the same for statements: every recorded range ends before its owner, and the handle is the last statement |
| ArenaShape.BlockSound | c_src/compiler.c:2098-2109 | the handles of the statements of a block rise, and the last one is the newest statement |
| ArenaShape.FuncDeclSound | c_src/compiler.c:2275-2357 | the same for functions: exactly one new function, whose parameters are exactly the new ones |
| ArenaShape.ProgramSound | c_src/compiler.c:2275-2357 | however functions follow one another, and however long an endless loop is watched, the arena built from an empty one meets what the emitter needs to end without a bad index |
| ArenaShape.StmtGrowth | c_src/compiler.c:2041-2272 | a statement is pushed alone if and only if it owns no statements |
| ArenaShape.BlockRange | c_src/compiler.c:2098-2134 | the recorded range of a block is the block if and only if none of its statements owns statements; otherwise its last statement lies behind the range |
| ArenaShape.FuncBodyRange | c_src/compiler.c:2332-2356 | the same for the body of a function |
| RoundTrip.PrintParseRoundTrip | c_src/compiler.c:1692-2034 | a tree printed with parentheses around operands that bind looser, and nowhere else, is taken whole by the parser and read back as written, literals as zero, if and only if no call argument contains a call with arguments; how tightly an operator binds is a table of its own |
| RoundTrip.OperatorLevels | c_src/compiler.c:1907-2009 | the tokens taken for operators are exactly the sixteen, each with its operator and its level: `||`, `&&`, equality, order, `|` and `^`, `&`, sums, products, loosest first |
| RoundTrip.Grouping | c_src/compiler.c:1907-2034 | x o y p z is read as x o (y p z) if p binds tighter than o, and as (x o y) p z otherwise, for all names and operators |
| RoundTrip.ParsesExpr | c_src/compiler.c:2011-2034 | the induction behind it, for any level and any following token that cannot extend the tree |
| RoundTrip.ParsesOperand | c_src/compiler.c:2014-2033 | an operand read inside the operator loop leaves the loop where it was |
| RoundTrip.ParsesBinary | c_src/compiler.c:2015-2033 | all binary operators group to the left |
| RoundTrip.ParsesCall | c_src/compiler.c:1861-1885 | a call is read back as written if and only if its callee and its arguments are, and no argument pushed entries of its own |
| RoundTrip.MoreArgsBuilt | c_src/compiler.c:1863-1881 | where the entries of an argument list start to shift |
| RoundTrip.DecodeExtends | c_src/compiler.c:1855-2034 | what has been read back stays the same while the arena grows |
| RoundTrip.NestedCallLosesItself | c_src/compiler.c:1863-1881 | the smallest tree outside the condition: f(g(x)) is parsed and comes back as f(x) |
| StmtTrip.DecodeStmtExtends | c_src/compiler.c:2041-2272 | a statement that has been read back stays the same while the arena grows |
| StmtTrip.ParsesStatement | c_src/compiler.c:2041-2272 | a printed statement of any kind is taken whole, everything that was pushed can be read back, and it is read back as written if and only if its expressions are and no statement of its blocks has a block |
| StmtTrip.ParsesBlock | c_src/compiler.c:2098-2109 | the same for the statements of a block, up to the closing brace |
| StmtTrip.MoreBuilt | c_src/compiler.c:2098-2109 | where the range of a block starts to shift: at its first statement that has a block |
| StmtTrip.RangeIsBlock | c_src/compiler.c:2110-2134 | a recorded range reads as the block if and only if the statements of the block stand in it |
| StmtTrip.StmtRoundTrip | c_src/compiler.c:2041-2272 | parsing a printed statement, empty blocks included, takes exactly its tokens and reads it back, literals as zero, if and only if no call argument contains a call with arguments and no statement of a block has a block; an empty first block must not stand behind a name |
| StmtTrip.BlockRoundTrip | c_src/compiler.c:2068-2134 | the same for the range that the owner of a block records |
| EmptyBlocks.EmptyBlockExact | c_src/compiler.c:1753-1797 | a conditional or a loop with an empty first block is taken whole and read back if and only if its condition does not end in a name, and everything in it is flat |
| EmptyBlocks.EmptyBlockLost | c_src/compiler.c:1753-1797 | if its condition ends in a name, the block is taken for a structure literal: the parse never ends or its result can be read back as no printed statement |
| EmptyBlocks.ConditionLost | c_src/compiler.c:1753-1797 | the same for any expression that ends in a name in front of two braces |
| EmptyBlocks.IfNameNeverEnds | c_src/compiler.c:1772-1793 | the smallest such text: on the tokens of an empty conditional over a name the parser never ends |
| Endings.HungNeverEnds | c_src/compiler.c:2275-2357 | on any tokens the parse of a function is given up by the watch if and only if it never ends, and otherwise the result does not depend on how long it is watched |
| Endings.FuncDeclAlike | c_src/compiler.c:2275-2357 | the induction behind it: watched for longer, the parse of a function is the same |
| Endings.BlockNeverEnds | c_src/compiler.c:2098-2109 | at the end of the tokens the block loop goes on forever |
| Endings.FieldsNeverEnd | c_src/compiler.c:1772-1793 | and so does the field loop of a structure literal |
| Endings.ArmsNeverEnd | c_src/compiler.c:2194-2231 | and the loop over the arms of a match |
| Endings.ParamsNeverEnd | c_src/compiler.c:2281-2316 | and the loop over parameters |
| Endings.UnclosedBlock | c_src/compiler.c:2098-2109 | a block without any closing brace ahead is never over |
| Endings.UnclosedFunction | c_src/compiler.c:2275-2357 | nor is a function |
| FuncTrip.Skips | c_src/compiler.c:2290-2300 | types are skipped up to the first stop |
| FuncTrip.ParsesParams | c_src/compiler.c:2284-2317 | parameters are recorded in order with their names, and of their types the number of tokens |
| FuncTrip.FuncRoundTrip | c_src/compiler.c:2275-2357 | parsing a printed function takes exactly its tokens and keeps its name, its safety and its parameters; the recorded body is the body that was written if and only if no call argument contains a call with arguments and no statement of it has a block |
| FuncTrip.LetForms | c_src/compiler.c:2041-2082 | neither `mut` nor a type, whatever its tokens are, leaves a trace in a declaration |
| Forms.ForTaken | c_src/compiler.c:2157-2189 | a printed counting loop is taken whole: name, bounds and step are those written, and the range is the block exactly if no statement of the block has a block |
| Forms.MatchTaken | c_src/compiler.c:2190-2237 | a printed match is taken whole: its subject, and as many new arms as were written, in order, each with its pattern and its body |
| Forms.StructTaken | c_src/compiler.c:1758-1799 | a printed structure literal is taken whole and owns as many new entries as it has fields, in order, each with its name and its value |
| Forms.NestedLiteralLosesItself | c_src/compiler.c:1772-1797 | a literal in a literal: the entry that the outer one owns is the field of the inner one, whatever the names and the value |
| Flattening.StmtPushes | c_src/compiler.c:2041-2272 | however statements are nested, parsing pushes exactly the statements `Pushed` lists, blocks before their owners, each reading the first of its pushed statements as its block |
| Flattening.BlockShifts | c_src/compiler.c:2068-2134 | the recorded range of any block reads as as many statements as the block has, from the first that was pushed for it |
| Flattening.FuncShifts | c_src/compiler.c:2275-2357 | the same for the body of a function |
| Flattening.ShiftedExact | c_src/compiler.c:2068-2134 | that is the block itself if and only if none of its statements has a block |
| Flattening.BlockZeroedSame | c_src/compiler.c:1708 | literals read as zero change nothing if and only if none of them is another number |
| Flattening.ShiftedAsWritten | c_src/compiler.c:2068-2134 | what is read back is what was written, literals included, if and only if no statement has a block and no literal is a number but zero |
| Flattening.FirstPushed | c_src/compiler.c:2068-2134 | what is pushed first for a statement has no block, so a shifted block never begins with one |
| Pipeline.DecodedMeaning | c_src/compiler.c:2733-2807 | the tree read back from an arena means what the arena means |
| Pipeline.CompiledValue | c_src/compiler.c:2011-2807 | from tokens to the machine: the code of a parsed expression computes the value of the tree it was printed from, literals taken as zero |
| Compilation.StmtAlike | c_src/compiler.c:2604-2721 | a statement does in the arena what the statement that is read back does, loops and early returns included |
| Compilation.RangeAlike | c_src/compiler.c:2596-2600 | the same for ranges |
| Compilation.PushedCovered | c_src/compiler.c:2041-2272 | whatever parsing pushes for a covered statement is covered |
| Compilation.CompiledStatement | c_src/compiler.c:2041-2721 | from tokens to the machine: the code of a parsed statement, anywhere in code with unique labels, does what the statement does as it is read back |
| Compilation.CompiledFunction | c_src/compiler.c:2275-2807 | from tokens to the machine: the code of a parsed function, however its statements are nested, returns a value if and only if the function does as it is read back, gets stuck if and only if that does, and runs forever if and only if that does |
| Compilation.CompiledAsWritten | c_src/compiler.c:2275-2807 | under exactly that condition on the body, the code returns, gets stuck or runs forever if and only if the function as written does |
| Compilation.CompiledText | c_src/compiler.c:1431-2807 | the same from characters: the text of a function is lexed into the tokens it was written with, parsed from an empty arena, and its code does what the function does as it is read back |
| Compilation.MinMeaning | c_src/compiler.c:2041-2272 | what a reader of the source takes the smaller-of-two function to return |
| Compilation.MinMiscompiled | c_src/compiler.c:2068-2134 | its code returns the first argument, whichever is smaller: an early return inside a conditional moves in front of it |
| Lexer.CharLexer.Advance | c_src/compiler.c:1257-1270 | line and column stay those of the cursor |
| Lexer.CharLexer.SkipWhitespace | c_src/compiler.c:1343-1359 | stops at the first character that is not blank |
| Lexer.CharLexer.ScanRun | c_src/compiler.c:1361-1429 | a word or number is the longest run that its first character allows; which characters that are is `WordLexes` and `NumberLexes` |
| Lexer.CharLexer.NextToken | c_src/compiler.c:1431-1520 | the token at the first character that is not blank, with its line and column, or the end; what it is for each character is `WordLexes` to `UnknownLexes` |
| Lexer.CharLexer.Tokenize | c_src/compiler.c:1523-1536 | the tokens of the text up to its first terminator; token by token they are those of the laws `NothingLexes` to `UnknownLexes` |
| Lexer.Coverage | c_src/compiler.c:1431-1536 | tokens come in order without overlap, cover every non-blank character before the first terminator and no other, and carry the line and column of their first character |
| Lexer.LexingIsStable | c_src/compiler.c:1431-1536 | lexing the lexemes joined by spaces gives the same lexemes and kinds, unknown characters having become question marks |
| Lexer.JoinedLexes | c_src/compiler.c:1431-1536 | lexemes joined by spaces are lexed into themselves |
| LexerLaws.WordLexes | c_src/compiler.c:1282-1397 | letters, digits and underscores after a letter or an underscore, up to another character, are one token: a keyword if listed, a name otherwise; the other tokens are those of the rest |
| LexerLaws.NumberLexes | c_src/compiler.c:1399-1429 | so are digits and dots after a digit, a floating-point number exactly if there is a dot |
| LexerLaws.PunctuationLexes | c_src/compiler.c:1431-1520 | each of the thirteen punctuation characters is a token with itself as lexeme |
| LexerLaws.BlankLexes | c_src/compiler.c:1343-1359 | a space, a tab, a newline and a return are passed over |
| LexerLaws.NothingLexes | c_src/compiler.c:1431-1536 | nothing has no tokens, and nothing is read behind a terminator |
| LexerLaws.UnknownLexes | c_src/compiler.c:1431-1520 | any other character is an unknown token whose lexeme is a question mark |
| LexerLaws.TokenlessExactly | c_src/compiler.c:1343-1536 | a character alone has no token exactly if it is one of the four blanks or the terminator |
| LexerLaws.LexemeExactly | c_src/compiler.c:1361-1520 | the lexemes are exactly the words, the numbers, the thirteen characters and the question mark |
| LexerLaws.EveryLexeme | c_src/compiler.c:1523-1536 | every token of every text has such a lexeme |
| LexerLaws.TokenLine | c_src/compiler.c:1257-1270 | the line of a token is one more than the number of newlines before it |
| LexerLaws.ColumnCounts | c_src/compiler.c:1257-1270 | the column is one more than the number of characters since the line began |
| Compilation.OperatorLexed | c_src/compiler.c:1431-1520 | of the sixteen operators only + * < > & are lexemes of any text |
| Registry.SearchGoesOn | c_src/runtime.c:85-93 | a search for a stored pointer meets no empty cell before it, around the end of the table |
| Registry.SearchEnds | c_src/runtime.c:85-93 | at an empty cell the pointer is not stored |
| Registry.Fill | c_src/runtime.c:76-83 | storing a pointer keeps every other one reachable on an unbroken probe chain |
| Registry.Distinct | c_src/runtime.c:76-83 | no pointer is stored twice |
| Registry.FreeCell | c_src/runtime.c:76-93 | a cell is empty if and only if fewer pointers than cells are stored |
| Registry.SearchStopsExactly | c_src/runtime.c:85-93 | the search for a pointer ever stops if and only if a cell is empty or the pointer is stored |
| Registry.HandleTable.Register | c_src/runtime.c:76-83 | adds exactly its pointer to the set; the loop ends by circular distance |
| Registry.HandleTable.IsValid | c_src/runtime.c:85-93 | true exactly for registered pointers; the loop ends by circular distance |
| Heap.TouchedBytes | c_src/runtime.c:30-58 | where only bytes of one object changed, every other block is as it was |
| Heap.OthersKept | c_src/runtime.c:42-58 | then every other object keeps its value |
| HeapSteps.ExtendArena | c_src/runtime.c:30-40 | handing out a block keeps blocks disjoint, aligned and inside the used prefix |
| HeapSteps.GrowLast | c_src/runtime.c:47-53 | and so does growing the last block in place |
| HeapSteps.GrownOk | c_src/runtime.c:132-226 | an object given more room, in place or moved, keeps its value, and so do all others |
| HeapSteps.AppendOk | c_src/runtime.c:132-226 | writing behind the contents of one object leaves all others as they are |
| HeapSteps.ElementAt | c_src/runtime.c:228-232 | where element i stands, and that it is element i |
| HeapSteps.LinearSpace | c_src/runtime.c:202-226 | a vector of n elements has taken at most 24 + max(8, 4n) * elem_size bytes of the arena, however other allocations interleave |
| HeapSteps.ThriftyPush | c_src/runtime.c:212-226 | a push keeps that bound |
| HeapSteps.SlotIsNotHandle | c_src/runtime.c:95-102 | a place inside a block that is not the header of a string is never itself a string handle |
| HeapSteps.ElementResolves | c_src/runtime.c:95-102 | the address of a part of a vector element that holds a string handle resolves to that handle, whatever the size of the elements and wherever in the element the part stands |
| Runtime.Runtime.YMalloc | c_src/runtime.c:30-40 | the next block, or the out-of-memory exit exactly when it does not fit |
| Runtime.Runtime.AllocRaw | c_src/runtime.c:30-40 | a block that a program takes for itself: no string and no vector changes |
| Runtime.Runtime.YRealloc | c_src/runtime.c:42-58 | in place exactly when the block is the last one, otherwise moved with its bytes; the exit exactly when the used prefix would not fit the pool |
| Runtime.Runtime.Move | c_src/runtime.c:55-57 | a moved block keeps its old bytes |
| Runtime.Runtime.Resolve | c_src/runtime.c:95-102 | the string meant by a handle or by the address of a place that holds one |
| Runtime.Runtime.YStrNew | c_src/runtime.c:111-124 | a new registered string with the text, every other object unchanged |
| Runtime.Runtime.YStrClone | c_src/runtime.c:126-130 | a new string with the text up to its first zero byte |
| Runtime.Runtime.YStrPush | c_src/runtime.c:132-143 | the text grows by one byte and no other object changes, in place or moved |
| Runtime.Runtime.YStrPushStr | c_src/runtime.c:145-159 | the text grows by the other one, itself included, and no other object changes |
| Runtime.Runtime.YStrLen | c_src/runtime.c:176-180 | the length of the text |
| Runtime.Runtime.YStrCharAt | c_src/runtime.c:182-186 | the signed character at an index, or zero outside |
| Runtime.Runtime.YStrEq | c_src/runtime.c:161-167 | equal texts, or both null |
| Runtime.Runtime.YVecNew | c_src/runtime.c:202-210 | an empty vector with room for eight elements |
| Runtime.Runtime.YVecPush | c_src/runtime.c:212-226 | the sequence grows by the element that stood at the address, in the pool, in the same vector or elsewhere in memory, and no other object changes |
| Runtime.Runtime.YVecGet | c_src/runtime.c:228-232 | the address where the element stands, or null outside |
| Runtime.Runtime.YVecLen | c_src/runtime.c:246-251 | the length of the sequence |
| Devices.NextLine | c_src/shadowplay_capture.h:76-88 | the next line of the text without its leading blanks and trailing returns |
| Devices.Gather | c_src/shadowplay_capture.h:148-159 | the variables of the pass stand for the facts of the lines read so far |
| Devices.Flush | c_src/shadowplay_capture.h:131-139 | at the end of a block it is stored exactly if it is a candidate and there is room |
| Devices.ParseSources | c_src/shadowplay_capture.h:115-162 | one pass stores exactly the first max candidates among the source blocks, in order, and nothing else of the array |
| Devices.RenderParse | c_src/shadowplay_capture.h:76-162 | parsing the rendering of any source list, with names of any length and any other lines before, between and behind the facts of a source, returns exactly its first max sources that can record: no monitors, by sink and name alone, and names below 192 characters |
| Devices.SilentLine | c_src/shadowplay_capture.h:76-162 | a line that begins with none of the four marks says nothing to the pass |
| Devices.FindCi | c_src/shadowplay_capture.h:58-71 | substring, whatever the case |
| Devices.DeviceKey | c_src/shadowplay_capture.h:223-231 | what is between the first and last dot, if it fits |
| Devices.SameKey | c_src/shadowplay_capture.h:265-268 | comparing the two keys decides whether two names mean the same hardware |
| Devices.FindDefault | c_src/shadowplay_capture.h:260-264 | the least index of the default source |
| Devices.FindOnDevice | c_src/shadowplay_capture.h:265-274 | the least index of the best class on the hardware of the default output |
| Devices.PickMic | c_src/shadowplay_capture.h:253-282 | the least index of the best class with its reason; -1 only for an empty list |
| Devices.NamedLikeMicExactly | c_src/shadowplay_capture.h:233-235 | a device is named like a microphone exactly if the letters m, i, c of any case stand in its name or in what is shown of it |
| ArgVector.Argv.Init | c_src/shadowplay_capture.h:298-303 | an empty vector |
| ArgVector.Argv.Arg | c_src/shadowplay_capture.h:305-316 | a string that fits is added, one that does not is left out, and the overflow is remembered |
| ArgVector.PackedAdd | c_src/shadowplay_capture.h:311-315 | a string copied behind the others disturbs none of them |
| ArgVector.Argv.DecodedIsRequested | c_src/shadowplay_capture.h:286-316 | without overflow the decoded vector is exactly the sequence added; overflow exactly when 64 strings or 4096 bytes are exceeded |
| Commands.BuildCapture | c_src/shadowplay_capture.h:358-485 | with a recorder comes exactly the chosen command, as the child will find it; an overflowing command is never returned |
| Commands.BuildGsr | c_src/shadowplay_capture.h:373-397 | the command and note of gpu-screen-recorder |
| Commands.BuildWf | c_src/shadowplay_capture.h:399-417 | the command and note of wf-recorder |
| Commands.BuildFfmpeg | c_src/shadowplay_capture.h:419-482 | the command and note of ffmpeg |
| Sound.NoteMatchesCommand | c_src/shadowplay_capture.h:349-485 | the microphone is an audio source of the command exactly when the note says so, for all configurations but a name with a bar in it, or a microphone that is wf-recorder's desktop source |
| Sound.DesktopNoteTrue | c_src/shadowplay_capture.h:349-485 | the desktop is an audio source of the command exactly when the note says so |
| Sound.FfmpegReads | c_src/shadowplay_capture.h:419-468 | what ffmpeg finds in its command for each flag: screen, audio inputs, maps and encoders, in this order |
| Sound.FfmpegWires | c_src/shadowplay_capture.h:419-468 | inputs, maps and filters are those of the video, then those of the sound, and nothing else |
| Sound.FfmpegMiddle | c_src/shadowplay_capture.h:419-468 | the command begins with the program and ends with the file |
| Sound.ChosenExactly | c_src/shadowplay_capture.h:358-420 | gpu-screen-recorder is chosen exactly if it is there, a file is given and the microphone has a name below 209 characters; wf-recorder exactly if the former is not there, under Wayland, with a desktop source below 200 characters; ffmpeg exactly if it is there and neither of the others is in question |
| Sound.ProgramFirst | c_src/shadowplay_capture.h:358-485 | every command begins with its program, and without a recorder there is neither a command nor a note |
| Sound.GsrReads | c_src/shadowplay_capture.h:373-397 | what gpu-screen-recorder finds in its command for each flag: area, rate, size, sound, seconds of replay, codec, quality, container and file |
| Sound.WfReads | c_src/shadowplay_capture.h:399-417 | what wf-recorder finds in its command: its sound source and its file |
| Sound.DecimalReads | c_src/shadowplay_capture.h:373-397 | a number written into a command reads as that number |
| Sound.MapsExist | c_src/shadowplay_capture.h:439-460 | every map and filter names inputs that exist, every label is produced, and every input reaches the output |
| Gemm.LoadsInside | run_blackwell_benchmarks.py:63-75 | every access that the masks let through is inside its matrix, with the pointers as far advanced as they are |
| Gemm.OwnerUnique | run_blackwell_benchmarks.py:57-60 | the split of a program number leads to exactly one tile for every cell |
| Gemm.Wrapped | run_blackwell_benchmarks.py:62-63 | the wrapped row or column is in range, and is the own one wherever something is stored |
| Gemm.Kernel.TileDot | run_blackwell_benchmarks.py:71-75 | one step along the inner dimension adds exactly its part of the sum, padded tail included |
| Gemm.Kernel.AddTiles | run_blackwell_benchmarks.py:70-73 | for all places of the accumulator |
| Gemm.Kernel.Accumulate | run_blackwell_benchmarks.py:69-75 | after all steps the accumulator holds the whole sums |
| Gemm.Kernel.Program | run_blackwell_benchmarks.py:57-85 | a program stores exactly the cells of its tile, each once and with what belongs there |
| Gemm.Kernel.Launch | run_blackwell_benchmarks.py:57-85 | over the grid, in any order, every cell is stored exactly once with relu(sum of A*B + bias), and no other memory is touched |
| Gemm.RowMajor | run_blackwell_benchmarks.py:66-67 | row-major matrices have the layout the kernel presumes |
| CastElision.Resolve | scripts/fix_ll.py:225-230 | the end of the alias chain; where the chain goes in a circle, an alias whose chain never ends |
| CastElision.EndsExactly | scripts/fix_ll.py:225-230 | an alias chain ends if and only if it does not come back to a name it passed |
| CastElision.Elide | scripts/fix_ll.py:180-202 | the elided lines and the alias map of a function; which lines these are is `ElidesExactly` |
| CastElision.ElidesExactly | scripts/fix_ll.py:125-202 | a cast is dropped exactly if its target type is the one that the last line before it gives its operand, or, without such a line, the one that the cast states |
| CastElision.OnlyCastsElided | scripts/fix_ll.py:180-202 | nothing but casts with a result is dropped |
| CastElision.SlotToPointerElided | scripts/fix_ll.py:125-202 | the address of a slot turned into a pointer by a cast from i64 is dropped, and aliased to the slot |
| LineText.SubRender | scripts/fix_ll.py:235-241 | replacing an alias in the text of a line replaces it at the front of every name that goes on with a character outside words |
| LineText.TextExact | scripts/fix_ll.py:235-241 | the replacement in the text is the substitution of the name if and only if no other name of the line is the alias followed by such a character |
| LineText.DottedNameIsHit | scripts/fix_ll.py:235-241 | the smallest line outside the condition: with the alias %x the name %x.arg becomes %src.arg |
| CastElision.RewriteName | scripts/fix_ll.py:223-241 | rewriting one alias after another, in any order, makes of a name what the root of its stem says |
| CastElision.RewriteText | scripts/fix_ll.py:223-241 | so does rewriting a whole line as text |
| CastElision.RewrittenExactly | scripts/fix_ll.py:223-241 | that is the substitution by the root if and only if the name is not an alias followed by a character outside words |
| CastElision.ApplyAliases | scripts/fix_ll.py:223-241 | every line that was not elided is rewritten, phi operands included, in place |
| CastElision.ChainEnds | scripts/fix_ll.py:180-202 | on an SSA function the chain of every name that is defined on a path ends |
| CastElision.CircleUnreachable | scripts/fix_ll.py:180-202 | so aliases that go in a circle are defined on unreachable lines only |
| CastElision.CircleOfAliases | scripts/fix_ll.py:180-202 | a function with such a circle: two casts of one another behind no path |
| CastElision.UseEnds | scripts/fix_ll.py:223-230 | the chain of every name used on a reachable line ends |
| CastElision.EdgeEnds | scripts/fix_ll.py:223-230 | and that of every phi operand on an edge from a reachable line |
| CastElision.Renewed | scripts/fix_ll.py:180-202 | on every path the last definition of a dominated line is behind the last one of the line that dominates it |
| CastElision.RootValue | scripts/fix_ll.py:223-241 | at each use an alias has the value of its root |
| CastElision.ElisionPreserves | scripts/fix_ll.py:180-241 | for every SSA function, phi nodes and unreachable lines included: after any number of steps both functions are at the same line with the same memory, and every name that was not elided has the same value |
| CastElision.GoneExactly | scripts/fix_ll.py:232-241 | a name of the function is rewritten to one that was not elided if and only if its chain ends |
| CastElision.ElidedNamesGone | scripts/fix_ll.py:232-241 | so on reachable lines no elided name is used or defined any more |
| CastElision.Pass | scripts/fix_ll.py:150-241 | both phases together compute the function of the theorem, whatever the function |
| Recorders.System.WaitNoHang | c_src/shadowplay_gui.h:816-819 | a child that is over is found, forgotten and counted for who asked, and only such a one; a running one stays |
| Recorders.Overlay.LaunchCapture | c_src/shadowplay_gui.h:554-582 | exactly one attempt is made if there is a command and none otherwise; the new process, or nothing started |
| Recorders.Overlay.StartManualRecording | c_src/shadowplay_gui.h:584-608 | with a free slot exactly one attempt, whose process is held; a failed one clears the flag; with a held process nothing changes |
| Recorders.Overlay.StartReplayBuffer | c_src/shadowplay_gui.h:640-672 | with a free slot exactly one attempt, whose process is held; a failed one clears the flag; with a held process nothing changes |
| Recorders.Overlay.StartVoiceRecording | c_src/shadowplay_gui.h:745-790 | with a free slot and a microphone exactly one attempt, and the flag is set exactly with the process; otherwise nothing changes |
| Recorders.Overlay.ReapEncoder | c_src/shadowplay_gui.h:617-630 | in the end the process is found finished |
| Recorders.Overlay.StopManualRecording | c_src/shadowplay_gui.h:632-638 | the slot is free and its process found finished |
| Recorders.Overlay.StopReplayBuffer | c_src/shadowplay_gui.h:674-682 | the slot is free and its process found finished |
| Recorders.Overlay.StopVoiceRecording | c_src/shadowplay_gui.h:792-803 | the slot is free, its process found finished, the flag cleared |
| Recorders.Overlay.ToggleVoiceRecording | c_src/shadowplay_gui.h:805-808 | a running recorder is stopped, otherwise exactly one attempt is made if a microphone is selected; the flags are right |
| Recorders.Overlay.ReapIfDead | c_src/shadowplay_gui.h:814-838 | says so and counts one failure exactly if the child does not run any more |
| Recorders.Overlay.Tick | c_src/shadowplay_gui.h:1531-1533 | for each slot: if its child does not run any more, the slot is free, its flag clear and one failure counted; if it runs, slot and flag stay; nothing is started |
| Recorders.Overlay.EnterInstantReplay | c_src/shadowplay_gui.h:1667-1677 | a set key stops the replay buffer and starts nothing; on a clear one exactly one attempt is made, and its process held; flags are right and no recorder is lost |
| Recorders.Overlay.EnterRecording | c_src/shadowplay_gui.h:1678-1688 | the same for the screen recorder |
| Recorders.Overlay.EnterSetting | c_src/shadowplay_gui.h:1696-1731 | a running replay buffer is stopped and started once more by exactly one attempt; without one nothing happens |
| Recorders.Overlay.Handle | c_src/shadowplay_gui.h:1520-1742 | each event does what its key or tick promises, to its own recorder, and leaves the slots of the others alone |
| Recorders.Overlay.Cleanup | c_src/shadowplay_gui.h:840-848 | no process is held and no child is left; of the flags only that of the voice recorder is cleared, so the flags are right if and only if the other two were clear |
| Recorders.Overlay.Serve | c_src/shadowplay_gui.h:1520-1742 | over any number of rounds of keys, settings and ticks: the flags match the slots, each child is in exactly one slot or has been found finished, and failures are the exits the poll found |
| Recorders.Overlay.Run | c_src/shadowplay_gui.h:1520-1742 | over every run from start to shutdown: every child was found finished exactly once, failures are the exits the poll found, and nothing is held |

## Left out

- EmitCall: the argument code stands in the middle of the call line, as in the source, so the call itself has no meaning in the machine; its arguments have one (`CallRuns`).
- EmitStmt: `for`, `match` and compound assignment emit nothing, as in the source; they have no meaning in the machine.
- EmitModule: code is a list of instructions; spelling, the header comment, target lines and writing the file are left out.
- MeaningPreserved: for functions of declarations, assignments to names, returns, conditionals, loops and expression statements, over names, palindromic literals and the operators with an opcode; names must differ and not look like a temporary, a label or an argument, and a name whose initialiser mentions it is declared only so.
- PrintParseRoundTrip: structure literals are no part of its trees; `StructTaken` reads one whose values are such trees.
- StmtRoundTrip: `for` and `match` statements inside blocks, `let mut` and `let` with a type are not printed; one such statement alone is `ForTaken`, `MatchTaken` and `LetForms`; an empty first block behind a name is `EmptyBlockExact`.
- MatchTaken: every arm ends in a comma, which the source lets out at will.
- ForTaken: an empty block does not stand behind a name.
- CompiledFunction: for the statements and names of `MeaningPreserved`, and for functions whose body is printable; calls between functions are not run.
- ParseFuncDecl: top-level items around functions (`struct`, `enum`, `impl`, `import`, visibility) only move the cursor and are left out; functions may start at any place.
- ParsePrimary: error messages, and the kinds and positions of tokens, which the parser never looks at; a token is its lexeme.
- AstArena: its vectors are typed sequences; the element sizes passed at `c_src/compiler.c:1524` and `c_src/compiler.c:1586-1595` do not match several of the structures.
- YVecNew: element sizes below 1 and above 2^28 are left out; no caller in the repository passes one.
- YStrNew: texts of 2^31 - 1 bytes and more are left out, and the registry must have an empty cell; without one the source loops forever.
- YVecPush: an element in the pool must not overlap the place it goes to and, if the vector is full, must lie in memory in use outside the header of the vector.
- YMalloc: the pool taken from `malloc` when the low mapping fails, where handles would not fit 32 bits.
- Runtime: `make_enum`, printing, file input and output, `ystr_eq_cstr`, `yvec_get_char` and the empty `free` functions.
- Tokenize: the source copies its text into a vector first; here the lexer reads the text itself.
- ParseSources: the other two texts (`sp_parse_gsr_devices`, `sp_pactl_info_field`) are simpler readers of the same kind.
- BuildCapture: the note is its meaning, not its wording, and is not cut to a buffer; `sp_build_voice` is a shorter command of the same kind.
- NoteMatchesCommand: a replaced video input must be options with exactly one input; the application leaves it at its default.
- Launch: arithmetic is exact, on real numbers, where the kernel uses 32-bit floats; programs run one after another, in any order; strides are not negative.
- Elide: lines are instructions with names, and labels are line numbers; the repair of calls and returns (`scripts/fix_ll.py:150-178`, `scripts/fix_ll.py:204-213`) is left out, and parameters are listed, not read off the `define` line.
- ElisionPreserves: types stated in the text must be those of the names, no name may be an alias followed by a character outside words (`TextExact`), and a cast of a value that has the target type already is taken to be that value.
- Run: toasts, windows, menus, files, log texts and saving a clip have no effect on the recorders and are left out; a forced wait after SIGKILL ends with the child.
- Not modelled at all: X11 drawing, the GPU drivers and benchmarks, the JIT, the other C files of `c_src` and the scripts that patch text.
