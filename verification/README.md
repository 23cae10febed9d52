# REIR: a verified model

REIR is a small database language. Source text is tokenized and parsed into a
tree, the tree is analyzed and lowered to basic blocks, and rows are split into
key and value bytes that live in one ordered store shared by all tables. This
project models those three parts in Dafny and proves what they do.

`dafny verify dfyconfig.toml` checks the whole project.

## How it is organised

Back end.
`Ast`, `Machine` (blocks, values, small-step semantics; modules `Int64` and
`Values`), `Semantics` (big-step interpreter), `Codegen` (lowering as a function
from builder context to builder context), `Builder` (the mutable compiler
context whose methods are proved against `Codegen`, `Analysis` and `Compiler`),
`Analysis` (types, allocation), `Growth`, `Simulation`, `StmtSimulation`,
`Compiler`, `Resolution` and `Acceptance` (which programs compile), `Preservation` (the main
theorems), `Arithmetic` (what the operators compute), `Tables` (compiled inserts and the byte store), `Lowerable`, `Widths`, `Terminators`, `PhiEdges`, `Predecessors` (what
the emitted code looks like), `Limits` (where the passes disagree).

Front end.
`Tokens`, `Lexer`, `Layout` (tokenizer), `Grammar` (the grammar as functions),
`Parser` (the cursor-moving methods), `Printer`, `StmtPrinter`, `StmtRoundTrip`,
`RunOn`, `SourceText` (printing and parsing back), `FrontEnd` (operator chains,
the top-level loop), `EndToEnd` (text to events).

Storage.
`Bytes`, `Rows`, `ScanRange`, `Store` (the byte store against a map of rows),
`Keys` (stored keys in terms of the columns as written),
`Columns` and `Engine` (the copies and cursors on arrays), `Codec` (nullable tuples),
`SchemaText` (schemas as text).

Functions are the specifications; the classes `Builder.CompilerContext`,
`Parser.TokenStream`, `Engine.Database` and `SchemaText.TextStream` and the
array methods follow the loops and updates of the program and are proved to
compute those functions.

## Reading the model

- A block ends at its first terminator: control never passes it, although the
  generator appends `br fin` after a jump (`src/reir/exec/ast_statement_codegen.cpp:71-72`).
- A fault is a machine state without a step that is not the return. It stands
  for undefined behaviour: division by zero or of the least integer by -1, a read
  of a variable nobody assigned, a wrong operand width, the end of a block.
- `fuel` bounds loop iterations in the interpreter only. The theorems quantify
  over it, so they speak about all runs.
- Row literals are operand lists; the aggregate that carries them to `emit` is
  not represented. Transaction boundaries are events.
- An Insert evaluates its row and calls the database with a table and a row; in
  the blocks the call is one instruction. The byte copies that precede the call in
  the program are `Columns.CopyColumns` and `Engine.SplitRow`, and what the calls
  do to the store is `Store` and `Tables`.
- A compiled row evaluates each element twice. `Semantics.RowMode` chooses between
  that reading and the single evaluation the program asks for; the theorems hold
  for the first on all programs and for both where no row element calls or
  assigns a variable that it read before.
- An exception of the program, and a null or out-of-range access during compilation,
  is an error of the model; so is asking LLVM for storage of a void value. Any other
  instruction LLVM would refuse is emitted, and `Terminators.WellFormedExactly` says
  which programs have none.
- Tables and the type names `integer` and `bool` share one table of names during
  analysis, so a table can take a type's name.
- Where the program would loop forever (a stray `}` at top level, a missing
  delimiter in a schema text) the methods return that outcome instead.
- The documentation of the language assumes left association
  (`doc/IntermediateRepresentation.md:125-130`); the parser nests to the right.
  The model follows the parser.
- Integers in memory are little-endian, as on the machines the program targets.
- The store is ordered by unsigned lexicographic byte order, ranges include
  their start and exclude their end, and an insert of an existing key changes
  nothing.

## Model

| member | source | states |
|---|---|---|
| `EndToEnd.TextMeansProgram` | src/reir/exec/compiler.cpp:719-742 | the text of a program, in any layout that keeps its tokens from merging, compiles as the program does; with sound widths its blocks halt exactly when the program completes, with its events, and fault exactly when it goes wrong |
| `Compiler.CompiledRuns` | src/reir/exec/compiler.cpp:719-742 | for every program of sound widths and every iteration bound: a completed source run is a run of the blocks from entry to the return with the same variables and events, a stuck one faults, a run of `fuel` iterations takes at least `fuel` steps |
| `Preservation.HaltsExactly` | src/reir/exec/ast_statement_codegen.cpp:19-203 | the blocks reach the return if and only if the source program completes |
| `Preservation.FaultsExactly` | src/reir/exec/ast_expression_codegen.cpp:317-363 | the blocks fault (undefined division, unassigned variable) if and only if the source program goes wrong |
| `Preservation.SameResult` | src/reir/exec/ast_statement_codegen.cpp:19-203 | every halted run shows the source program's events and leaves its variables in their slots |
| `Preservation.SameOutcome` | src/reir/exec/ast_expression_codegen.cpp:191-209 | reading each row element once or twice gives the same outcome if no row element calls or assigns a variable it read before |
| `Preservation.EvalAgain` | src/reir/exec/ast_expression_codegen.cpp:199-206 | such an element evaluated a second time gives the same value and changes nothing |
| `Preservation.EffectfulRowRunsTwice` | src/reir/exec/ast_expression_codegen.cpp:199-206 | `let x = 0 emit {x = x + 1}` means to emit 1; its blocks halt, and every halted run has emitted 2 and nothing else |
| `Simulation.SimExpr` | src/reir/exec/ast_expression_codegen.cpp:191-355 | an expression's code runs to the end of the emitted blocks with the value, variables and events of its evaluation, or faults where evaluation has no result |
| `Simulation.SimCond` | src/reir/exec/ast_expression_codegen.cpp:365-383 | `&&` and `\|\|` at any nesting: the right side runs exactly when the left does not decide, and the phi yields the lazily evaluated truth value |
| `StmtSimulation.SimStmt` | src/reir/exec/ast_statement_codegen.cpp:19-203 | every outcome of a statement (normal, break, continue, stuck, out of fuel) is matched by a run of its blocks; break and continue arrive at the finish and every block of the nearest loop |
| `StmtSimulation.SimLoop` | src/reir/exec/ast_statement_codegen.cpp:129-164 | the four blocks of a For run as its iterations do, including breaks and continues out of nested statements |
| `StmtSimulation.SimFor` | src/reir/exec/ast_statement_codegen.cpp:129-164 | initializer, jump to the head and iterations of a For, with an initializer that jumps itself |
| `StmtSimulation.SimIf` | src/reir/exec/ast_statement_codegen.cpp:54-81 | both arms rejoin in `fin`, also when an arm ended in a jump before its branch to `fin` |
| `StmtSimulation.SimRow` | src/reir/exec/ast_expression_codegen.cpp:191-209 | the code of a row evaluates each element twice and yields the second values |
| `StmtSimulation.SimInsert` | src/reir/exec/ast_statement_codegen.cpp:224-264 | an Insert evaluates its row and calls the database once, with the table and the row's values |
| `Tables.RunFillsTables` | src/reir/exec/ast_statement_codegen.cpp:224-267 | whatever the loops and branches around the inserts, if each names a table with as many columns as its row has elements and has room for them: after every halted run the byte store holds exactly the rows the source program inserted, the first for each key, and a scan of a table no other name strays into produces that table's rows, each once |
| `Tables.RunKeepsFirst` | src/reir/exec/ast_statement_codegen.cpp:104-267 | after every halted run the store holds the record of a row if and only if some insert of that row was the first into its table with these elements in the columns written with `key` in the table's last definition |
| `Keys.StoredRecord` | src/reir/exec/ast_statement_codegen.cpp:104-264 | a row is stored under the characters of the table's name, a colon and its elements at the columns written with `key`, in order; the value holds the others, in order |
| `Keys.CollideExactly` | src/reir/db/schema.hpp:154-165 | two rows have the same key if and only if they go to the same table and agree at every column written with `key` |
| `Keys.FirstStays` | src/reir/engine/foedus_interface.cpp:24-38 | after any history the store holds the record of a row if and only if an insert of that row was not preceded by one that agrees with it in the key columns |
| `Tables.RoomExactly` | src/reir/exec/ast_statement_codegen.cpp:243-288 | the bytes an insert copies for the last definition of its table go into the buffers sized by the definition at its allocation if and only if that one had as many key columns and as many others |
| `Tables.RedefinedOverflows` | src/reir/exec/ast_statement_codegen.cpp:224-288 | `define <{int: a key}> t insert t {1, 2} define <{int: a key, int: b key}> t` compiles, its row fits the last definition, and its buffers lack the room |
| `Tables.StmtSane` | src/reir/exec/ast_statement_codegen.cpp:19-203 | no statement lets a variable leave the 64-bit range or inserts a row that does not fit its table |
| `Growth.StmtGrows` | src/reir/exec/ast_statement_codegen.cpp:19-203 | generation appends to the current block and to blocks it creates, and leaves every other block as it was |
| `Codegen.GenStmt` | src/reir/exec/compiler_context.hpp:109-122 | generating any statement restores the loop stack it started with |
| `Arithmetic.DivisionExact` | src/reir/exec/ast_expression_codegen.cpp:332-337 | division and remainder have results for exactly the same operands, all but a zero divisor and the one overflow; dividend = divisor * quotient + remainder, the remainder is smaller than the divisor and has the sign of the dividend |
| `Arithmetic.DivisionUnique` | src/reir/exec/ast_expression_codegen.cpp:332-337 | only one pair of numbers is such a quotient and remainder |
| `Arithmetic.WrapsAround` | src/reir/exec/ast_expression_codegen.cpp:326-331 | sums, differences and products are the one 64-bit number congruent modulo 2^64 to the unbounded result |
| `Arithmetic.OrderExact` | src/reir/exec/ast_expression_codegen.cpp:334-347 | exactly one of `<`, `==`, `>` holds, `<=`, `>=`, `!=` are their negations, and `<` counts upwards in steps of one |
| `Arithmetic.OperateExact` | src/reir/exec/ast_expression_codegen.cpp:317-355 | every strict operator takes two integers, arithmetic gives an integer, a comparison the truth value of its sign condition, and nothing else has a result |
| `Arithmetic.BlocksDivide` | src/reir/exec/ast_expression_codegen.cpp:332-337 | two emitted instructions on the same operands leave quotient and remainder, or fault |
| `Arithmetic.ProgramsDivide` | src/reir/exec/ast_expression_codegen.cpp:332-337 | two expressions of a program evaluate to quotient and remainder, or have no value |
| `Int64.Wrap` | src/reir/exec/ast_expression_codegen.cpp:326-331 | the unique 64-bit value congruent to an unbounded result |
| `Builder.CompilerContext.GenExpr` | src/reir/exec/ast_expression_codegen.cpp:300-355 | for assignments and operators: the new context and operand are those of the specification, or its exception |
| `Builder.CompilerContext.GenCond` | src/reir/exec/ast_expression_codegen.cpp:365-383 | creates the two blocks, generates both sides and the phi as specified |
| `Builder.CompilerContext.ToI1` | src/reir/exec/ast_expression_codegen.cpp:358-363 | converts a 64-bit operand to one bit and leaves a bit alone |
| `Builder.CompilerContext.GenRow` | src/reir/exec/ast_expression_codegen.cpp:191-209 | the loop over the elements computes the specified context and operands |
| `Builder.CompilerContext.GenStmt` | src/reir/exec/ast_statement_codegen.cpp:19-203 | moves the builder exactly as specified for every kind of statement |
| `Builder.CompilerContext.GenSeq` | src/reir/exec/ast_statement_codegen.cpp:19-23 | the loop over the statements computes the specified context |
| `Builder.CompilerContext.GenIf` | src/reir/exec/ast_statement_codegen.cpp:54-81 | three blocks, the branch and both arms as specified |
| `Builder.CompilerContext.GenLoop` | src/reir/exec/ast_statement_codegen.cpp:133-163 | four blocks, entering and leaving the loop as specified |
| `Builder.CompilerContext.AnalyzeExpr` | src/reir/exec/ast_expression.hpp:65-93 | the type of the specification or its exception |
| `Builder.CompilerContext.AnalyzeStmt` | src/reir/exec/ast_statement.hpp:238-251 | updates the flat type table as specified |
| `Builder.CompilerContext.AllocStmt` | src/reir/exec/ast_statement_codegen.cpp:33-38 | one statement's stack slots as specified |
| `Builder.CompilerContext.AllocSeq` | src/reir/exec/ast_statement.hpp:84-89 | the callback order of the statement traversal, as specified |
| `Builder.CompilerContext.Compile` | src/reir/exec/compiler.cpp:719-742 | analyze, allocate, generate, return: the specified blocks or the specified exception |
| `Resolution.TypeExactly` | src/reir/exec/ast_expression_codegen.cpp:231-240 | an expression has a type if and only if the variables that decide it have slots and no operator mixes a call with a value; a missing slot is what an error on typable expressions reports |
| `Resolution.ExprExactly` | src/reir/exec/ast_expression_codegen.cpp:246-253 | code generation of an expression succeeds if and only if all its variables have slots and it is in the fragment |
| `Compiler.AllocKeeps` | src/reir/exec/compiler.cpp:732-735 | the allocation pass puts only slots into the entry block, and different variables into different slots, although a redeclared name and every For initializer are allocated twice |
| `Resolution.AllocSeqExactly` | src/reir/exec/ast_statement.hpp:84-89 | the allocation traversal succeeds if and only if every name it reads was declared at an earlier visit, every expression it visits has a type, every stored, emitted or inserted value has a slot type and every insert it visits names a table defined before and is no initializer; and then it has declared exactly the names of the Lets and defined exactly the tables it visits |
| `Resolution.StmtExactly` | src/reir/exec/ast_statement_codegen.cpp:19-203 | generation of a statement succeeds if and only if all names it uses have slots, its tables are known and wide enough, its jumps are inside loops, its initializers have their buffers and its expressions are in the fragment |
| `Resolution.AnalyzedResolves` | src/reir/exec/compiler.cpp:719-738 | no unresolved variable after analysis: for every analyzed program with simple For initializers neither allocation nor generation misses a name |
| `Resolution.CompilesExactly` | src/reir/exec/compiler.cpp:719-742 | every program compiles if and only if analysis accepts it, its jumps stand inside loops, its expressions are in the fragment, stored, emitted and inserted values are not calls, tables are defined before an insert names them and have a column for each element, no For initializer hides an emit or an insert from the allocation traversal, every name allocation reads is declared at an earlier visit and every name used is declared at some visit; if only variable names are at fault, the error is the missing name |
| `Acceptance.ExprAccepted` | src/reir/exec/ast_node.cpp:36-132 | analysis accepts an expression if and only if its names are known, `&&` and `\|\|` stand between integers and truth values and all other operators between integers, and gives it the type read off its outermost operator |
| `Acceptance.SeqAccepted` | src/reir/exec/ast_statement.hpp:84-251 | analysis accepts a program if and only if every expression is accepted under the types declared before it in program order, branches and loop bodies included, declarations have no type and tables are tables of integers; it leaves exactly these types |
| `Acceptance.CompilesOnText` | src/reir/exec/compiler.cpp:719-742 | compilation of every program decided on its text alone |
| `Acceptance.LowerableAnalyzes` | src/reir/exec/ast_node.cpp:36-132 | a lowerable expression over declared integer variables is an integer or a truth value, as its code is |
| `Acceptance.SeqKnown` | src/reir/exec/ast_statement.hpp:84-251 | a program of sound widths without a table named `integer` or `bool` is accepted if and only if every name is declared before it is used |
| `Acceptance.SoundCompiles` | src/reir/exec/compiler.cpp:719-742 | such a program compiles if and only if its names are declared before use, also in the order of allocation, and it is well shaped |
| `Resolution.UnbufferedExactly` | src/reir/exec/ast_statement.hpp:219-232 | an initializer is rejected for its buffers if and only if it contains more emits and inserts than its visit allocates for |
| `Resolution.ReinsertsExactly` | src/reir/exec/ast_statement_codegen.cpp:282-284 | allocation refuses an initializer as visited twice if and only if its visit reaches an insert |
| `Limits.NestedInitDoesNotCompile` | src/reir/exec/ast_statement.hpp:225-232 | `for { let i = 0 } ; 1 < 2 ; 1 { }`: a declaration inside a block used as initializer is analyzed and never allocated, so compilation misses the name |
| `Limits.NestedEmitDoesNotCompile` | src/reir/exec/ast_statement_codegen.cpp:184-210 | `for { emit {1} } ; 1 < 2 ; 1 { }`: the emit is analyzed and never gets its buffer, so compilation fails although every name is known |
| `Limits.TakenNameDoesNotCompile` | src/reir/exec/ast_statement.hpp:179-182 | `define <{int: a key}> integer 1 + 2`: the table takes the type name of literals, and the operator meets a tuple |
| `Resolution.AllocSeqTables` | src/reir/exec/ast_statement_codegen.cpp:104-124 | after allocation the tables are the ones defined on the traversal, each with the columns of its last definition |
| `Widths.ExprWidths` | src/reir/exec/ast_expression_codegen.cpp:317-363 | an expression's instructions all get operands of the width they need if and only if the expression is lowerable |
| `Widths.StmtWidths` | src/reir/exec/ast_statement_codegen.cpp:19-203 | the same for every statement, up to the missing branch of a For without condition |
| `Terminators.StmtPending` | src/reir/exec/ast_statement_codegen.cpp:129-164 | generation leaves a block without terminator behind exactly when a For has no condition |
| `Terminators.WellFormedExactly` | src/reir/exec/ast_statement_codegen.cpp:19-203 | the emitted program is well formed (operand widths, every block ended) if and only if stored, printed, emitted and inserted values are integers, every For has a truth-valued condition and no call is used as a value |
| `Limits.AnalyzedWidths` | src/reir/exec/ast_node.cpp:36-132 | an analyzed expression yields i64 for an integer type and i1 for a truth value, through instructions of sound widths, if and only if it assigns no truth value, uses no call as a value and is not mistyped: it does not hand on a variable of another type, nor a literal or comparison whose type name a table has taken |
| `Limits.SeqTyped` | src/reir/exec/ast_statement.hpp:446-469 | in an analyzed program of sound widths without a table named `integer` or `bool` all variables are integers, and the code of every expression leaves what its type says |
| `Limits.HeadlessLoopFaults` | src/reir/exec/ast_statement_codegen.cpp:145-149 | `for 1 ; ; 1 { break }` completes as a program; its code falls off the loop head after one step |
| `Limits.TruthLetIsIllFormed` | src/reir/exec/ast_expression_codegen.cpp:310-315 | `let b = 1 < 2` passes analysis and allocation and stores one bit into an i64 slot |
| `Lowerable.ExprShape` | src/reir/exec/ast_expression_codegen.cpp:317-363 | the operand of an expression has the width of the expression's kind and names an emitted value |
| `PhiEdges.CondSound` | src/reir/exec/ast_expression_codegen.cpp:365-383 | generating a short-circuit operator keeps every phi first in its block and naming exactly the blocks with a branch to it, dead branches included, and adds no branch to an older block |
| `Predecessors.CondLive` | src/reir/exec/ast_expression_codegen.cpp:365-383 | the phi of a short-circuit operator names live edges if and only if generation did not start in an ended block |
| `Predecessors.PhisExactly` | src/reir/exec/ast_expression_codegen.cpp:376-382 | in a compiled program every phi stands first in its block and its two incoming blocks are distinct and exactly the predecessors by first terminator, if and only if no short-circuit operator is generated into a block that a jump has already ended |
| `Limits.JumpedPhiIsInexact` | src/reir/exec/ast_expression_codegen.cpp:376-382 | `for 1 ; 1 < 2 ; 1 { break 1 && 1 }` compiles with sound widths, and its phi names a block that only goes to the end of the loop |
| `Lexer.Tokenize` | src/reir/exec/tokenize.hpp:67-178 | the five-state loop computes the maximal-munch reading, errors included |
| `Lexer.RunLength` | src/reir/exec/tokenize.hpp:67-178 | the longest run of characters of one kind |
| `Layout.LexInvertsRender` | src/reir/exec/tokenize.hpp:67-178 | every layout of a token list with white space where two tokens would merge is read back as that list |
| `Layout.LexedIsLayout` | src/reir/exec/tokenize.hpp:67-178 | nothing is lost: an accepted text is its tokens, maximal and in order, and white space |
| `Layout.LexExactly` | src/reir/exec/tokenize.hpp:67-178 | a text gives a token list if and only if it is a layout of that list |
| `Layout.ClassesExact` | src/reir/exec/token.hpp:154-161 | white space is space, line end and tab; the nine symbols, the twelve operator characters and the digits are named; every other character but the quote stands in names |
| `SourceText.OnlyWhiteSpaceIsLost` | src/reir/exec/tokenize.hpp:67-178 | an accepted text is its tokens in order and spaces, line ends and tabs |
| `SourceText.OperatorsExact` | src/reir/exec/token.hpp:208-240 | each operator token has one spelling, and a run of operator characters is read as it if and only if it is that spelling |
| `SourceText.NamesExactly` | src/reir/exec/tokenize.hpp:67-178 | a text is an identifier if and only if it starts like a name, contains only name characters and digits, and is no reserved word in any letter case |
| `SourceText.WordsExactly` | src/reir/exec/tokenize.hpp:67-178 | the same for words, reserved ones included |
| `SourceText.KeywordAnyCase` | src/reir/exec/token.hpp:141-152 | a word is read as one of the fifteen reserved words if and only if each of its letters is the capital or the small letter of that word |
| `Grammar.ParseExpr` | src/reir/exec/ast_expression_parser.cpp:127-166 | success strictly advances and stops at the end or at a token that continues no expression |
| `Grammar.Postfix` | src/reir/exec/ast_expression_parser.cpp:17-97 | the same for what follows a primary expression |
| `Grammar.ParseStmt` | src/reir/exec/ast_statement_parser.cpp:128-192 | a statement strictly advances; there is none exactly at a closing brace, where the position stays |
| `Grammar.Expect` | src/reir/exec/ast_node_parser.cpp:9-18 | succeeds exactly on a token of the given type |
| `Parser.TokenStream.ParseExpr` | src/reir/exec/ast_expression_parser.cpp:127-166 | the cursor-moving parser returns the grammar's result and leaves its remainder; the cursor never passes the end |
| `Parser.TokenStream.ParsePostfix` | src/reir/exec/ast_expression_parser.cpp:17-97 | the same for postfixes |
| `Parser.TokenStream.ParseSuffix` | src/reir/exec/ast_expression_parser.cpp:210-216 | the same for calls, members and assignments |
| `Parser.TokenStream.ParseIndex` | src/reir/exec/ast_expression_parser.cpp:196-203 | the same for indexing, which keeps the indexed expression only if it is a variable |
| `Parser.TokenStream.ParseList` | src/reir/exec/ast_expression_parser.cpp:223-274 | the loops over arguments, row and array elements compute the grammar's list, a comma before the closing token included |
| `Parser.TokenStream.ParseColumns` | src/reir/exec/ast_node_parser.cpp:64-119 | the loop over columns fills type names, parameters, names and properties as the grammar says |
| `Parser.TokenStream.ParseType` | src/reir/exec/ast_node_parser.cpp:121-130 | an array type keeps only the type id of its elements |
| `Parser.TokenStream.ParseStmt` | src/reir/exec/ast_statement_parser.cpp:128-192 | dispatches as the grammar says |
| `Parser.TokenStream.ParseSimple` | src/reir/exec/ast_statement_parser.cpp:94-105 | definitions, emits, inserts, jumps and expression statements |
| `Parser.TokenStream.ParseLet` | src/reir/exec/ast_statement_parser.cpp:50-65 | declarations with and without a type |
| `Parser.TokenStream.ParseIf` | src/reir/exec/ast_statement_parser.cpp:80-91 | conditionals with and without else |
| `Parser.TokenStream.ParseFor` | src/reir/exec/ast_statement_parser.cpp:108-126 | loops with every part optional |
| `Parser.TokenStream.ParseScan` | src/reir/exec/ast_statement_parser.cpp:211-224 | scans |
| `Parser.TokenStream.ParseTransaction` | src/reir/exec/ast_statement_parser.cpp:34-48 | transactions, with the default isolation level |
| `Parser.TokenStream.ParseBlock` | src/reir/exec/ast_statement_parser.cpp:23-32 | the loop up to the closing brace collects the grammar's statements |
| `Parser.TokenStream.ParseProgram` | src/reir/exec/parser.cpp:24-36 | the top-level loop returns the program, the exception, or that it never ends |
| `Parser.TokenStream.Next` | src/reir/exec/token.hpp:274-276 | advances the cursor by one |
| `Printer.ExprParses` | src/reir/exec/ast_expression_parser.cpp:17-166 | for every expression (indexed expressions are variables, literals fit stoi), parsing its printing before a remainder that continues no expression gives it back and leaves that remainder |
| `StmtPrinter.TypeParses` | src/reir/exec/ast_node_parser.cpp:54-130 | printed types are parsed back, array types up to the element's type id that the parser keeps |
| `StmtRoundTrip.StmtParses` | src/reir/exec/ast_statement_parser.cpp:23-224 | printed statements, loops with or without initializer and condition included, are parsed back before anything that may follow them |
| `StmtRoundTrip.BareTransactionParses` | src/reir/exec/ast_statement_parser.cpp:34-48 | a transaction without an isolation level is read as serializable |
| `StmtPrinter.NumeralReads` | src/reir/exec/ast_expression_parser.cpp:168-176 | a decimal number is read back if and only if it is below 2^31, and is out of range otherwise |
| `Printer.OperatorTokens` | src/reir/exec/ast_expression_parser.cpp:56-90 | each operator has its own token, and no other token is an operator |
| `Printer.ContinuesExactly` | src/reir/exec/ast_expression_parser.cpp:17-97 | an expression goes on at exactly `(`, `[`, `.`, `=` and the operators |
| `RunOn.ExprRunsOn` | src/reir/exec/ast_expression_parser.cpp:22-29 | a printed expression before `(` or `[` is never parsed back |
| `RunOn.ProgramRoundTrip` | src/reir/exec/parser.cpp:24-36 | parsing the printed tokens of a program gives it back if and only if nowhere, at any depth, a statement ending in an expression is followed by one starting with `(` or `[` |
| `SourceText.SourceRoundTrip` | src/reir/exec/parser.cpp:24-36 | the same from source text, in any layout that keeps the tokens from merging |
| `SourceText.SpacedRoundTrip` | src/reir/exec/parser.cpp:24-36 | the same with any spaces, line ends and tabs around and at least one of them between the tokens |
| `SourceText.SpacedIsLayout` | src/reir/exec/tokenize.hpp:67-178 | names that are words and strings without quotes make every printing such a layout once white space stands between its tokens |
| `FrontEnd.LoopHasStep` | src/reir/exec/ast_statement_parser.cpp:119-126 | a loop the parser has read always has a step expression |
| `EndToEnd.LimitsAreDelivered` | src/reir/exec/parser.cpp:24-36 | the programs on which the passes disagree are what the parser gives for their text |
| `FrontEnd.ChainNestsRight` | src/reir/exec/ast_expression_parser.cpp:56-90 | a chain of operands without parentheses nests to the right whatever its operators are |
| `FrontEnd.NestsLeftExactly` | doc/IntermediateRepresentation.md:125-130 | the left association of the documentation holds if and only if there is at most one operator |
| `FrontEnd.DocumentedDifference` | doc/IntermediateRepresentation.md:127 | `8 - 1 - 2` is documented as 5 and computes 9 |
| `FrontEnd.LoopOutcome` | src/reir/exec/parser.cpp:29-34 | a finished parse is reached after finitely many rounds of the top-level loop; an endless one is at no round finished |
| `FrontEnd.DivergesExactly` | src/reir/exec/ast_statement_parser.cpp:130-132 | the top-level loop runs forever if and only if it comes to a closing brace |
| `Bytes.Dec64Enc64` | src/reir/db/attr_type.cpp:39-71 | a 64-bit integer is read back from its eight bytes |
| `Rows.WeaveSplit` | src/reir/db/schema.hpp:154-176 | splitting a row into key and other columns loses nothing, for any interleaving |
| `Rows.SplitWeave` | src/reir/exec/ast_statement_codegen.cpp:324-347 | rebuilding a row puts every column back where the split would take it from |
| `Rows.KeyInjective` | src/reir/db/schema.hpp:154-165 | equal key bytes come from the same table and the same key columns |
| `Rows.RecordRoundTrip` | src/reir/exec/ast_statement_codegen.cpp:224-347 | the record an insert writes is read back by a scan as the same row |
| `ScanRange.RangeExact` | src/reir/exec/ast_statement_codegen.cpp:296-305 | a key lies in the scan range of a table exactly when it is a key of that table or its name strays, with the condition on names and first key byte spelled out |
| `ScanRange.RangeComplete` | src/reir/db/schema.hpp:64-70 | every key of a table is in the table's own range |
| `ScanRange.StrayExactly` | src/reir/exec/ast_statement_codegen.cpp:296-305 | whether some row of another table can be met is decided by the two names alone |
| `ScanRange.SameLengthNeverStrays` | src/reir/exec/ast_statement_codegen.cpp:296-305 | among names of equal length a key is in the range of a table exactly if it is the table's own |
| `Store.InsertContents` | src/reir/engine/foedus_interface.cpp:24-38 | an insert keeps the store sorted and adds the record exactly when its key is new |
| `Store.HistoryRefines` | src/reir/exec/ast_statement_codegen.cpp:224-267 | after any history of inserts the byte store refines a map from table and key columns to rows where the first insert wins |
| `Store.ScanIsTable` | src/reir/exec/ast_statement_codegen.cpp:296-359 | after any history a scan of an undisturbed table produces exactly its rows, each once |
| `Store.StrayBreaksScan` | src/reir/exec/ast_statement_codegen.cpp:296-305 | if a name can stray, one insert into that table shows up in the scan of an empty one |
| `Store.VisitsOwnExactly` | src/reir/exec/ast_statement_codegen.cpp:296-359 | scans stay inside their table after every history if and only if no other name of the catalogue can stray |
| `Columns.FixedKeyLength` | src/reir/db/schema.hpp:38-49 | the length loop yields name, colon, key columns of any sizes and one spare byte |
| `Columns.FixedValueLength` | src/reir/db/schema.hpp:51-62 | the length loop yields the other columns |
| `Columns.CopyBytes` | src/reir/exec/ast_statement_codegen.cpp:243-257 | a copy continues the buffer and leaves the bytes behind it |
| `Columns.CopyColumn` | src/reir/exec/ast_statement_codegen.cpp:238-259 | one column goes to the next free bytes of the key or of the value |
| `Columns.CopyColumns` | src/reir/exec/ast_statement_codegen.cpp:234-260 | for columns of any fixed sizes the insert loop ends one byte short of the key buffer and at the end of the value buffer, every write inside, and the buffers hold the prefix with the key columns and the other columns |
| `Engine.SplitRow` | src/reir/exec/ast_statement_codegen.cpp:224-264 | key and value bytes of a row |
| `Engine.ReadRow` | src/reir/exec/ast_statement_codegen.cpp:324-347 | the scan loop with its two running offsets rebuilds the row of a record |
| `Engine.Database.Insert` | src/reir/engine/foedus_interface.cpp:24-38 | inserts the row's record; a duplicate key changes nothing and is reported; a store that is the one of a history becomes the one of the longer history |
| `Engine.Database.Open` | src/reir/engine/foedus_interface.cpp:40-54 | the cursor starts at the first key not below the range and skips nothing of it |
| `Engine.ReadsOwn` | src/reir/exec/ast_statement_codegen.cpp:315-347 | records of the table's own lengths are read as they are, whatever the buffers held |
| `Engine.OverflowsExactly` | src/reir/engine/foedus_interface.cpp:69-77 | the copies out of the cursor overflow the scan's buffers exactly if a longer record is visited |
| `Engine.Database.Scan` | src/reir/exec/ast_statement_codegen.cpp:296-359 | the cursor loop reads all records in the range through its two buffers, in key order, stale bytes of shorter records included; over the store of a history that leaves the table undisturbed it returns the rows that `Store.ScanIsTable` is about |
| `Codec.CodecExact` | src/reir/db/attribute.cpp:7-56 | decoding undoes encoding if and only if the flag bytes of null cells were zero in the buffer |
| `Codec.RowRoundTrip` | src/reir/db/schema.hpp:91-117 | a tuple encoded into a zeroed buffer is decoded unchanged after the name prefix |
| `Codec.LengthExactly` | src/reir/db/attribute.cpp:7-24 | a tuple takes eight bytes for each value and one for each column whose only property is nullable |
| `Codec.PlainTupleIsImage` | src/reir/db/schema.hpp:100-109 | without such columns the bytes of a tuple are those of its values in memory, the image an insert copies |
| `Codec.NullableIsFlagged` | src/reir/db/attribute.cpp:25-56 | a nullable cell is a one and its value, or a flag byte that stays as it was and reads as null if it is zero |
| `Codec.KeyLength` | src/reir/db/schema.hpp:122-134 | the two loops yield name, colon and the lengths of the key columns, with the exception for a null in one of them |
| `Codec.ValueLength` | src/reir/db/schema.hpp:136-148 | the two loops yield the lengths of the other columns, with the exception for a null in one of them |
| `Codec.LengthsConserved` | src/reir/db/schema.hpp:91-148 | the sums of these two loops add up to the sum of the encoding loop |
| `Codec.EncodedLength` | src/reir/db/schema.hpp:91-98 | the length loop, with its exceptions for a wrong count and for a null |
| `Codec.EncodeCell` | src/reir/db/attribute.cpp:25-40 | writes one cell; a null leaves its flag byte as it was and is refused in a column whose properties are not exactly nullable |
| `Codec.EncodeRow` | src/reir/db/schema.hpp:100-109 | writes name, colon and exactly the tuple's bytes, leaves the rest of the buffer, and fails if and only if the count is wrong or a null stands in a column whose properties are not exactly nullable |
| `Codec.DecodeRow` | src/reir/db/schema.hpp:110-117 | the decoding loop, whose offsets depend on the cells decoded before, with the size check |
| `SchemaText.StollReads` | src/reir/db/attr_type.cpp:89-101 | a number behind any white space, with or without a sign, is read if it fits a signed 64-bit integer, whatever follows that is no digit |
| `SchemaText.UnsignedExact` | src/reir/db/attr_type.cpp:89-101 | the conversions to unsigned keep a number modulo 2^64 and 2^32 |
| `SchemaText.SchemaReadsBack` | src/reir/db/schema.cpp:8-35 | a schema is read back if and only if its name has no ':', no attribute name has a space and every parameter fits a signed 64-bit integer |
| `SchemaText.AttrReads` | src/reir/db/attribute.cpp:58-80 | the same for one attribute in front of any text |
| `SchemaText.TypeReads` | src/reir/db/attr_type.cpp:85-101 | a type is read back, or its parameter is out of range |
| `SchemaText.TextStream.TakeUntil` | src/reir/db/schema.cpp:22-25 | the reading loop returns the word before the delimiter, or never ends |
| `SchemaText.TextStream.TakeAttr` | src/reir/db/attribute.cpp:64-80 | the attribute reader leaves the shared position behind the attribute |
| `SchemaText.TextStream.TakeType` | src/reir/db/attr_type.cpp:89-101 | the type reader leaves the shared position behind the type |
| `SchemaText.TextStream.TakeSchema` | src/reir/db/schema.cpp:17-35 | the schema reader returns what the text says |

## Left out

- Strings, doubles, arrays, tuple variables and their members, and `&` in analysis and code generation. The parser part covers their syntax.
- Scan as generated blocks: `Engine` models the cursor loop and the loads it performs, not the blocks that perform them, and `Codegen` rejects the statement; row variables and member access go with it.
- An Insert inside a For initializer throws on its second allocation or, like an Emit nested there, uses buffers nobody allocated (`src/reir/exec/ast_statement_codegen.cpp:184`, `src/reir/exec/ast_statement_codegen.cpp:282-284`); the model returns an error for both.
- Tables with nullable columns or columns other than integers and dates, and tables defined after one named `integer`: errors of the integer fragment in Define.
- StmtSimulation.SimInsert: the byte copies before the call are one instruction with it; `Columns.CopyColumns` is about the copies.
- Preservation.HaltsExactly: the blocks of an insert without room in its buffers are taken to go on, as for `Tables.RedefinedOverflows`; what such a write does is not modelled.
- Tables.RunFillsTables: a row with fewer elements than its table has columns is excluded, as the program writes a shorter record for it; table names are those of identifiers, without a colon and with a last byte below 255. Names are byte strings: of a wider character only the low byte counts.
- Nullable columns in Insert and Scan: the generated code has no notion of the flag byte. `Codec` covers them in the tuple codec.
- Variable-length string columns: the encoder writes an eight-byte header that the length functions do not count (`src/reir/db/attr_type.cpp:24-37`, `src/reir/db/attr_type.cpp:49-57`).
- Engine.Database.Insert: requires a row of the schema's column count; the generated code does not check it and would index past the schema.
- Engine.Database.Scan: returns an error where the copy out of the cursor would write past a buffer; what such a write does is not modelled.
- Printer.ExprParses: covers literals that fit `stoi` and indexing of variables, the trees the parser can produce.
- Grammar.ParseStmt: the parser leaves the field of an absent part of a loop uninitialised (`src/reir/exec/ast_statement_parser.cpp:108-126`); the grammar represents it as null.
- `rand_int`, `print_string`, other callees and console output: only `print_int` and `emit` appear as events.
- Row and column numbers of tokens and the wording of exceptions: positions are only used in messages, and messages are shortened to a fixed text.
- FOEDUS and LevelDB, transactions that abort, concurrent transactions: replaced by one ordered map and two events.
- LLVM: instruction selection, optimisation and execution are behind the block machine of `Machine`.
- Builder.CompilerContext.GenExpr: array, member and pointer expressions are errors of the integer fragment.
- Builder.CompilerContext.GenStmt: tuple definitions and scans are errors of the integer fragment.
- Sharing of one implementation object between copies of a value, and memory ownership: `Codec.DecodeRow` returns fresh cells.
- Resolution.AnalyzedResolves: initializers with inner statements are excluded, since allocation never visits those; `Limits.NestedInitDoesNotCompile` shows such a program and `Resolution.CompilesExactly` decides all of them.
- Preservation.SameOutcome: the condition on row elements is one on the program text; an element such as `x = x + 0` violates it and still agrees.
- The distributed design of `design.md`: no code implements it.
