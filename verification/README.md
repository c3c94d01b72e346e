# IF generation and option filtering, modelled and proved in Dafny

This project models two parts of the repository and proves what they are for.

The first is the generator of Intermediate Format (IF) files in `aset_CCcc`. It reads a flat source
sequence list, finds the nesting of the statements with a stack, links AST nodes by first child and
next sibling, and prints the tree through string buffers, one IF file per source file, with lock
files between the processes that may write the same file. The second is `options_filter`, which
brings command lines to one form, character by character.

Code that changes things in place is modelled in that form: classes with the source's fields
(`Builder`, `StringBuffer`, `Output`, `HashBucket`, `Table`, `Registry`, `Entry`, `Chain`, `Levels`,
`FileSystem`, `ExecOptions`) and methods with the source's loops, each proved against a function.
The main theorems are about those functions, over all inputs and runs. Where the code does not do
what its comments say, the code is followed and the exact condition under which it does is proved.

| file | content | main results |
|---|---|---|
| `Statements`, `StatementStack` | statements, the sequence list, the stack machine, the forest expected | |
| `Nesting` | the stack machine inverts flattening, and exactly when | `Rebuilds`, `LevelsRightIffWellEnded` |
| `StatementShapes`, `OrdinaryPrograms` | what stands below each kind of statement; which programs are rebuilt, in their own terms | `IfRoots`, `LevelsRightIffOrdinary` |
| `AstBuilder`, `RebuiltTree` | the pointer program on nodes, links and stack entries | `Build`, `Rebuild` |
| `ProgramDump` | from the entry list to the lines of the file and back | `ProcessProgram`, `DumpTellsNesting` |
| `StringBuffers`, `StringRuns` | one buffer, three overflow policies | `AddToStringWithLen`, `BuildStrings`, `WriteStrings` |
| `Decimal`, `Quoting` | number printing and quoting | `PrintedRightIff`, `WellFormedIff` |
| `AstPrinter`, `AstLines`, `AstReader`, `SymbolPass` | the AST dump, its lines, its inverse, the symbols written ahead of it | `DumpIsLines`, `DumpBalances`, `RoundTrip`, `ErasedDumpIff`, `CoversIff` |
| `LockProtocol`, `LockFiles` | many processes on one file; one process and its names | `WholeTexts`, `CanExtractIff`, `RepeatOnlyInRace` |
| `FileTable` | hash table and per-file records | `BucketSuffices`, `IsFileInteresting` |
| `CliqueBits` | bit arrays shared round a ring of entities | `SetOutbufBitOfClique`, `JoinToClique` |
| `Declarators` | declarators grouped into declarations | `TogetherIff`, `ProcessAll`, `KidsAreTheNodes` |
| `DestructorWindow`, `DestructorRuns` | destructor calls when lifetimes are left | `CompleteIff`, `CallsExactly`, `NoneReappearsIff`, `LevelRestores` |
| `OptionFilter`, `OptionWords` | the option filter, and what it does to whole words | `IdempotentIff`, `ContentKept`, `QuotedIsCopied`, `OptionIsDashed` |

Where code and documentation disagree:

- `SET_multiple_iffs.c` means a file to be extracted once; the test for the IF file comes before the
  lock, so two processes can both extract it (`BothCanExtract`). `CanExtractIff` says exactly when
  one still can.
- The comment of `join_to_clique` says that cliques with different symbol numbers are not joined; the
  code complains and joins them, and so does `JoinToClique`.
- `add_quoted_str_to_string` counts backslashes down to index 1 only (`WellFormedIff`).
- `add_to_string_with_len` compares the length of the piece alone with the block after an overflow;
  `AddToStringWithLen` reports by `ok` whether its store stays inside, and `RoomyIff` gives the
  exact condition.
- `add_num_to_string` prints every number from five billion on as 4999999999 (`PrintDecimal`,
  `PrintedRightIff`).
- `process_lifetime_window` stops at the first lifetime whose parent sublist is empty, not at its
  target (`CompleteIff`).
- `join_to_clique` frees an array that the members of the joining ring share once for each of them
  (`JoinToClique`, `FreedOnceIff`, `SharedArrayFreedTwice`).
- A null specifier position never joins two declarators, but it does join a declarator to a type
  definition in front of it (`Joins`).
- A suppressed leaf still prints, because `walk_ast` looks at `is_leaf` first.

Run-time inputs that the model takes as parameters: whether a directory can be made, whether a file
is to be extracted, whether case is kept, whether the AST is corrupted, and all texts and positions.

## Model

| member | source | states |
|---|---|---|
| Nesting.Rebuilds | aset_CCcc/src/SET_ast.c:5535-5652 | Run over the flattened list of any well-ended program, the stack machine makes exactly the links of the program's forest, leaves an empty stack once the next entry has popped what is completed, and has every entry at its true level |
| Nesting.RebuildsBlocks | aset_CCcc/src/SET_ast.c:5535-5652 | A program that ends in a real block is rebuilt by its own entries alone, with nothing left on the stack |
| Nesting.LevelsRightIffWellEnded | aset_CCcc/src/SET_ast.c:5594-5650 | For every program whose entries differ, each entry is processed with exactly the enclosing constructs open if and only if every construct ends, through generated blocks, in an entry |
| Nesting.LevelsTell | aset_CCcc/src/SET_ast.c:5594-5650 | The converse for one statement: right levels force it to be well ended and to end what it should |
| Nesting.Replay | aset_CCcc/src/SET_ast.c:5535-5652 | One statement replayed from any settled state adds exactly its own links and closes what it is to close |
| Nesting.EmptyElseLosesThen | aset_CCcc/src/SET_ast.c:5562-5583 | A concrete `if` with an entry-less empty else is popped before its then part, which lands outside it |
| OrdinaryPrograms.LevelsRightIffOrdinary | aset_CCcc/src/SET_ast.c:2022-2054 | In terms of the program text alone: levels are right if and only if every unbracketed part ends in a statement with an entry, or in a generated block whose last statement shows its end, or puts nothing into the list at all |
| OrdinaryPrograms.OrdinaryIsWellEnded | aset_CCcc/src/SET_ast.c:2022-2054 | For such statements, and by `WellEndedIsOrdinary` for no others, the recorded ending is the right one at every construct |
| OrdinaryPrograms.WellEndedIsOrdinary | aset_CCcc/src/SET_ast.c:2022-2054 | The converse, for programs whose entries differ |
| OrdinaryPrograms.OrdinaryRebuilds | aset_CCcc/src/SET_ast.c:5535-5652 | Such a program is rebuilt: exactly the links of its forest, and an empty stack |
| StatementShapes.IfRoots | aset_CCcc/src/SET_ast.c:6237-6291 | Below an if: a null operand for a then part that is missing or an empty generated block, the nodes of both parts in order, a null operand for an empty else |
| StatementShapes.ThenPlace | aset_CCcc/src/SET_ast.c:6248-6266 | The null operand stands first if and only if the then part is missing or an empty generated block |
| StatementShapes.ElsePlace | aset_CCcc/src/SET_ast.c:5562-5583 | The null operand for the else stands last if and only if the if has a part and its else is empty, by flag or by shape |
| StatementShapes.ElseIsNotThen | aset_CCcc/src/SET_ast.c:6248-6266 | A node of the else part stands first only if the then part is there, is not an empty generated block, and makes no node |
| StatementShapes.ClauseRoots | aset_CCcc/src/SET_ast.c:5536-5556 | Below a switch clause: the nodes of its statements, and a break at the end exactly if one is implied |
| StatementShapes.OtherRoots | aset_CCcc/src/SET_ast.c:6292-6397 | Loops and blocks hold the nodes of their parts, and generated blocks give theirs to the parent |
| Statements.SetStackEndingStmt | aset_CCcc/src/SET_ast.c:2022-2054 | The nested loops find the last entry of the outermost contained statement that has one |
| AstBuilder.DetermineStackEndingStmt | aset_CCcc/src/SET_ast.c:2064-2098 | The ending statement recorded for if, loops and switch; the else part decides when there is one |
| AstBuilder.LastEntry | aset_CCcc/src/SET_ast.c:6089-6107 | The last statement of a list that has a sequence entry |
| AstBuilder.Builder.constructor | aset_CCcc/src/SET_ast.c:1898-1898 | Before the first entry: no links made, empty stack |
| AstBuilder.OperandsAre | aset_CCcc/src/SET_ast.c:6237-6397 | In front of the children of a node stand its operands: one for a condition, three for a for loop, none for a block |
| AstBuilder.Builder.Relink | aset_CCcc/src/SET_ast.c:1179-1190 | Overwriting the last link of a list of children appends one child and disturbs no other list |
| AstBuilder.Builder.Chain | aset_CCcc/src/SET_ast.c:2137-2166 | The node becomes the last child of the construct on top, or the last top-level node of the file |
| AstBuilder.Builder.PushStmt | aset_CCcc/src/SET_ast.c:1912-1945 | A new level with its ending, collecting children after the operands |
| AstBuilder.Builder.PopTop | aset_CCcc/src/SET_ast.c:5536-5590 | A completed construct first gets the break or null operand it is owed, as its last child |
| AstBuilder.Builder.PopCompleted | aset_CCcc/src/SET_ast.c:5535-5590 | All completed constructs are popped, innermost first |
| AstBuilder.Builder.NoteEnding | aset_CCcc/src/SET_ast.c:5594-5650 | The construct on top is marked completed, or its end moves to the last entry inside a generated block |
| AstBuilder.Builder.EnterStatement | aset_CCcc/src/SET_ast.c:6237-6397 | A statement's node is chained at the current level and opens a level of its own if it has parts |
| AstBuilder.Builder.LinkAtOnce | aset_CCcc/src/SET_ast.c:6114-6121 | A clause without entries gets its break, an if without parts its null operand |
| AstBuilder.Builder.ActOn | aset_CCcc/src/SET_ast.c:6535-6576 | The end of a real block pops its level; a generated block leaves no node |
| AstBuilder.Builder.ProcessEntry | aset_CCcc/src/SET_ast.c:5535-5652 | The pointer operations of one entry do what the stack machine does |
| AstBuilder.Builder.Build | aset_CCcc/src/SET_ast.c:5535-5652 | The same for a whole source sequence list |
| AstBuilder.RelinkAppends | aset_CCcc/src/SET_ast.c:1179-1190 | All first-child and next-sibling chains keep standing for the links made, whichever slot at a list end is overwritten |
| StatementStack.LinksGraft | aset_CCcc/src/SET_ast.c:2137-2166 | Chaining two forests one after the other makes the links of the first, then of the second |
| RebuiltTree.LogDraws | aset_CCcc/src/SET_ast.c:1179-1190 | Pointers that stand for the links of a forest draw it at every depth |
| RebuiltTree.ShapeIsClean | aset_CCcc/src/SET_ast.c:6237-6397 | No node occurs twice in the forest a program stands for |
| RebuiltTree.Rebuild | aset_CCcc/src/SET_ast.c:5535-5652 | After the list of a well-ended program, and the popping that the next entry does, the pointers from the root draw exactly its forest, with generated blocks spliced into their parents |
| RebuiltTree.RebuildBlocks | aset_CCcc/src/SET_ast.c:5535-5652 | For a program that ends in a real block they do so with the last entry of its own list |
| ProgramDump.ProcessProgram | aset_CCcc/src/SET_ast.c:5535-5652 | From the entry list to the lines: the pointers unfold to the tree of the program and to no other, and reading the dump of that tree gives its forest |
| ProgramDump.DrawnShows | aset_CCcc/src/SET_dump_if.c:344-390 | The pointers that draw a forest unfold to its tree, each node with its operands in front |
| ProgramDump.ShowsOne | aset_CCcc/src/SET_dump_if.c:344-390 | Pointers unfold to one tree at most |
| ProgramDump.DumpTellsNesting | aset_CCcc/src/SET_dump_if.c:344-390 | With texts that tell nodes apart, programs with the same dump have the same nesting |
| StringBuffers.FlushAlwaysRoomy | aset_CCcc/src/SET_additions.c:486-525 | A flushing buffer has room for a piece of any length |
| StringBuffers.HeapRoomy | aset_CCcc/src/SET_additions.c:418-420 | A heap buffer has room while unfinished string and piece stay below the initial size |
| StringBuffers.WrapRoomy | aset_CCcc/src/SET_additions.c:387-399 | A wrapping buffer has room, and moves its string without overlap, while string and piece stay within half of it |
| StringBuffers.OverlapsIff | aset_CCcc/src/SET_additions.c:387-399 | The memcpy of the wrapping handler overlaps if and only if some byte of the string lies where another is to go |
| StringBuffers.RoomyIff | aset_CCcc/src/SET_additions.c:699-705 | The store stays inside exactly if there is room at once, or the move does not overlap and no doubling of the block holds the piece without the unfinished string |
| StringBuffers.HeapCanOverrun | aset_CCcc/src/SET_additions.c:699-705 | A concrete heap state in which the doubling loop stops too early |
| StringBuffers.DoubledTimes | aset_CCcc/src/SET_additions.c:701-703 | The doubling loop ends at the first power of two times the block that is as long as the piece |
| StringBuffers.StringBuffer.constructor | aset_CCcc/src/SET_additions.c:298-303 | A new buffer is empty and has issued nothing |
| StringBuffers.StringBuffer.InitStringBuffer | aset_CCcc/src/SET_additions.c:298-336 | The unfinished string is kept in the new block; the old block is freed only if no finished string is in it |
| StringBuffers.StringBuffer.MoveTo | aset_CCcc/src/SET_additions.c:326-335 | The block is exchanged, and every finished string stays in a block that is not freed |
| StringBuffers.StringBuffer.HandleOutputOverflow | aset_CCcc/src/SET_additions.c:352-363 | Everything pending goes to the file and the block is empty |
| StringBuffers.StringBuffer.HandleTrialOverflow | aset_CCcc/src/SET_additions.c:387-399 | The unfinished string is moved to the front, or the block is enlarged |
| StringBuffers.StringBuffer.HandleOverflow | aset_CCcc/src/SET_additions.c:387-420 | The three policies keep the text added so far; the wrapping one is safe exactly when its move does not overlap |
| StringBuffers.StringBuffer.AddToStringWithLen | aset_CCcc/src/SET_additions.c:695-710 | Every store is inside the block if and only if the closed condition of `RoomyIff` holds; then the text is appended and finished strings are unchanged |
| StringBuffers.StringBuffer.AddChars | aset_CCcc/src/SET_additions.c:718-757 | The same for one, two and three characters |
| StringBuffers.StringBuffer.AddNumToString | aset_CCcc/src/SET_additions.c:810-1277 | The bracketing strings with the canonical decimal form between them are appended, inside 32 reserved bytes |
| StringBuffers.StringBuffer.TerminateString | aset_CCcc/src/SET_additions.c:1767-1784 | The pointer returned points to exactly the text added since the last terminator, with the terminator itself behind it (and a newline behind a carriage return), which a heap buffer then keeps |
| StringBuffers.StringBuffer.FlushBuffer | aset_CCcc/src/SET_dump_if.c:569-575 | After the final flush the file holds everything that was added |
| StringRuns.AddPiece | aset_CCcc/src/SET_additions.c:695-757 | One call of the add_ functions: it reports exactly whether its store stays inside, and leaves the buffer in the state the run on paper has |
| StringRuns.AddString | aset_CCcc/src/SET_additions.c:695-784 | Any pieces, then the terminator: the run reports exactly whether every store stays inside, and if so the pointer returned is to the exact concatenation, across any number of wraps or growths |
| StringRuns.StringsWithin | aset_CCcc/src/SET_additions.c:298-420 | Every store of a run stays inside if no string is too long: any length for a flushing buffer, less than the initial size for a heap buffer, half the present block for a wrapping one |
| StringRuns.BuildStrings | aset_CCcc/src/SET_additions.c:298-336 | Whole runs of a heap buffer: the run reports exactly whether every store stays inside, and if so every string issued, now or before, is the concatenation of its pieces, unchanged, in a block that has not been freed |
| StringRuns.WriteStrings | aset_CCcc/src/SET_additions.c:486-525 | Whole runs of a flushing buffer: after the final flush the file holds all strings in order |
| StringRuns.IssuedInOrder | aset_CCcc/src/SET_additions.c:1767-1784 | The strings issued stand in order, one for each terminator |
| StringRuns.RunAdds | aset_CCcc/src/SET_additions.c:695-757 | A run that stays inside adds the texts of its pieces |
| Decimal.PrintDigit | aset_CCcc/src/SET_additions.c:820-1277 | The nine-way comparison prints the digit of its place and leaves the rest |
| Decimal.PrintPlaces | aset_CCcc/src/SET_additions.c:820-1277 | All places down to one, printed from the first non-zero one on, and what is left to print |
| Decimal.PrintDecimal | aset_CCcc/src/SET_additions.c:820-1277 | The comparisons print the canonical form of the number, or of 4999999999 if it is larger |
| Decimal.DecIsCanonical | aset_CCcc/src/SET_additions.c:820-1277 | The canonical form: digits only, no leading zero, and its value is the number |
| Decimal.PrintedRightIff | aset_CCcc/src/SET_additions.c:833-850 | So a number is printed right if and only if it is below five billion |
| Quoting.AddQuotedStrToString | aset_CCcc/src/SET_additions.c:1284-1319 | On a buffer of any policy the searches and backward counts report exactly whether every store stays inside, and if so append exactly the specified escaped text |
| Quoting.QuotedFits | aset_CCcc/src/SET_additions.c:1284-1319 | They do stay inside if the result keeps the unfinished string within bounds, at any length on a flushing buffer |
| Quoting.QuotedJoined | aset_CCcc/src/SET_additions.c:1284-1319 | The calls made for a string add its escaped text, between quotes if asked for |
| Quoting.RunStart | aset_CCcc/src/SET_additions.c:1296-1297 | The backward count stops at index 0 and so misses the first backslash of the string |
| Quoting.WellFormedIff | aset_CCcc/src/SET_additions.c:1284-1319 | The first unescaped quote in the output is the closing one if and only if no leading run of backslashes reaches a quote or the end |
| Quoting.LoneBackslashTakesTheQuote | aset_CCcc/src/SET_additions.c:1307-1315 | A concrete input whose closing quote is escaped |
| Quoting.QuotedAdds | aset_CCcc/src/SET_additions.c:1284-1319 | Only backslashes are inserted |
| Quoting.WellEscapedUnchanged | aset_CCcc/src/SET_additions.c:1284-1319 | A body that is well escaped already, without such a leading run, is copied unchanged |
| Quoting.BodyScan | aset_CCcc/src/SET_additions.c:1284-1319 | At each position an escape-aware reader is where the parity of the input's backslashes says |
| Quoting.StaysClosed | aset_CCcc/src/SET_additions.c:1284-1319 | Once closed, the reader stays closed |
| AstPrinter.Output.IndentToDepth | aset_CCcc/src/SET_dump_if.c:327-337 | Blocks of 64 blanks and a remainder make exactly depth blanks |
| AstPrinter.Output.WalkAst | aset_CCcc/src/SET_dump_if.c:344-390 | The loop over siblings makes the calls of the specified dump |
| AstPrinter.Output.WalkNode | aset_CCcc/src/SET_dump_if.c:348-388 | Leaves first, then suppressed subtrees, then suppressed nodes, then printed nodes |
| AstPrinter.DeliverAll | aset_CCcc/src/SET_dump_if.c:344-390 | The calls on a flushing buffer append their rendering |
| AstPrinter.DumpToFile | aset_CCcc/src/SET_dump_if.c:344-390 | After the flush the file ends with the rendering of the walk |
| AstPrinter.DumpFileAst | aset_CCcc/src/SET_dump_if.c:402-428 | One file: the framing lines, the walk at depth 1 and the preprocessor AST, or nothing for a file without nodes |
| AstPrinter.DumpAst | aset_CCcc/src/SET_dump_if.c:397-432 | Over all files: each output buffer gets the frame of its own file and nothing of another |
| AstLines.DumpIsLines | aset_CCcc/src/SET_dump_if.c:327-390 | In characters the dump is its lines, each written out: blanks, then text and position, or name, text, position and "{" (with "}" if childless), or "}" alone, then the line end |
| AstLines.LinesAreLines | aset_CCcc/src/SET_dump_if.c:344-390 | No line is above the start depth, and a character that the texts lack is in none, so that only line ends end lines |
| AstLines.DumpBalances | aset_CCcc/src/SET_dump_if.c:371-383 | If names, texts and positions hold no braces, no beginning of the dump has more "}" than "{", and the whole has as many |
| AstLines.FrameIsLines | aset_CCcc/src/SET_dump_if.c:397-440 | The AST of a file in characters: its frame with "AST {" and "ast_root {", the nodes at depth 1, the lines of the preprocessor, and the closing braces |
| AstReader.RoundTrip | aset_CCcc/src/SET_dump_if.c:344-390 | Reading any dump back at its depth gives the erased forest (suppressed nodes spliced, suppressed subtrees gone) with nothing left, which fixes indentation and balanced braces |
| AstReader.Reads | aset_CCcc/src/SET_dump_if.c:344-390 | The same with any further lines behind the dump |
| AstReader.ErasedDumpIff | aset_CCcc/src/SET_dump_if.c:366-381 | Dumping the erased forest gives the same lines if and only if no printed node has children that all vanish |
| SymbolPass.WriteSymbols | aset_CCcc/src/SET_dump_if.c:438-464 | The recursive pass visits the specified entries |
| SymbolPass.PrintedIsDumped | aset_CCcc/src/SET_dump_if.c:344-390 | The entries whose numbers the walk prints are those of leaves and of nodes that are not suppressed, in order |
| SymbolPass.CoversIff | aset_CCcc/src/SET_dump_if.c:438-464 | With entries told apart, the pass visits exactly the entries of the tokens that the walk prints, in order, if and only if every leaf is plain |
| SymbolPass.BareLeavesArePlain | aset_CCcc/src/SET_dump_if.c:438-464 | Leaves with no entry and no children are plain, so the pass covers the walk |
| SymbolPass.DumpAllLines | aset_CCcc/src/SET_dump_if.c:397-432 | The lines of the second phase are those of the walk of every file |
| SymbolPass.DumpPhases | aset_CCcc/src/SET_dump_if.c:563-568 | All symbols are written before the first line of the walk |
| SymbolPass.SymbolBeforeLine | aset_CCcc/src/SET_dump_if.c:563-568 | Whatever entry a line refers to, its symbol was written to the same file before |
| LockProtocol.LockHolds | aset_CCcc/src/SET_multiple_iffs.c:258-300 | In every run the lock file exists exactly while one process is between its exclusive create and its unlink |
| LockProtocol.MutualExclusion | aset_CCcc/src/SET_multiple_iffs.c:258-300 | No two processes are in that window together |
| LockProtocol.OnlyOwnersWrite | aset_CCcc/src/SET_additions.c:486-525 | Only the owner of the lock changes the file, and only by appending |
| LockProtocol.ContentHolds | aset_CCcc/src/SET_additions.c:560-587 | The file and the owner's pending text are the finished texts and all the owner has added |
| LockProtocol.WholeTexts | aset_CCcc/src/SET_additions.c:560-587 | The file is the whole texts of the finished processes in the order they finished and a first part of the owner's, never a mix |
| LockProtocol.FinishedComeFirst | aset_CCcc/src/SET_additions.c:560-587 | The finished texts stand at the front |
| LockProtocol.RepeatOnlyInRace | aset_CCcc/src/SET_multiple_iffs.c:311-326 | Whoever is past the test when another has finished had tested for the file before it existed |
| LockProtocol.FinishedIsFinal | aset_CCcc/src/SET_multiple_iffs.c:311-326 | A process yet to test when another has finished never extracts |
| LockProtocol.CanExtractIff | aset_CCcc/src/SET_multiple_iffs.c:311-326 | A run can go on to a process extracting the file exactly while there is no file or, once there is one, if that process is past its IF test, whoever holds the lock |
| LockProtocol.RepeatIff | aset_CCcc/src/SET_multiple_iffs.c:311-326 | So once one has finished, another can still extract if and only if it is past its IF test |
| LockProtocol.LateExtraction | aset_CCcc/src/SET_multiple_iffs.c:311-326 | Such a process, short of the lock or past that test too, can go on to append any text once the lock is free |
| LockProtocol.BothCanExtract | aset_CCcc/src/SET_multiple_iffs.c:311-326 | So a concrete run extracts the file twice |
| LockProtocol.UninterruptedExtract | aset_CCcc/src/SET_multiple_iffs.c:311-326 | Without interference the steps amount to the documented criterion |
| LockProtocol.TestsDecide | aset_CCcc/src/SET_multiple_iffs.c:258-326 | At each of the four steps the file it looks for sends the job back to the start, and otherwise the job goes on by exactly one step |
| LockFiles.FileSystem.CreateLockFileFor | aset_CCcc/src/SET_multiple_iffs.c:258-283 | Succeeds exactly if the lock file is absent and its directory can be made, and then adds just that file |
| LockFiles.FileSystem.RemoveLockFileFor | aset_CCcc/src/SET_multiple_iffs.c:285-300 | Removes just the lock file |
| LockFiles.FileSystem.ExtractIFFileFor | aset_CCcc/src/SET_multiple_iffs.c:311-326 | True exactly if pset, IF and lock file are all absent and the lock was taken |
| LockFiles.NamesApart | aset_CCcc/src/SET_multiple_iffs.c:213-248 | Two paths share a lock file if and only if they are the same up to the folding of case |
| LockFiles.NamesAre | aset_CCcc/src/SET_multiple_iffs.c:213-248 | The three names spelled out: base, a slash if the path lacks one, path and ".pset", then ".iff", then ".lck" |
| LockFiles.FoldIs | aset_CCcc/src/SET_multiple_iffs.c:58-70 | Case is folded letter by letter from A to Z, unless it is kept |
| FileTable.HashString | aset_CCcc/src/SET_file_table.c:64-86 | The wrapping 32-bit loop gives the base-113 polynomial modulo 1024, always a valid bucket |
| FileTable.BucketIsSum | aset_CCcc/src/SET_file_table.c:64-86 | The bucket is the sum of all characters, as signed bytes times powers of 113, modulo 1024 |
| FileTable.SignedByteIs | aset_CCcc/src/SET_file_table.c:64-86 | A char counts as the signed byte that agrees with it modulo 256 |
| FileTable.BucketSuffices | aset_CCcc/src/SET_file_table.c:193-223 | The first record of that name in its bucket is the first of all |
| FileTable.HashBucket.Grow | aset_CCcc/src/SET_file_table.c:130-153 | The contents are unchanged and there is room for sixteen more |
| FileTable.HashBucket.Add | aset_CCcc/src/SET_file_table.c:169-191 | The record is appended to the bucket |
| FileTable.HashBucket.Find | aset_CCcc/src/SET_file_table.c:207-223 | The first record with the name, or none |
| FileTable.Table.constructor | aset_CCcc/src/SET_file_table.c:88-128 | 1024 separate empty buckets |
| FileTable.Table.Add | aset_CCcc/src/SET_file_table.c:155-167 | The table is the list of everything added, in order |
| FileTable.Table.Find | aset_CCcc/src/SET_file_table.c:193-205 | The earliest record with a non-empty name, or none |
| FileTable.Registry.IsFileInteresting | aset_CCcc/src/SET_additions.c:2243-2276 | One record per path, made only if the path has none and may be extracted; the record of buffer b stays at index b; a record beyond the 1024th has no place |
| FileTable.EmptyNameIsNeverFound | aset_CCcc/src/SET_file_table.c:193-205 | An empty name is not found even when it is in the table |
| CliqueBits.Entry.constructor | aset_CCcc/src/SET_symid.c:79-90 | A fresh entity is a ring of its own |
| CliqueBits.SetBit | aset_CCcc/src/SET_additions.c:2063-2065 | One bit of the array is switched on and no other changes |
| CliqueBits.OrSetsOneBit | aset_CCcc/src/SET_additions.c:2065-2065 | Masks 1 << k select single bits |
| CliqueBits.LeastBytes | aset_CCcc/src/SET_additions.c:2047-2062 | As many bytes are allocated as all buffers need, and no byte more |
| CliqueBits.SetOutputBufferBit | aset_CCcc/src/SET_additions.c:2047-2068 | The set of ids gains one exactly if its byte is inside the array; a first call allocates a cleared array with room for every file |
| CliqueBits.ShareBits | aset_CCcc/src/SET_additions.c:2097-2112 | The walk gives every member the array, frees the arrays it replaces, visits each once and stops |
| CliqueBits.SetOutbufBitOfClique | aset_CCcc/src/SET_additions.c:2090-2113 | Set through any member, a bit inside the array is reported by all, with exactly the bits reported before; ring and agreement are kept and nothing is freed |
| CliqueBits.Rotated | aset_CCcc/src/SET_additions.c:2101-2111 | Any member can stand first |
| CliqueBits.SameMembers | aset_CCcc/src/SET_symid.c:100-111 | Rings that meet have the same members |
| CliqueBits.FindLast | aset_CCcc/src/SET_symid.c:100-111 | The search ends at the joiner, if it is in the ring, or at the last member |
| CliqueBits.Conform | aset_CCcc/src/SET_symid.c:112-135 | Every member of the joining ring takes the marks of the other, giving up its own array, and the last one is found |
| CliqueBits.FreedOnceIff | aset_CCcc/src/SET_symid.c:122-129 | A walk round an agreeing ring frees no array twice if and only if it frees none or the ring has one member |
| CliqueBits.SharedArrayFreedTwice | aset_CCcc/src/SET_symid.c:122-129 | Two fresh entities joined and marked, then joined to a third: their array is freed twice |
| CliqueBits.Splice | aset_CCcc/src/SET_symid.c:136-137 | Crossing two links of separate rings makes one ring of both |
| CliqueBits.JoinToClique | aset_CCcc/src/SET_symid.c:79-138 | The result is one ring of exactly the members of both, agreeing on the array, mark and symbol number of the clique, or of the joiner if only that has a symbol number; the array of the other side is freed once for every member; nothing is relinked or freed if they were one already |
| Declarators.Chain.Scan | aset_CCcc/src/SET_ast.c:2269-2288 | The chain is the maximal run of entries with the non-null specifier end of the first |
| Declarators.Chain.LinkDeclarators | aset_CCcc/src/SET_ast.c:2296-2358 | The nodes are linked in order, and the end is that of the last declarator or its initializer |
| Declarators.LinkOne | aset_CCcc/src/SET_ast.c:2300-2351 | One entry: its node is linked, and the end moves to its declarator or initializer |
| Declarators.Chain.MakeDeclaration | aset_CCcc/src/SET_ast.c:2385-2432 | One declaration for the chain, or its nodes under the pending head; the chain is then idle |
| Declarators.Chain.EndDefinition | aset_CCcc/src/SET_ast.c:6657-6697 | A type definition is chained at once and, if the next entry shares its specifier end, waits for that run of declarators |
| Declarators.Chain.ProcessEntry | aset_CCcc/src/SET_ast.c:5916-5923 | A declaration is complete exactly at the last entry of its group |
| Declarators.Chain.ProcessDeclarator | aset_CCcc/src/SET_ast.c:5916-5923 | Scan at the first declarator, declaration at the last |
| Declarators.Chain.ProcessAll | aset_CCcc/src/SET_ast.c:5916-5923 | Over any list the declarations are exactly those of the maximal runs, with the type definitions they join, in order |
| Declarators.Chain.ForHeader | aset_CCcc/src/SET_ast.c:6330-6342 | The loop of a for header makes exactly one declaration |
| Declarators.TogetherIff | aset_CCcc/src/SET_ast.c:2269-2288 | Two entries are in one declaration if and only if every entry after the first, up to the second, has the specifier end of the entry before it, null counting only behind a type definition |
| Declarators.EachDeclaratorGrouped | aset_CCcc/src/SET_ast.c:2269-2288 | Every declarator and every type definition is in a declaration |
| Declarators.GroupsInOrder | aset_CCcc/src/SET_ast.c:2269-2288 | Declarations follow each other and do not overlap |
| Declarators.NullStandsAlone | aset_CCcc/src/SET_ast.c:2279-2283 | A declarator without a position, or with a null one, shares its declaration with no other |
| Declarators.NodesConserved | aset_CCcc/src/SET_ast.c:2296-2358 | The declarations together link every node once, in list order |
| Declarators.KidsAreTheNodes | aset_CCcc/src/SET_ast.c:2330-2333 | For every declaration made: the increasing list of exactly the positions of its span whose declarators have nodes, its kids being those nodes; and every such position of the list is in one declaration |
| Declarators.NeighboursTogether | aset_CCcc/src/SET_ast.c:2269-2288 | Two neighbours share a declaration if and only if their specifiers end at one place, line and column, which for two declarators is not null |
| Declarators.RunEnds | aset_CCcc/src/SET_ast.c:2385-2432 | A run of declarators counts as one with declarators exactly if one has a node, and ends at the last initializer or declarator, or at the specifiers if its only entity is incomplete |
| Declarators.DefinitionEnds | aset_CCcc/src/SET_ast.c:6657-6697 | The declaration of a type definition ends at the last declarator that joined, else at the specifiers, else at the closing brace |
| DestructorWindow.CompleteIff | aset_CCcc/src/SET_ast.c:3267-3289 | The calls made are all the calls due if and only if nothing past an empty destruction list is due one |
| DestructorWindow.WindowIsPrefix | aset_CCcc/src/SET_ast.c:3267-3289 | What is made is always a first part of what is due, in order |
| DestructorWindow.GapLosesCall | aset_CCcc/src/SET_ast.c:3281-3284 | Three concrete lifetimes where the outermost object is missed |
| DestructorWindow.WindowTakesUntil | aset_CCcc/src/SET_ast.c:3267-3289 | In well formed lists the calls are the eligible objects of the chain before the first of the target lifetime |
| DestructorWindow.ChainIsDistinct | aset_CCcc/src/SET_ast.c:3267-3289 | No object is met twice |
| DestructorWindow.ChainGoesOn | aset_CCcc/src/SET_ast.c:3283-3288 | The chain starts at the head and goes on from each object to the next of its list, or else to the list of the parent lifetime, until there is none |
| DestructorWindow.UntilStops | aset_CCcc/src/SET_ast.c:3272-3273 | The objects met all have lifetimes other than the target, and the first left out has none or the target |
| DestructorWindow.CallsExactly | aset_CCcc/src/SET_ast.c:3274-3281 | Of the objects met exactly those get a call that have a destructor, do not free storage on an exception and are no base or member; each gets its own, in order |
| DestructorWindow.DuePlacesAre | aset_CCcc/src/SET_ast.c:3217-3281 | The places of those objects, in increasing order |
| DestructorRuns.Levels.CreateDestructorCall | aset_CCcc/src/SET_ast.c:3217-3259 | A call exactly for an object with a destructor that is not the freeing of storage on an exception |
| DestructorRuns.Levels.Walk | aset_CCcc/src/SET_ast.c:3267-3289 | The loop ends (lifetime depth, then rest of the list) and makes exactly the specified calls |
| DestructorRuns.Levels.ProcessLifetimeWindow | aset_CCcc/src/SET_ast.c:3267-3289 | The same as a step of the stack |
| DestructorRuns.Levels.PushStmt | aset_CCcc/src/SET_ast.c:1934-1934 | The chain head is saved |
| DestructorRuns.Levels.PopStmt | aset_CCcc/src/SET_ast.c:1962-1962 | The saved head is restored; an empty stack is reported and left alone |
| DestructorRuns.Levels.MeetAuto | aset_CCcc/src/SET_ast.c:5931-5934 | A dynamically initialised automatic object becomes the head |
| DestructorRuns.LevelRestores | aset_CCcc/src/SET_ast.c:1934-1962 | After a level, whatever happened in it, head and stack are those of its entry |
| DestructorRuns.NoneReappearsIff | aset_CCcc/src/SET_ast.c:1934-1962 | Objects of levels left never reappear, at any level after any number of events, if and only if no new object is linked to one of a level left |
| DestructorRuns.NoneLostIff | aset_CCcc/src/SET_ast.c:1934-1962 | No object of an open level is lost if and only if each new object is linked to all of them |
| DestructorRuns.LiveIff | aset_CCcc/src/SET_ast.c:1934-1962 | With both, an object can be reached exactly if no level open when it was met has been left |
| DestructorRuns.HeadLinksSuffice | aset_CCcc/src/SET_ast.c:1838-1840 | Linking an object to what the head reaches when it is met is enough for none to reappear |
| DestructorRuns.GapRunLosesObject | aset_CCcc/src/SET_ast.c:3281-3284 | A concrete run with an empty middle lifetime: nothing reappears, but a live object is lost |
| DestructorRuns.CallsAreLive | aset_CCcc/src/SET_ast.c:3267-3289 | Every call of a window is for an object of a level still open, each once, gaps or not |
| OptionFilter.ExecOptions.AddOption | options_filter/option_filter.cxx:86-97 | The option is appended |
| OptionFilter.ExecOptions.MatchOption | options_filter/option_filter.cxx:99-108 | The count of the first option spelled so, or -1 |
| OptionFilter.ExecOptions.ReadSingleOption | options_filter/option_filter.cxx:123-143 | A line adds its first word with the count that follows, 0 if none does |
| OptionFilter.TableHasNoArgumentForEmpty | options_filter/option_filter.cxx:123-143 | No description file gives the empty option an argument |
| OptionFilter.ReadChar | options_filter/option_filter.cxx:264-330 | The branches of the loop take the step of the state machine |
| OptionFilter.ReadOptions | options_filter/option_filter.cxx:250-332 | The whole input is filtered as the state machine says |
| OptionFilter.IdempotentIff | options_filter/option_filter.cxx:250-332 | Filtering twice is filtering once, for all inputs, if and only if the empty option takes no argument |
| OptionFilter.FilterIdempotent | options_filter/option_filter.cxx:123-143 | So it is for every table a description file can give |
| OptionFilter.StepReplays | options_filter/option_filter.cxx:264-330 | What a step writes, read in the same state, is written again and leads to the same state |
| OptionFilter.ContentKept | options_filter/option_filter.cxx:258-330 | With white space removed, output and input agree but for option markers turned into - |
| OptionFilter.ArgumentJoined | options_filter/option_filter.cxx:285-330 | Any white space between an option that takes an argument and what follows gives the output of none |
| OptionWords.QuotedIsCopied | options_filter/option_filter.cxx:273-288 | Text between quotation marks is copied, white space and markers included, and ends in a word outside quotes |
| OptionWords.QuotedWord | options_filter/option_filter.cxx:273-330 | The same from each state in which a word may start or is being passed over |
| OptionWords.PlainWord | options_filter/option_filter.cxx:273-288 | A word that starts with no marker is copied, markers inside it included |
| OptionWords.SpacesBetween | options_filter/option_filter.cxx:264-288 | White space between words is copied |
| OptionWords.SpaceIs | options_filter/option_filter.cxx:264-330 | White space is the blank and the control characters from 9 to 13 |
| OptionWords.OptionIsDashed | options_filter/option_filter.cxx:273-320 | An option gets the marker -, whichever it had, and its kind decides what is expected next |
| OptionWords.OptionInsteadOfArgument | options_filter/option_filter.cxx:312-330 | An option where an argument was expected is kept apart from the one before by one blank |
| OptionWords.UnknownOptionEnds | options_filter/option_filter.cxx:285-311 | White space behind an option that is not in the table is kept |
| OptionWords.LookupIsFirst | options_filter/option_filter.cxx:99-108 | The count is that of the earliest entry of that name, and -1 exactly if there is none |
| OptionWords.NumberRead | options_filter/option_filter.cxx:123-143 | A count is read behind white space, with its sign, up to what cannot belong to it |
| OptionWords.NoNumberRead | options_filter/option_filter.cxx:123-143 | What does not start with a number counts as 0 |
| OptionWords.LineIsRead | options_filter/option_filter.cxx:123-143 | A description line of white space, a word, and perhaps white space and a number gives that word with that number, or 0 |

## Left out

- Statements.HasEmptyElse: the shape of an empty else counts as it does for C++ programs; for C the code looks at the flag alone.
- Nesting.Rebuilds: assumes that constructs end in statements with entries (`LevelsRightIffOrdinary` says which programs those are, and that nothing weaker would do), and constructs that end with the very last entry are popped only by a further one, which the source gets from the enclosing block; `RebuildsBlocks` does without.
- RebuiltTree.Rebuild: pops what is completed after the last entry, as the next entry would; `RebuildBlocks` does without.
- Try, catch and Microsoft try blocks, labels and declarations as statements: they use the same push and pop, with details of the front end's types.
- The fake blocks round `goto` and `return`, the implicit `return` of `main`, and levels for classes, functions and templates.
- Destructor calls chained while a construct is popped: `DestructorRuns` has them as events of their own, without the nodes around them.
- `stmt_stack_match` and the recovery from unmatched ends: in a list that was flattened from a program every end matches.
- Operands of statements are taken as linked before the statement's entry is met, as the earlier walk links conditions; the operands of a `for` the source links while it processes the loop's own entry, after it has pushed the loop (`aset_CCcc/src/SET_ast.c`, 6313-6373), with the entries of the initialisation processed ahead (`ForHeader`).
- ProgramDump.ProcessProgram: operands are nodes without children of their own.
- AstBuilder.Builder.Build: the nodes of operands are known by number only; `expr_node_name` and node names are not modelled.
- `check_for_circularity` and `AST_is_corrupted` while linking: by `Represents` no circular chain arises.
- StringBuffers.StringBuffer.InitStringBuffer: a failing `malloc` and the sizes reported to the memory meters are not modelled.
- StringBuffers.StringBuffer.AddToStringWithLen: bytes outside the block are not modelled; when `ok` is false nothing is said of the state.
- StringBuffers.StringBuffer.AddNumToString: the strings and digits are to fit the 32 bytes reserved, which the code does not check; the store is made in one piece; the comparisons are in `PrintDecimal`, by decimal place rather than as nested ifs.
- `add_symid_to_string` and the position printers: they are sequences of calls already covered.
- Quoting.AddQuotedStrToString: when `ok` is false nothing is said of the state; the same holds for the runs of `StringRuns`.
- AstPrinter.DumpAst: the calls of a file are collected before they are delivered; the order of the bytes is the same. The lines of the preprocessor's AST are opaque.
- Cross references and error messages.
- SymbolPass.WriteSymbols: one entry is one symbol; which relations come with it, and whether it was written before, is not modelled. A node's entry belongs to its text, which gives the entry's symbol number.
- LockProtocol.WholeTexts: like `CanExtractIff`, only for runs in which nobody deletes the IF file; `LockHolds` and `MutualExclusion` are for all runs.
- Crashed processes that leave their lock behind, failing writes, and a file deleted while it is open.
- `get_logical_name`, the default base directory and Windows paths: the logical name is the path.
- FileTable.HashString: `char` is taken as signed, and the mask as a remainder, which agree on two's complement.
- FileTable.Registry.IsFileInteresting: a non-empty path, already absolute and in lower case; when `inside` is false nothing is said of the array.
- Destroying and dumping the file table, and the table of files named on the command line.
- CliqueBits.SetOutputBufferBit: bytes outside the array are not modelled; when `inside` is false nothing is said of the bits.
- CliqueBits.JoinToClique: lists what is freed, without modelling what a repeated `free` does.
- Declarators.Chain.EndDefinition: the members of the definition, which the source sequence list has before its end, are not part of the list modelled.
- Declarators.Chain.LinkDeclarators: kinds of declarations and their specifiers, symbol numbers and the mark for entries already processed.
- DestructorRuns.NoneReappearsIff: runs in which a level is left that was not entered, which the source reports as an error, are not covered; how the front end links objects is the condition of the theorem.
- Template members, symbol numbers, output files of definitions, and the walk of the intermediate language as a whole.
- OptionFilter.ReadOptions: words fit the fixed arrays and hold no NUL; characters are not widened to negative `int`.
- OptionFilter.ExecOptions.AddOption: the linked list is a sequence in order of appending.
- The option file's location and sections, `ReadExecName`, and the choice of the executable.
- `push_block` and the block stack: a stack of numbers with no further property.
