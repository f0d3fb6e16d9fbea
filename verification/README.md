# Verification of the Oberon LLVM compiler

Dafny models of the parts of the compiler and its run-time library that do the most
intricate work, and proofs of what they are for. `dafny verify dfyconfig.toml` checks
everything.

1. **The grammar utility** (`Grammar` to `GrammarUtility`): FIRST, FOLLOW, FIRST+ and the
   test for backtrack-freedom against derivations and parse trees, and the expansion of
   EBNF to BNF. Main results: FIRST, FOLLOW and FIRST+ are exact, each stated by
   derivations; so is the verdict; FOLLOW is safe; an accepted grammar is unambiguous, up to
   the words of the EBNF text it was loaded from. FOLLOW and FIRST+ are larger than the textbook sets:
   the code merges FOLLOW of a symbol into its trailer and keeps the ε of a nullable
   prefix. Both only make acceptance rarer. What does break acceptance is an ε literal
   behind a nonterminal, which is shown by an example.
2. **Structured statements to basic blocks** (`Structured` to `ForExpansion`): the statement
   visitors as methods that change an insertion point, a stack of loop tails and a list of
   blocks. Main result: the blocks end in a state if and only if the statements do, and if
   and only if they do with every FOR written out as a WHILE (`ForExpansion`). The
   language semantics has a switch for what the visitors do to an EXIT in an ELSIF body of
   a WHILE: it leaves the loop around the WHILE. The switch is proved to make a
   difference exactly there.
3. **Symbol files** (`SymbolFormat` to `SymbolRoundTrip`): exporter and importer as
   classes with their counter, tables, cursor and memory. Main result: importing what was
   exported gives types that cannot be told from the exported ones by following them to
   any depth, with the sharing of named types, for cyclic type graphs, as long as no
   pointer misses its base; and one does if and only if a record that was waited for is not
   written, or two pointers wait for one unfinished record. The importer reports an error
   in some of these cases only, and it is proved in which. The writer's run must stay
   `clean`: no reference above 127, and no reference to an unfinished type but from a
   pointer. `PlannedModules` gives a condition on the types for all of this, for cyclic
   types too; `ForwardNumbers` says for every module which numbers are never defined;
   `LostForwards` has modules that lose a base, with and without an error.
4. **Run-time representation** (`ArrayTypes`, `ArrayIndexing`, `RecordTypes`): index
   lowering with dope vectors, the type test by ancestor ids, record layout.
5. **Arithmetic** (`IntegerDivision`, `Folding` to `FoldingTypes`): the instructions for
   DIV and MOD on words of every width, and constant folding against evaluation. The
   folder exchanges < and <=, folds x MOD 1 to x, drops calls in a product with 0, and
   folds 0 - r to a negation that is made in the width of r though typed wider where the 0
   is (Sema.cpp:1966-1968, LLVMIRBuilder.cpp:910-916); for each there is a lemma that says
   exactly when it is right. Elsewhere a folded tree has the value of the unfolded one, and
   traps no more often unless a folded literal has narrowed an operator. Two kinds of trees
   the compiler does not survive, and the model rejects them: a folded `TRUE & x` is asked
   for its Boolean value though it is no literal (Sema.cpp:1455-1456), and in `x IN s` with
   a literal s the element is taken for a literal though it is none (Sema.cpp:2028-2030).
   With any other s a one is shifted by the element in the element's own width
   (LLVMIRBuilder.cpp:1076-1085), which of the variables only INTEGER ones fit. The
   theorems on values take IN as the language means it, for every element;
   `BuildIsSizedIff` says for which trees the instructions have operands of their widths.
6. **CASE** (`CaseLabels`): the label checks and the choice at run time.
7. **Library** (`Files`, `Strings`, `Texts`): variable-length and fixed-size integers,
   string editing in place, decimal and hexadecimal output.

`Wrappers`, `Numbers` and `Words` hold what the others share. Terminals, nonterminals and
blocks are numbers; conditions and assignments are functions on states; a type in the
importer's memory is known by its address.

## Model

| member | source | states |
|---|---|---|
| FirstSets.ComputeFirstSets | utils/grammar/Validator.cpp:12-54 | terminates for every grammar with non-empty bodies; the result is closed under all productions and exact: t is in FIRST(X) if and only if X derives a sentential form starting with t, and ε is in it if and only if X derives the empty form |
| FirstSets.FirstOfBody | utils/grammar/Validator.cpp:31-44 | the walk along a body computes FIRST of the body: ε only when every symbol has it |
| FirstSets.ClosedIsComplete | utils/grammar/Validator.cpp:26-52 | any map closed under the loop's step contains all of FIRST, for derivations of every length |
| FirstSets.FirstIsOrderIndependent | utils/grammar/Validator.cpp:28-51 | two grammars with the same productions in any order and number get the same FIRST sets |
| FollowSets.ComputeFollowSets | utils/grammar/Validator.cpp:56-101 | terminates with the least solution of the inclusions the code reads off the bodies, the merge of FOLLOW of a symbol into the running trailer included |
| FollowSets.VisitProduction | utils/grammar/Validator.cpp:69-98 | one backward pass over a body keeps the map below every solution and never loses an element |
| FollowMeaning.FollowIsSafe | utils/grammar/Validator.cpp:56-101 | when ε stands only alone in a body, FOLLOW(A) holds every terminal that follows A in any sentential form of the start symbol, eof wherever a form ends with A, and never ε |
| FollowMeaning.FollowHoldsEpsilonIff | utils/grammar/Validator.cpp:78-96 | ε gets into some FOLLOW set if and only if some body has the ε terminal directly behind a nonterminal |
| FollowMeaning.EpsilonBehindLosesTerminals | utils/grammar/Validator.cpp:92-96 | a concrete grammar with ε behind a nonterminal whose FOLLOW set misses a terminal that can follow |
| FollowExact.FollowIsExact | utils/grammar/Validator.cpp:56-101 | FOLLOW is exact, stated without the trailer: t is in FOLLOW(n) if and only if n is the start symbol and t is eof, or in some body only nullable nonterminals stand between n and a symbol that begins with t, a nullable nonterminal that t is behind, or the end of a body whose head t is behind |
| BacktrackFree.ComputeFirstPlusSets | utils/grammar/Validator.cpp:103-131 | FIRST+ of a production is FIRST of its nullable prefix and the next symbol, with the spurious ε of a nullable prefix, and FOLLOW of the head when the whole body is nullable |
| BacktrackFree.FirstPlusIsExact | utils/grammar/Validator.cpp:103-131 | a terminal other than ε is in FIRST+ of a production if and only if it begins what the body derives, or the body derives nothing and the terminal is behind the head; ε is in it if and only if the first symbol is nullable |
| BacktrackFree.AcceptedIff | utils/grammar/Validator.cpp:133-160 | a grammar is accepted if and only if no two productions of one head are spoken for by one terminal or both begin with a nullable symbol, stated by derivations |
| BacktrackFree.CheckBacktrackFree | utils/grammar/Validator.cpp:133-160 | true if and only if no two productions of one head share a FIRST+ element; the reported pair is such a pair |
| BacktrackFree.Validate | utils/grammar/main.cpp:30-69 | the whole analysis: exact FIRST, least FOLLOW, FIRST+, and the verdict, which is given by the derivations of the grammar alone |
| BacktrackFree.AcceptedIsLL1 | utils/grammar/Validator.cpp:133-160 | in an accepted grammar at most one production of a nonterminal fits any one-token lookahead, where fitting is stated by derivations only |
| BacktrackFree.AcceptedIsUnambiguous | utils/grammar/Validator.cpp:133-160 | two parse trees of an accepted grammar with the same yield are the same tree |
| BacktrackFree.DerivableWordHasOneTree | utils/grammar/Validator.cpp:133-160 | every word the start symbol of an accepted grammar derives has exactly one parse tree |
| BacktrackFree.AcceptedButAmbiguous | utils/grammar/Validator.cpp:92-96 | a concrete grammar with ε behind a nonterminal that is accepted although one word has two trees |
| BacktrackFree.NodeIsSelected | utils/grammar/Validator.cpp:103-131 | the production at any tree node has the node's first token, or what follows it, in its FIRST+ set |
| ParseTrees.WordsAreYields | utils/grammar/Grammar.cpp:112-120 | a word is derived by rewriting if and only if it is the yield of a parse tree |
| Expansion.SameWords | utils/grammar/Loader.cpp:55-120 | the productions built for nested ( ), [ ], { } and | generate exactly the words of the EBNF rule, for every rule and word |
| Expansion.TreeMatches | utils/grammar/Loader.cpp:83-120 | every parse tree of the built productions spells a word of the expression it was built from |
| Expansion.MatchTree | utils/grammar/Loader.cpp:83-120 | every word of an expression has a parse tree in the built productions |
| GrammarLoader.Loader.Load | utils/grammar/Loader.cpp:22-28 | reading the text of any list of rules builds productions that expand exactly those rules, with the first starred rule as start, if no user name is a generated name |
| GrammarLoader.Loader.ReadProduction | utils/grammar/Loader.cpp:30-52 | one rule: its head, its star and all its alternatives |
| GrammarLoader.Loader.ReadAlternation | utils/grammar/Loader.cpp:54-70 | one production for each alternative, and nothing else for that head |
| GrammarLoader.Loader.ReadSymbolList | utils/grammar/Loader.cpp:72-81 | the symbols of a sequence, each meaning the item it was read from |
| GrammarLoader.Loader.ReadSymbol | utils/grammar/Loader.cpp:83-120 | a symbol for each kind of item |
| GrammarLoader.Loader.Generate | utils/grammar/Loader.cpp:155-157 | a new nonterminal under the rule's name and the next number |
| GrammarLoader.GeneratedNamesDiffer | utils/grammar/Loader.cpp:155-157 | the names that are generated within one rule differ |
| GrammarLoader.Loader.ReadGroup | utils/grammar/Loader.cpp:93-99 | ( ): a new nonterminal with the inner alternatives |
| GrammarLoader.Loader.ReadOptional | utils/grammar/Loader.cpp:100-107 | [ ]: the inner alternatives and ε |
| GrammarLoader.Loader.ReadRepeat | utils/grammar/Loader.cpp:108-117 | { }: a right-recursive pair of nonterminals and ε |
| GrammarUtility.PlainTextIsWellFormed | utils/grammar/Loader.cpp:22-120 | a text without empty alternatives, and with ε spelled out only alone or behind literals, gives a grammar that meets the conditions of the analysis |
| GrammarUtility.AcceptedTextIsUnambiguous | utils/grammar/main.cpp:26-69 | if the analysis accepts the loaded grammar, every word of the EBNF start rule has exactly one parse tree |
| GrammarUtility.Run | utils/grammar/main.cpp:26-69 | load and analyse: acceptance means one parse tree for every word of the text's start rule |
| IRBuilder.Lower | lib/codegen/llvm/LLVMIRBuilder.cpp:1356-1645 | for every statement tree the analysis lets through: all blocks are terminated, and the block graph started in state s ends in state t if and only if the statements do |
| IRBuilder.Builder.VisitSequence | lib/codegen/llvm/LLVMIRBuilder.cpp:1356-1364 | emits the statements up to the first that terminates its block |
| IRBuilder.Builder.Visit | lib/codegen/llvm/LLVMIRBuilder.cpp:1465-1645 | for one statement: the code for it stands between the old and the new insertion point, new blocks but the current one have one terminator, old code is untouched, the stack of loop tails is as before |
| IRBuilder.Builder.VisitIf | lib/codegen/llvm/LLVMIRBuilder.cpp:1465-1501 | the same for IF with ELSIF and ELSE |
| IRBuilder.Builder.VisitLoop | lib/codegen/llvm/LLVMIRBuilder.cpp:1505-1517 | the same for LOOP; EXIT inside goes to the new tail |
| IRBuilder.Builder.VisitWhile | lib/codegen/llvm/LLVMIRBuilder.cpp:1519-1559 | the same for WHILE with ELSIF, whose bodies are emitted after the tail is popped |
| IRBuilder.Builder.VisitRepeat | lib/codegen/llvm/LLVMIRBuilder.cpp:1561-1578 | the same for REPEAT |
| IRBuilder.Builder.VisitFor | lib/codegen/llvm/LLVMIRBuilder.cpp:1580-1629 | the same for FOR, with the bound evaluated anew each round and a counter of fixed width |
| IRBuilder.Builder.VisitCase | lib/codegen/llvm/LLVMIRBuilder.cpp:821-836 | the same for the numeric CASE |
| IRBuilder.Builder.VisitTypeCase | lib/codegen/llvm/LLVMIRBuilder.cpp:838-860 | the same for the CASE over types |
| Simulation.Forward | lib/codegen/llvm/LLVMIRBuilder.cpp:1356-1645 | normal end, EXIT and RETURN of a statement reach the end of its code, the top loop tail and a return, with the same state |
| Simulation.TableLookup | lib/codegen/llvm/LLVMIRBuilder.cpp:829-834 | the switch table leads each value to the first case that lists it, or to the default |
| Reflection.Ends | lib/codegen/llvm/LLVMIRBuilder.cpp:1356-1645 | if the code of a statement runs to an end, so does the statement |
| IRBuilder.LoweredAgrees | lib/codegen/llvm/LLVMIRBuilder.cpp:1356-1645 | both directions put together for a whole body |
| ForExpansion.ForIsWhile | lib/codegen/llvm/LLVMIRBuilder.cpp:1580-1629 | a FOR loop with any bounds and body ends in an outcome if and only if v := low; WHILE v has not passed high DO body; v := v + step END does, written out with the bound read in the current state and the counter cut to its width |
| ForExpansion.ExpansionAgrees | lib/codegen/llvm/LLVMIRBuilder.cpp:1580-1629 | statements end in an outcome if and only if they do with every FOR in them, at any depth, replaced so |
| ForExpansion.LowerWithoutFor | lib/codegen/llvm/LLVMIRBuilder.cpp:1580-1629 | the blocks that are made for a program do what the program without FOR does |
| LoopExits.LowerableIff | lib/sema/Sema.cpp:812-817 | a program without an EXIT that leaves an ELSIF body of a WHILE can be lowered if and only if every EXIT is in a loop |
| LoopExits.ContainedProgramsRunAsWritten | lib/codegen/llvm/LLVMIRBuilder.cpp:1519-1559 | without an EXIT that leaves an ELSIF body of a WHILE, the lowered program does what the language says |
| LoopExits.LowerContained | lib/codegen/llvm/LLVMIRBuilder.cpp:1356-1645 | lowering such a program gives blocks that end in a state if and only if the language says so |
| LoopExits.WhileLeaksIff | lib/codegen/llvm/LLVMIRBuilder.cpp:1536-1558 | a run of a WHILE differs from the language if and only if it ends in an EXIT that leaves the enclosing loop, which takes an ELSIF part with such an EXIT; the state is the same in either case |
| LoopExits.WhileCanLeakIff | lib/codegen/llvm/LLVMIRBuilder.cpp:1536-1558 | a WHILE differs from the language in some run if and only if in some state a single round goes through an ELSIF part and ends in an EXIT |
| LoopExits.LeakyProgramDiffers | lib/codegen/llvm/LLVMIRBuilder.cpp:1536-1558 | a concrete program in a LOOP that ends in another state than the language says |
| ForLoops.ForRunsItsRounds | lib/codegen/llvm/LLVMIRBuilder.cpp:1580-1629 | with a constant bound, any step that fits, and a body that always ends normally (after however many rounds of its own) and leaves the counter alone, FOR ends after max(0, floor((high - low) / step) + 1) rounds, with that many effects of the body, if and only if low + rounds * step fits the counter |
| ForLoops.ForToMaxNeverEnds | lib/codegen/llvm/LLVMIRBuilder.cpp:1604-1625 | where no number of the counter's width lies past the bound, in the direction of the step, the loop never ends |
| ForLoops.ForByOneEndsIff | lib/codegen/llvm/LLVMIRBuilder.cpp:1604-1625 | counting up or down by one ends if and only if some number of the counter's width lies past the bound |
| SymbolExporter.Exporter.Write | lib/data/symtab/SymbolExporter.cpp:9-50 | the declarations of a module become the text, table and counter that the format says |
| SymbolExporter.Exporter.WriteType | lib/data/symtab/SymbolExporter.cpp:105-165 | a type is written as a basic kind, a number, or a definition, and the tables move on accordingly |
| SymbolExporter.Exporter.WriteBase | lib/data/symtab/SymbolExporter.cpp:176-187 | the base of a pointer: a forward reference for a named record of this module that is not written yet |
| SymbolExporter.Exporter.WriteFields | lib/data/symtab/SymbolExporter.cpp:206-234 | fields with numbers, shared types and offsets; a field that is hidden has the name _ |
| SymbolFormat.TypeLayout | lib/data/symtab/SymbolExporter.cpp:105-165 | what stands in the file for types without a name, with the kinds as numbers |
| SymbolFormat.DefinitionLayout | lib/data/symtab/SymbolExporter.cpp:118-165 | what stands in the file for a named type: number, origin, kind and body |
| SymbolFormat.PartLayout | lib/data/symtab/SymbolExporter.cpp:206-250 | what stands in the file for a parameter and for a field, its name included |
| SymbolFormat.DeclLayout | lib/data/symtab/SymbolExporter.cpp:52-103 | what stands in the file for a declaration |
| SymbolImporter.Importer.Read | lib/data/symtab/SymbolImporter.cpp:51-76 | reads back any text the exporter has written cleanly: the memory mirrors the declarations but for pointers that have no base; there is none if and only if every record that was waited for was written and no pointer gave way to another; it reports an error if and only if such a record was not written or a number was lost; the types that are declared, and nothing else, are in the module's scope |
| SymbolImporter.Importer.ReadDeclaration | lib/data/symtab/SymbolImporter.cpp:79-155 | a type, variable or procedure is declared with an image of its type |
| SymbolImporter.Importer.ReadType | lib/data/symtab/SymbolImporter.cpp:157-225 | where a type's text stands at the cursor the result is an image of the type, or the pointer being read now waits for it; the reader's tables stay an image of the writer's |
| SymbolImporter.Importer.ReadReference | lib/data/symtab/SymbolImporter.cpp:162-179 | a reference finds what was read under its number, or is remembered for the pointer, in place of any other pointer that waits |
| SymbolImporter.Importer.ReadDefinition | lib/data/symtab/SymbolImporter.cpp:180-225 | a definition gives an image of its type, under the number in front of it |
| SymbolImporter.Importer.Register | lib/data/symtab/SymbolImporter.cpp:202-224 | a finished type is declared in its module, gets its number, and becomes the base of the pointer that waited for it |
| SymbolImporter.Importer.ReadArrayType | lib/data/symtab/SymbolImporter.cpp:227-248 | lengths and types over all dimensions, with the element's in front cut in |
| SymbolImporter.Importer.ReadPointerType | lib/data/symtab/SymbolImporter.cpp:250-259 | a pointer is known by its number before its base is read, and has its base or waits for it after |
| SymbolImporter.Importer.ReadProcedureType | lib/data/symtab/SymbolImporter.cpp:261-284 | return type and parameters |
| SymbolImporter.Importer.ReadRecordType | lib/data/symtab/SymbolImporter.cpp:286-322 | ancestor, size and fields |
| SymbolImporter.Importer.ReadParameters | lib/data/symtab/SymbolImporter.cpp:265-282 | parameters that share a type get it, and count up |
| SymbolImporter.Importer.ReadFields | lib/data/symtab/SymbolImporter.cpp:297-318 | fields that share a type get it, and count up |
| SymbolImporter.Finished | lib/data/symtab/SymbolImporter.cpp:65-69 | in the end, forward references are left if and only if some record is still waited for or some number is lost; pointers without a base if and only if some record is still waited for or a pointer gave way to another |
| SymbolImage.SettleKeeps | lib/data/symtab/SymbolImporter.cpp:202-223 | finishing a type keeps the tables of both sides in step and fills the base of the waiting pointer |
| SymbolImage.WaitKeeps | lib/data/symtab/SymbolImporter.cpp:172-176 | a forward reference keeps the tables of both sides in step, also where it takes the place of another and leaves that pointer without a base |
| SymbolImage.ContentLater | lib/data/symtab/SymbolImporter.cpp:157-322 | what has been read stays an image of what was written while more is read |
| SymbolRoundTrip.WriteAndRead | lib/data/symtab/SymbolImporter.cpp:51-76 | export, then import: distinct named types keep distinct nodes, every node holds what its type says, every declaration has its name and type back, and no base is missing if and only if every record that was waited for was written and no pointer gave way to another; an error is reported if and only if such a record was not written or a number was lost |
| SymbolRoundTrip.WriteAndReadPlanned | lib/data/symtab/SymbolImporter.cpp:51-76 | the same from a condition on the types alone: a module with a plan whose records are all declared is imported without an error and whole |
| PlannedModules.PlannedIsClean | lib/data/symtab/SymbolExporter.cpp:105-235 | a module of at most 107 named types that are used after they are declared, except as bases of pointers, and whose records are each the base of a pointer in at most one place before they are written, and in any number of places after, is written so that the reader can follow and no pointer gives way to another; if all records are declared no pointer is left waiting |
| PlannedModules.TypeWritten | lib/data/symtab/SymbolExporter.cpp:105-165 | the invariant of the writer in such a module: one number for a type, only records of pointers written so far wait, and no type is mentioned while it is unfinished |
| PlannedModules.ListIsPlanned | lib/data/symtab/SymbolExporter.cpp:176-187 | a list, a pointer type P to a record R with a field of type P, is such a module |
| ForwardNumbers.AllDefinedIff | lib/data/symtab/SymbolExporter.cpp:105-235 | for every module, followed by the reader or not: all numbers given out are defined if and only if no record gets a second number while it waits under a first, and every record that got one is written |
| ForwardNumbers.LostIsNeverDefined | lib/data/symtab/SymbolExporter.cpp:124-136 | a number that gave way to another is not defined by anything written later |
| ForwardNumbers.ReserveLoses | lib/data/symtab/SymbolExporter.cpp:176-187 | a second forward reference to a record that waits loses exactly its first number |
| SymbolRoundTrip.SameViews | lib/data/symtab/SymbolImporter.cpp:157-322 | followed to any depth, through all cycles, an imported type looks like the exported one, where no base is missing |
| SymbolRoundTrip.MirrorsLookAlike | lib/data/symtab/SymbolImporter.cpp:79-155 | so does every declaration of an imported module in which no base is missing |
| SymbolRoundTrip.FieldsComeBack | lib/data/symtab/SymbolImporter.cpp:297-318 | every named record has all its fields back, each under its own name if it is exported or the record another module's, and under _ otherwise |
| SymbolRoundTrip.MirrorsShareAlike | lib/data/symtab/SymbolImporter.cpp:218-224 | two declarations of named types share a type after the import if and only if they did before |
| LostForwards.FirstForwardIsLost | lib/data/symtab/SymbolExporter.cpp:176-187 | two pointer types P and Q to a record R declared after both, all legal types: the text of the module, in which the number given to the base of P is lost and never defined |
| LostForwards.ImportFirstForward | lib/data/symtab/SymbolImporter.cpp:65-69 | the importer reports that file as an error, and leaves a pointer without a base |
| LostForwards.SecondTakesPlace | lib/data/symtab/SymbolExporter.cpp:176-187 | a record R with two fields that are pointers to R: all numbers of the file are defined, but the second pointer takes the place of the first |
| LostForwards.ImportTree | lib/data/symtab/SymbolImporter.cpp:172-176 | importing that record leaves a pointer without a base, and no error is reported |
| LostForwards.RecordFirstIsPlanned | lib/data/symtab/SymbolExporter.cpp:176-187 | the same types with R declared before P and Q are a module with a plan, and are written cleanly |
| ArrayTypes.Context.OnArrayType | lib/sema/Sema.cpp:170-228 | one array type for each length; every type knows the types below it; all types below the new one have it as base; the last dimensions of a base are those of its types |
| ArrayTypes.Context.SetBase | lib/data/ast/ArrayTypeNode.cpp:29-36 | the base is set in the type and in exactly the types below it |
| ArrayTypes.SelectedType | lib/codegen/llvm/LLVMIRBuilder.cpp:449-449 | n indices select the type with the remaining lengths |
| ArrayIndexing.LowerIndices | lib/codegen/llvm/LLVMIRBuilder.cpp:411-452 | the emitted offset is the row-major offset over the last lengths that the array actually has, which are those of the type or, for an open one, the last entries of the dope vector; in-range indices stay within their product, and the offset tells the indices |
| ArrayIndexing.OpenArrayLength | lib/codegen/llvm/LLVMIRBuilder.cpp:313-323 | the length of a dimension of an open type is the entry of the dope vector that is as far from its end as the dimension from that of the type |
| ArrayIndexing.ActualLengths | lib/codegen/llvm/LLVMIRBuilder.cpp:305-335 | where an array is accessed as a type whose base it fits, the lengths used are the last of those the array has, for open and fixed types |
| ArrayIndexing.SelectedRunLengths | lib/codegen/llvm/LLVMIRBuilder.cpp:313-323 | after some indices the remaining lengths are those of the selected type, from the same dope vector if it is open |
| ArrayIndexing.OffsetInBounds | lib/codegen/llvm/LLVMIRBuilder.cpp:411-452 | in-range indices, also fewer than the dimensions, select elements within the array |
| ArrayIndexing.OffsetOfIndices | lib/codegen/llvm/LLVMIRBuilder.cpp:411-452 | every element has in-range indices |
| ArrayIndexing.IndicesOfOffset | lib/codegen/llvm/LLVMIRBuilder.cpp:411-452 | and only one full list of them: indexing is a bijection onto 0 .. product - 1 |
| ArrayIndexing.NoCollisions | lib/codegen/llvm/LLVMIRBuilder.cpp:411-452 | distinct index lists select distinct elements |
| ArrayIndexing.OffsetComposes | lib/codegen/llvm/LLVMIRBuilder.cpp:411-452 | indexing a selected array equals indexing once with all indices |
| ArrayIndexing.NoOverflow | lib/codegen/llvm/LLVMIRBuilder.cpp:436-443 | every product on the way stays below the number of elements |
| RecordTypes.FieldIsNearest | lib/data/ast/RecordTypeNode.cpp:28-38 | getField finds a visible field and nothing nearer hides it, or there is none |
| RecordTypes.ExtendsTransitive | lib/data/ast/RecordTypeNode.cpp:56-61 | extension is transitive |
| RecordTypes.ExtendsIsAncestor | lib/data/ast/RecordTypeNode.cpp:56-61 | a type extends another if and only if the other is its ancestor at that level |
| RecordTypes.MakeDescriptor | lib/codegen/llvm/LLVMIRBuilder.cpp:1291-1308 | the descriptor holds the ids of all ancestors by level |
| RecordTypes.TestDescriptor | lib/codegen/llvm/LLVMIRBuilder.cpp:764-791 | the test by level and id holds if and only if the dynamic type extends the tested one |
| RecordTypes.TestValue | lib/codegen/llvm/LLVMIRBuilder.cpp:793-819 | the same for values: NIL is of no type, and the static shortcut is right for every dynamic type |
| RecordTypes.FieldPath | lib/codegen/llvm/LLVMIRBuilder.cpp:476-487 | the emitted indices lead to the slot of the field in the nested structure |
| RecordTypes.SlotsAreLeaves | lib/codegen/llvm/LLVMIRBuilder.cpp:1273-1283 | the slots of a record are the leaves of its structure, left to right |
| RecordTypes.BaseSlotsComeFirst | lib/codegen/llvm/LLVMIRBuilder.cpp:1273-1283 | the slots of a base are a prefix of those of every extension |
| RecordTypes.FieldSlot | lib/codegen/llvm/LLVMIRBuilder.cpp:476-487 | a field has the same slot in every extension of its record |
| RecordTypes.SlotsAreDistinct | lib/codegen/llvm/LLVMIRBuilder.cpp:1273-1283 | no two fields share a slot |
| IntegerDivision.DivModLaw | lib/sema/Sema.cpp:1655-1667 | for a positive divisor, x = (x DIV y) * y + x MOD y with 0 <= x MOD y < y |
| IntegerDivision.DivRoundsDown | lib/sema/Sema.cpp:1662-1667 | DIV rounds down for divisors of either sign |
| IntegerDivision.LawForNegativeDivisors | lib/sema/Sema.cpp:1655-1660 | for a negative divisor MOD is in range if and only if the dividend is not negative or there is no remainder |
| IntegerDivision.LoweringDivides | lib/codegen/llvm/LLVMIRBuilder.cpp:933-948 | on words of every width and for both signs the instructions give floor_div, and no step loses bits unless the quotient itself does not fit |
| IntegerDivision.LoweringRemains | lib/codegen/llvm/LLVMIRBuilder.cpp:950-961 | the instructions of MOD give euclidean_mod, without overflow for a positive divisor |
| IntegerDivision.SignsDiffer | lib/codegen/llvm/LLVMIRBuilder.cpp:943-944 | exclusive or and shift of the sign bit tell whether the signs differ, by the bits of words of every width |
| FoldingChecks.CheckedRunPreserved | lib/sema/Sema.cpp:1231-2096 | under the overflow checks that are on by default: for every tree that is folded nowhere wrong and in which folding leaves no operator but DIV and MOD with a smaller type, what is built gives the value and the calls of the unfolded tree whenever that evaluates |
| FoldingChecks.NarrowedIff | lib/sema/Sema.cpp:1821-1973 | a constant that is folded and a variable on either side of +, - or *: the checked value is preserved for all values of the variable if and only if the type it is checked against is no smaller than without folding, or holds the values at both ends of the variable's type |
| FoldingChecks.WideZeroNegates | lib/sema/Sema.cpp:1966-1968 | (100000 MOD 5) - x for a SHORTINT x is folded to a negation typed INTEGER that is made in 16 bits, and overflows for the least x, which the difference does not |
| FoldingChecks.NarrowedLiteralOverflows | lib/sema/Sema.cpp:2613-2622 | a tree with a narrowed operator that overflows only because a folded literal has a smaller type |
| FoldingMeaning.FoldingPreserves | lib/sema/Sema.cpp:1770-2096 | for every tree that evaluates in 64 bits and is folded nowhere wrong, what is built gives the same value and the same calls in 64 bits; with narrower checks the same or an overflow |
| FoldingRefusals.BuildsIff | lib/sema/Sema.cpp:1231-2096 | a tree is built if and only if it has types without folding and has no literal divisor below 1, no element that is not a literal from 0 to 31 in a literal set, and no TRUE & x or FALSE OR x, either way round, with an x that is not folded |
| FoldingRefusals.ConstantIsValue | lib/sema/Sema.cpp:1770-2096 | a constant in which nothing traps, folded nowhere wrong, is built as one literal of its value |
| FoldingRefusals.SkippedPartIsRefused | lib/sema/Sema.cpp:1249-1470 | FALSE & (1 DIV 0 = 1) evaluates to FALSE and is refused |
| FoldingTypes.AppliesIff | lib/sema/Sema.cpp:1249-1470 | for operands of any types, an operator has a result if and only if it has a type for them, save for divisors below 1 and elements outside 0..31 |
| FoldingTypes.TypedIff | lib/sema/Sema.cpp:1249-1470 | an operator has a type for two types if and only if it has a result for some operands of these types; & and OR if and only if both are BOOLEAN |
| FoldingTypes.WiderType | lib/sema/Sema.cpp:2487-2510 | arithmetic has the wider type of its operands |
| FoldingTypes.Widths | lib/sema/Sema.cpp:2613-2622 | the integer types have 16, 32 and 64 bits, and a set 32 elements |
| FoldingTypes.FoldedNumber | lib/sema/Sema.cpp:1821-1973 | a folded sum, difference or product has the right value, cut to 64 bits, and the least type that holds it |
| FoldingTypes.FoldedNegation | lib/sema/Sema.cpp:1788-1791 | so has a folded negation |
| FoldingTypes.FoldedQuotient | lib/sema/Sema.cpp:1899-1928 | a folded quotient or remainder has the right value and the wider type of its operands |
| FoldingMeaning.BinaryFoldRight | lib/sema/Sema.cpp:1975-2096 | each binary fold gives what the unfolded node gives |
| FoldingMeaning.BuildFits | lib/sema/Sema.cpp:2613-2622 | in what is built every literal fits its type, and a negation is typed no narrower than its operand |
| FoldingMeaning.NegationWidthIff | lib/sema/Sema.cpp:1955-1973 | 0 - r folded to a negation has the width that its type says if and only if the 0 is no wider than r |
| FoldingMeaning.BuildIsSizedIff | lib/codegen/llvm/LLVMIRBuilder.cpp:1040-1085 | what is built for a tree that is folded nowhere wrong has operands of the widths that the instructions take if and only if every element that is looked up in a set that is no literal is an INTEGER or a literal |
| FoldingMeaning.ElementWidths | lib/codegen/llvm/LLVMIRBuilder.cpp:1076-1085 | x IN s for a variable x has the right width if and only if x is an INTEGER, not a SHORTINT or a LONGINT; n IN s for a literal n always has |
| FoldingChecks.QuotientStaysDone | lib/sema/Sema.cpp:1899-1928 | a narrowed DIV or MOD never overflows: quotient and remainder stay in the type of their operands |
| FoldingMeaning.RelationRightIff | lib/sema/Sema.cpp:1869-1897 | a folded relation is the relation if and only if it is not < or <= of equal numbers |
| FoldingMeaning.ModByOneRightIff | lib/sema/Sema.cpp:1915-1920 | x MOD 1 folded to x is right if and only if x is 0 |
| FoldingMeaning.TimesZeroRightIff | lib/sema/Sema.cpp:1832-1847 | a product with 0 on either side folded to 0 is right if and only if the other factor contains no call and does not trap |
| CaseLabels.OnCaseLabel | lib/sema/Sema.cpp:679-739 | the values are those the labels list; an error if and only if a range does not rise or a value is listed twice |
| CaseLabels.OnCaseOfEnd | lib/sema/Sema.cpp:625-644 | an error if and only if two cases share a value |
| CaseLabels.NumericTable | lib/codegen/llvm/LLVMIRBuilder.cpp:821-836 | the switch table: labels cut to the width of the case expression, each with its case |
| CaseLabels.TranslateLabels | lib/sema/Sema.cpp:625-739 | label checks and switch together: accepted if and only if all ranges rise and no value is listed twice anywhere; then, if the labels fit the case expression, the switch sends every value to the one case that lists it and to no other |
| CaseLabels.SwitchChooses | lib/codegen/llvm/LLVMIRBuilder.cpp:821-836 | the switch chooses as the structured CASE statement does |
| CaseLabels.SwitchRightIff | lib/codegen/llvm/LLVMIRBuilder.cpp:821-836 | the switch sends every value to the case that lists it, and else to ELSE, if and only if every label cut to the width is a label of its own case |
| CaseLabels.UniqueCase | lib/sema/Sema.cpp:631-644 | checked cases with labels that fit leave the switch one choice |
| CaseLabels.WideLabelIsTaken | lib/codegen/llvm/LLVMIRBuilder.cpp:831-833 | the label 65537 of a 16-bit case expression passes the checks, and every table the code generator makes sends 1 to it and is wrong |
| CaseLabels.TypeTestCase | lib/codegen/llvm/LLVMIRBuilder.cpp:838-860 | the first label that the dynamic type extends is chosen, or ELSE; NIL goes to ELSE |
| CaseLabels.CheckTypeLabels | lib/sema/Sema.cpp:645-665 | an error if and only if a type occurs twice; a warning for exactly the labels that extend an earlier one |
| CaseLabels.WarnedIffUnreachable | lib/sema/Sema.cpp:653-661 | a label is warned of if and only if no value, NIL included, ever chooses it |
| Files.Rider.WriteNum | stdlib/Files.Mod:439-447 | writes the compressed encoding of the number |
| Files.Rider.ReadNum | stdlib/Files.Mod:312-325 | reads any number of up to ten bytes: the value it encodes, wrapped to 64 bits; which inputs overflow checks stop; how far the rider moves, also at the end of the file |
| Files.DecodingOfEncoding | stdlib/Files.Mod:313-325 | decoding undoes encoding for every integer |
| Files.EncodingIsShortest | stdlib/Files.Mod:439-447 | no shorter text decodes to the same number |
| Files.EncodingLength | stdlib/Files.Mod:440-447 | k bytes hold exactly the numbers of 7k bits |
| Files.TenBytesAreEnough | stdlib/Files.Mod:440-447 | a 64-bit number takes at most ten bytes |
| Files.EncodingOverflowsIff | stdlib/Files.Mod:323-324 | with overflow checks, reading a 64-bit number back stops if and only if it is below -2^62 |
| Files.WriteAndReadNums | stdlib/Files.Mod:439-447 | any list of 64-bit numbers is read back as written |
| Files.Rider.Write | stdlib/Files.Mod:396-413 | writing at the rider's position |
| Files.Rider.Read | stdlib/Files.Mod:259-277 | reading at the rider's position, 0 at the end |
| Files.EncodeInt | stdlib/Files.Mod:449-456 | the bytes of a number, low byte first |
| Files.DecodeInt | stdlib/Files.Mod:327-334 | the number of up to eight bytes, wrapped to 64 bits |
| Files.NumberOfBytes | stdlib/Files.Mod:449-456 | k bytes hold the number modulo 2^(8k) |
| Files.WriteAndReadInt | stdlib/Files.Mod:336-362 | a number of k bytes comes back, for each k up to 8 |
| Strings.Length | stdlib/Strings.Mod:31-37 | the place of the first NUL, or the length of the array |
| Strings.Insert | stdlib/Strings.Mod:54-84 | the whole array afterwards: the text with the source inserted, cut to what fits, a NUL, and the old rest |
| Strings.Append | stdlib/Strings.Mod:99-102 | the text with the other behind it, cut to what fits |
| Strings.Delete | stdlib/Strings.Mod:118-138 | the whole array afterwards: the text without the deleted part, a NUL, and the old rest; unchanged for a position outside |
| Strings.Replace | stdlib/Strings.Mod:156-173 | on a terminated string the whole array afterwards; an unterminated string is terminated if and only if it grows |
| Strings.Extract | stdlib/Strings.Mod:189-202 | the part of the text, cut to what fits; the last character of an unterminated source is lost |
| Strings.Pos | stdlib/Strings.Mod:220-244 | the first place at or behind the position where the other text occurs, -1 if there is none or it is empty |
| Strings.ReplaceIsDeleteAndInsert | stdlib/Strings.Mod:140-155 | replacing is deleting as much and inserting, truncation included |
| Strings.ReplaceInSteps | stdlib/Strings.Mod:140-155 | the same for the procedures on arrays |
| Strings.DeleteUndoesInsert | stdlib/Strings.Mod:118-138 | deleting undoes inserting if and only if nothing was cut off or the insertion was at the end |
| Texts.Writer.WriteInt | stdlib/Texts.Mod:41-58 | for every 64-bit number and width: the decimal numeral behind blanks, as many characters as the width or the numeral has, whichever is more, with no access outside the array of 20 characters |
| Texts.PaddedParses | stdlib/Texts.Mod:41-58 | parsing the output gives the number back |
| Texts.LeastNumeral | stdlib/Texts.Mod:46-48 | the text for the least number is its numeral |
| Texts.LongDigits | stdlib/Texts.Mod:43-53 | 19 digits are enough for the others |
| Texts.Writer.WriteHex | stdlib/Texts.Mod:60-71 | the last n hexadecimal digits in two's complement |
| Texts.HexRoundTrip | stdlib/Texts.Mod:60-71 | all digits of a word, read as a signed word, are the number |

## Left out

- LLVM itself, traps, expression blocks and SSA values: a condition or an assignment is a function on states, and the start value of a FOR counter is read back from the counter.
- Productions with empty bodies: `Validator.cpp:31` asks for their first symbol, which throws; the loader builds them for an empty alternative.
- Malformed EBNF text: the loader reports it and goes on, and can loop without end at a token that starts no symbol.
- A user nonterminal with the name of a generated one (`Loader.cpp:155-157`): the grammars are assumed to have none.
- EXIT in an ELSIF body of a WHILE that no loop surrounds: the semantic analysis accepts it and the visitor reads the top of an empty stack.
- The procedure epilogue and the flags that say whether all paths return.
- Symbol files: the header, byte widths of the values, constants and their values, and importing into tables that already hold types; parameter names and the flag for variable argument lists are not written by the exporter.
- SymbolRoundTrip.WriteAndRead: requires the writer's run to stay clean. A number above 127 is written as a negative byte, which the importer takes for a reference; a reference to an unfinished type from elsewhere than a pointer gives it no type, and a field or an array of no type ends it.
- LostForwards.ImportTree: does not say which of the two pointers has no base.
- PlannedModules.PlannedIsClean: the condition is sufficient; a record may also be finished early enough by being mentioned in another type, which it does not take into account.
- SymbolImporter.Importer.Read: speaks of texts the exporter has written; what the importer makes of damaged files is not modelled.
- Imported array types: `readArrayType` leaves their base unset, so that the dope vectors of imported arrays are not covered.
- Levels of record types are not cut to 16 bits.
- The bits of the type descriptor pointer that precede a record behind a pointer.
- FoldingMeaning.FoldingPreserves: allows an overflow under checks narrower than 64 bits that the unfolded tree does not have, because folding narrows literals; `FoldingChecks.CheckedRunPreserved` has the condition that rules it out. The condition is sufficient: whether a narrowed operator of any tree overflows depends on the values it meets.
- Unary plus: the parser skips it (Parser.cpp:994-996, 1037-1038), so that its case in the folder (Sema.cpp:1786-1787) is never reached.
- Folding of reals, characters and strings, and set constructors with ranges.
- Files.Rider.ReadNum: says nothing of the value of numbers of more than ten bytes, whose shifts have no defined result.
- Files: the C functions behind reading and writing; a rider's file is a sequence of bytes. `DecodeInt` shifts in 64 bits.
- Strings: source and destination are different arrays, and arrays are shorter than INTEGER can count.
- Strings.Delete: requires a number of characters that is not negative; with a negative one the procedure reads in front of the array.
- Strings.Pos: requires terminated arguments; with others it reads behind the array.
- GrammarLoader.Loader.Load: requires text that is printed from rules, without a user name that looks generated.
- Texts.Writer.WriteInt: a width is any integer; decrementing the least LONGINT is not modelled. Output goes to a string instead of `putchar`.
- Overload resolution of predefined procedures, the lambda lifter, the pretty-printer, real-number output, and everything that only forwards to the operating system.
