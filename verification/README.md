# The parser generator, its parser, and decimal rounding

This project models two parts of the repository in Dafny and proves what they
are for.

The first is the parser generator in `extern/btyacc` with the backtracking
parser it writes. The chain is complete: from the rules section as it is
written (modules Words, Markers, Reader, GrammarReader, SymbolPacking,
GrammarPacking), over the bit-row closures
(Bits, Warshall, ClosureTables, ClosurePass), the LR(0) collection (KernelSets,
Lr0), the lookahead relations of DeRemer and Pennello (GotoMap, InitialF,
Includes, Transpose, LookaheadTable, BuildRelations, Relations, Digraph, Lalr),
the action rows and their conflicts (Actions, Conflicts), the conflict lists
and the packed tables (ConflictTable, TokenActions, ConflictRows, Vectors,
GotoTables, PackTable, Packing, OutputTables, Generator), to the parser that
reads them (ParserTables, ParserRuntime). Code that works in place is a method
over arrays, or a class; each is proved against a function or a predicate on
values, and what it is for is proved about those. At the end stand five
theorems: the rows LA are the LALR(1) lookaheads (Lalr.Generate); a trial is
replayed exactly as it went (TrialParse); the search through the conflicts is
exhaustive, so that what is rejected no choices could have accepted
(TrialChoices); the parser of an LALR(1) grammar accepts exactly the sentences of
the grammar as it is written (WrittenGrammar.AcceptsExactlyWritten); and so does
that of a grammar with conflicts and without precedences, ambiguous ones included,
whenever it comes to an end (WrittenGrammar.TrialsFindWritten).

The second is the finalizing of decimal numbers in
`extern/decNumber/decCommon.c` and the conversions from and to strings. A
format is any precision, least and largest exponent. Rounding is proved correct
as IEEE 754-2008, sections 4.3, 7.4 and 7.5, has it, for all eight modes
(Decimal, Finalize, CorrectRounding), and in the mode made for rounding again as
fit for that (TwiceRounded); the conversion from strings is proved to
deliver the number written, however long, but for two families of strings
(Numerals, FromString, StickyDigit, ExponentCap); and what is printed has the
form that plain or engineering notation asks for (PrintedForm) and is read back
the same (NumberText, ToString, RoundTrip).

Modules that model code name its functions at the top.

## Findings

- The exponent of a numeric string with more significant digits than any
  exponent of the format is replaced by twice the largest exponent *before* the
  digits after the dot are subtracted (`extern/decNumber/decCommon.c`:854-861).
  A coefficient with many digits can bring such a number back into range, and
  then it is delivered wrong and without a status: 0., followed by 999 zeros
  and 1E1000, is worth 1, and decimal64 delivers 1E-232
  (ExponentCap.LongOneMissed). ExponentCap.ExactValueIff says exactly when the
  exact value is delivered.
- A zero with more digits than the conversion buffer holds, that ends in the dot
  and has an exponent above Emax + 1, is taken for a number that overflows
  (`extern/decNumber/decCommon.c`:905-945 and 417-421): no digit of it is left,
  and finalizing looks for a zero of one digit. In decimal64 38 zeros followed by
  .E+386 raise Overflow and Inexact and come out as infinity
  (ExponentCap.LongZeroStranded). Every number is delivered correctly rounded
  exactly if it is no such zero (FromString.StrandedIff).
- Two tokens declared with one value hide each other's entries in the packed
  table: the vector of a state then has two entries for one key, and the later
  one is found (`extern/btyacc/reader.c`:1753-1774 and
  `extern/btyacc/output.c`:423-486; OutputTables.DuplicateHidden). Every entry is
  found exactly if no two for one key disagree (Packing.AllEntriesFound), which
  holds when the values are distinct, and they are exactly if the declared ones
  are (SymbolPacking.ValuesDiffer). The generator does not check that; a token
  declared with 0 has the value of the end of the input.
- On a token with a shift and several reductions, one reduction without
  precedence and a last one that wins over the shift, the winner is not
  suppressed and yet never taken: a list of trials with the other reduction
  stands before it (`extern/btyacc/mkpar.c`:211-230 and
  `extern/btyacc/skeleton.c`:270-292; Conflicts.ShadowExample).
  Conflicts.ShadowedIff says exactly when.
- An undefined start symbol is reported only after the test for errors
  (`extern/btyacc/reader.c`:1685-1690 and 1886), so that the generator goes on
  with a goal that is classed as a token. WrittenGrammar.ReadSection promises a
  grammar exactly if the goal has a rule.

## Model

| member | source | states |
|---|---|---|
| Warshall.TransitiveClosure | extern/btyacc/warshall.c:3-52 | Run in place on rows of 32-bit words, for every n: afterwards row x holds y exactly if y can be reached from x in one step or more. |
| Warshall.AfterPivotsIsVia | extern/btyacc/warshall.c:21-51 | After the first k pivots row x holds y exactly if there is a walk from x to y whose inner vertices are all below k: the invariant of the outer loop. |
| Warshall.ReflexiveTransitiveClosure | extern/btyacc/warshall.c:54-80 | With the diagonal added, row x holds y exactly if y can be reached in zero steps or more. |
| Bits.OrRow | extern/btyacc/warshall.c:30-33 | Taking in one packed row word by word is the union of the two sets of numbers, also when both are the same row. |
| Digraph.Digraph | extern/btyacc/lalr.c:548-569 | For any relation, cycles included, every row ends as the union of the original rows of all vertices reachable from it. |
| Digraph.DigraphCorrect | extern/btyacc/lalr.c:548-625 | The same of the traversal as a function of stack, marks and rows: a vertex never visited has no successors and keeps its row. |
| Digraph.VisitOk | extern/btyacc/lalr.c:572-625 | After traverse(i) either i is finished with its final row and the stack is as before, or i and all above it wait for a vertex below, with all their edges accounted for in i. |
| Digraph.PopVertex | extern/btyacc/lalr.c:610-624 | Popping the component of a root finishes every popped vertex with the union over all it reaches, and leaves all others alone. |
| Digraph.ComponentRowsEqual | extern/btyacc/lalr.c:572-625 | Vertices that reach each other end with equal rows. |
| Digraph.Traversal.Traverse | extern/btyacc/lalr.c:572-625 | The recursion over INDEX, VERTICES and F does what the function Visit does, and ends because a vertex is marked for each call. |
| Grammar.SetDerives | extern/btyacc/lr0.c:472-499 | derives lists for every nonterminal the numbers of its rules, in order. |
| Nullability.SetNullable | extern/btyacc/lr0.c:531-577 | The passes end, and although marks are set in the middle of a pass a symbol is marked exactly if it is in the least set of nullable symbols. |
| Nullability.NullableIffTree | extern/btyacc/lr0.c:531-577 | A symbol is in that least set exactly if some finite tree of rules without tokens derives the empty string from it. |
| ClosureTables.SetEFF | extern/btyacc/closure.c:11-44 | Row b of EFF holds exactly the nonterminals that can begin what nonterminal b derives, b included. |
| ClosureTables.SetFirstDerives | extern/btyacc/closure.c:47-101 | Row b of first_derives holds exactly the rules of the nonterminals in row b of EFF. |
| ClosureTables.ClosureByTables | extern/btyacc/closure.c:104-173 | The least item set around a kernel that is closed under opening the nonterminal after a dot is the kernel and the start items that first_derives names. |
| ClosurePass.ClosureSeqIsClosure | extern/btyacc/closure.c:125-168 | The merge of a strictly increasing kernel with the start items is strictly increasing, holds exactly that least closed set, and is never longer than the item array. |
| ClosurePass.Close | extern/btyacc/closure.c:104-173 | closure writes just that merge into itemset and never beyond its end. |
| KernelSets.AllocateItemsets | extern/btyacc/lr0.c:30-69 | Every symbol gets a region of the kernel array as large as its occurrences in the grammar, region after region. |
| KernelSets.NewItemsets | extern/btyacc/lr0.c:240-273 | The region of every symbol holds the kernel of the successor on it, no region overflows, and the symbols with a successor are listed in order of appearance. |
| Lr0.SortSymbols | extern/btyacc/lr0.c:90-100 | The insertion sort at the start of append_states sorts the symbols in place. |
| Lr0.InitializeStates | extern/btyacc/lr0.c:213-237 | The kernel of state 0 is the one item at the start of the rule for $accept. |
| Lr0.StateTable.GetState | extern/btyacc/lr0.c:150-210 | The search of one chain, keyed by the first kernel item, finds a state exactly if some registered state has the kernel; otherwise the state is added and registered. |
| Lr0.SuccessorNew | extern/btyacc/lr0.c:150-210 | A kernel that no registered state has is new among all states: the unregistered kernel of state 0 is no successor of anything. |
| Lr0.AppendStates | extern/btyacc/lr0.c:81-107 | The transitions of a state are listed in order of their symbols, each to the state whose kernel is the successor; the states already there stay as they are. |
| Lr0.SaveReductions | extern/btyacc/lr0.c:423-469 | A state lists the rules of its completed items, in order. |
| Lr0.GenerateStates | extern/btyacc/lr0.c:123-147 | The worklist ends with the canonical collection: distinct kernels, every state but the first reached from an earlier one, and for every state and symbol after a dot exactly one transition, to the state with the kernel that advancing the dot gives. |
| GotoMap.SetGotoMap | extern/btyacc/lalr.c:163-228 | Every nonterminal transition gets one number, nonterminal by nonterminal and in each in order of the source states; the scans may stop at the first token. |
| GotoMap.MapGoto | extern/btyacc/lalr.c:232-254 | The binary search always ends on the number of the transition asked for, although its upper end starts one past the column. |
| InitialF.InitializeF | extern/btyacc/lalr.c:258-331 | The rows start with the tokens read directly after each goto, $end after goto 0 only; the reads relation leads over nullable nonterminals; digraph leaves its union. |
| Relations.GotoZero | extern/btyacc/lalr.c:320-321 | Goto number 0 is the transition from state 0 on the goal symbol. |
| Relations.ReadSetsCorrect | extern/btyacc/lalr.c:258-331 | The first run of digraph gives every goto exactly the tokens that can begin what follows a kernel item of its target. |
| Includes.WalkRule | extern/btyacc/lalr.c:367-384 | The walk over a right-hand side from the source of a goto always finds its transition and records all states on the way. |
| Includes.WalkBack | extern/btyacc/lalr.c:388-400 | The walk back over the nullable end of the right-hand side collects exactly the gotos on a nonterminal before a nullable rest. |
| LookaheadTable.AddLookbackEdge | extern/btyacc/lalr.c:427-450 | The slot of a reduction is always found, and the goto is added to the list of that slot and to no other. |
| Transpose.Transpose | extern/btyacc/lalr.c:453-505 | List j of the result has the vertices with an edge to j, in order and as often as the edge occurs; every list is allocated with just its length. |
| Transpose.TransposedTwice | extern/btyacc/lalr.c:453-505 | Transposed twice, a relation has its edges back, with their multiplicity. |
| BuildRelations.Build | extern/btyacc/lalr.c:335-424 | The includes relation handed to digraph and the lookback lists hold, as sets, exactly the relations that DeRemer and Pennello define. |
| Relations.FollowSetsCorrect | extern/btyacc/lalr.c:508-511 | The second run of digraph gives every goto exactly the lookaheads of a start item of its nonterminal in its source state. |
| Relations.LookaheadsCorrect | extern/btyacc/lalr.c:508-545 | Collecting these rows over the lookback edges of a reduction gives exactly the tokens that propagation over the items of the merged states, as a least fixpoint, puts on the completed item. |
| LookaheadTable.ComputeLookaheads | extern/btyacc/lalr.c:514-545 | Row x of LA is the union of the follow rows of the gotos in lookback list x. |
| Lalr.Generate | extern/btyacc/lalr.c:35-51 | From any well-formed packed grammar: the canonical collection, and rows LA that are for every reduction of every state exactly its LALR(1) lookaheads. |
| Actions.GetShifts | extern/btyacc/mkpar.c:47-77 | The list begins with exactly the token shifts of the state, in order of their tokens. |
| Actions.AddReduce | extern/btyacc/mkpar.c:102-136 | The three search loops insert a reduction by token, behind the shift, and by rule: the list stays sorted and gains just that action. |
| Actions.ParseActions | extern/btyacc/mkpar.c:38-44 | A row holds exactly the token shifts of the state and the pairs of a rule and a lookahead token, sorted by token, then shift before reduction, then rule. |
| Conflicts.AtMostOne | extern/btyacc/mkpar.c:187-240 | At every point of the scan, of the actions on one token at most one is not suppressed, and it is the preferred one. |
| Conflicts.ShiftReduce | extern/btyacc/mkpar.c:211-230 | A shift against a reduction: the higher precedence wins, at equal precedence associativity decides, nonassociative tokens lose both, and if either has no precedence both are kept for trial. |
| Conflicts.ShiftReductions | extern/btyacc/mkpar.c:211-230 | A shift and any number of reductions on a token, action by action: up to the first reduction that wins over the shift those without precedence are kept for trial and the others ruled out; that one is taken if it is the last and else kept for trial, like all behind it; the shift is ruled out if some reduction wins or draws, and else kept for trial if some has no precedence. |
| Conflicts.ShadowedIff | extern/btyacc/mkpar.c:187-240 | An action is left unsuppressed beside a list of trials on its token, which the parser reads first, exactly when the last reduction is the first that wins over the shift and one before it has no precedence. |
| Conflicts.ReductionsNotShadowed | extern/btyacc/mkpar.c:231-235 | Without a shift this never happens. |
| Conflicts.ShadowExample | extern/btyacc/mkpar.c:211-230 | It does happen: a shift of precedence 1, a rule without precedence and a rule of precedence 2. |
| Conflicts.ReduceReduce | extern/btyacc/mkpar.c:231-235 | Two or more reductions on a token without a shift are all kept for trial. |
| Conflicts.MarkedOk | extern/btyacc/mkpar.c:187-240 | A row has an action kept for trial exactly if a conflict was counted in it, and at most two such actions for every conflict. |
| Conflicts.CountsAre | extern/btyacc/mkpar.c:209-240 | What is counted in a row: a reduction is a shift/reduce conflict if it has no precedence to compare with that of the shift on its token, or the shift has none, and no reduction before it has won; it is a reduce/reduce conflict if one before it has won, or if there is no shift and it is not the first. In the final state every further action on the end of the input is a shift/reduce conflict. |
| Conflicts.GroupCounts | extern/btyacc/mkpar.c:209-240 | Token by token: the reductions without precedence before the first that wins are shift/reduce conflicts, all behind it reduce/reduce conflicts; without a shift all but the first are reduce/reduce conflicts. |
| Conflicts.RemoveConflicts | extern/btyacc/mkpar.c:187-240 | Every row is marked as its scan says, the counts of a row are the numbers of its shift/reduce and reduce/reduce conflicts, and the totals are their sums. |
| Conflicts.SoleReduction | extern/btyacc/mkpar.c:263-287 | The default reduction is the one rule left unless there is a shift, a second rule or a trial; 0 means that there is none. |
| Conflicts.FindFinalState | extern/btyacc/mkpar.c:139-152 | The final state is where state 0 goes on the goal symbol. |
| Conflicts.MakeParser | extern/btyacc/mkpar.c:23-35 | All of this for all states: complete rows, resolved and counted, and default reductions that are sole ones. |
| Generator.PrecedenceDecides | extern/btyacc/mkpar.c:47-136 | In the finished rows, for a token with one shift and one reduction: the precedence declared for the token is compared with that of the rule and the associativity of the token decides between equal ones; the loser is ruled out, and without one of the two precedences both are kept for trial. |
| ConflictTable.FindConflictBase | extern/btyacc/output.c:155-165 | The first place where the list just built already stands is found. |
| ConflictTable.MatchIsFrozen | extern/btyacc/output.c:155-165 | A match always lies within the lists stored before: it never runs on into the list being built. |
| ConflictTable.Table.Close | extern/btyacc/output.c:168-226 | Closing a list records where it can be read up to its -1, and whether it is stored, shared or overlaps the -1 before it, the lists stored before stay readable. |
| TokenActions.WordTells | extern/btyacc/output.c:168-226 | A list is the shift kept for trial or -1, then exactly the reductions kept for trial, each once and in the order of their rules. |
| TokenActions.ListsPerConflict | extern/btyacc/output.c:130-134 | There are no more lists than conflicts counted. |
| Vectors.RowHasRoom | extern/btyacc/output.c:130-134 | Every row needs at most three entries of the conflict table for a conflict, so the four allocated are enough. |
| Vectors.ScanRows | extern/btyacc/output.c:168-226 | token_actions records for every state and token its shift, its reduction and its list, within the room allocated. |
| Vectors.VecAt | extern/btyacc/output.c:227-276 | With distinct symbol values the vector of a row maps the value of every token to its entry. |
| GotoTables.DefaultGoto | extern/btyacc/output.c:313-345 | The default is a most frequent target of the column. |
| GotoTables.GotoFound | extern/btyacc/output.c:313-385 | Column and default together give every transition its target. |
| PackTable.SortActions | extern/btyacc/output.c:388-420 | The vectors with entries are listed each once, widest first and among equals fullest first. |
| PackTable.MatchingVector | extern/btyacc/output.c:489-525 | What is found has the same entries, and for a row of shifts or reductions an equal earlier vector is never missed. |
| PackTable.Tables.PackVector | extern/btyacc/output.c:528-600 | The offset is the least one other than 0 that puts all keys on free slots at 0 or above and is used by no vector before: starting at lowzero skips none. It gives up only if no offset below the limit will do. |
| PackTable.PackAll | extern/btyacc/output.c:423-486 | Unless it gives up, every lookup through base, table and check finds for every vector and every key the entry or its absence; if it gives up, the vectors before some vector stand in the table and no offset below the limit is open to that one. |
| PackTable.FullNearLimit | extern/btyacc/output.c:528-600 | When there is no room, the slots are in use up to the limit but for the width of the vector and one for every offset in use. |
| OutputTables.OutOfRoomNearLimit | extern/btyacc/output.c:423-486 | For the vectors of any grammar: giving up means that the highest slot, the largest key and the number of vectors come up to the limit. |
| Packing.LookupExact | extern/btyacc/skeleton.c:273-276 | A lookup finds exactly the entries of its own vector, although slots between them hold entries of others and vectors may share an offset. |
| Packing.AllEntriesFound | extern/btyacc/output.c:423-486 | Every entry of a packed vector is found exactly if no two of its entries for one key disagree. |
| OutputTables.DuplicateHidden | extern/btyacc/output.c:423-486 | Two tokens declared with the value 300 and shifted to states 7 and 9: in every packed table only the second is found. |
| OutputTables.OutputActions | extern/btyacc/output.c:122-152 | From the tables the parser reads back every shift, reduction, conflict list and goto, and nothing for values that are no token; it gives up only when one of these vectors finds no room. |
| OutputTables.RowRead | extern/btyacc/skeleton.c:374-405 | What is read for a token is the unsuppressed shift, the unsuppressed reduction other than the default, and the list of trials, or that there is none. |
| Generator.GenerateParser | extern/btyacc/lalr.c:35-51 | The generator end to end from any well-formed grammar: canonical collection, resolved rows, and tables that give them back, unless there are too many states to number or a vector of these rows finds no room. |
| ParserTables.WriteTables | extern/btyacc/output.c:43-119 | The tables of rule lengths, left-hand sides and default reductions hold what the grammar and the rows say. |
| ParserRuntime.Parser.Lex1 | extern/btyacc/skeleton.c:754-773 | The next token comes from the queue or else from yylex, during a trial it is queued: no token is lost or read twice. |
| ParserRuntime.Parser.Expand | extern/btyacc/skeleton.c:776-799 | A full queue grows and keeps its tokens. |
| ParserRuntime.Parser.Conflict | extern/btyacc/skeleton.c:270-372 | At a conflict the second pass takes the recorded choice, and otherwise the parser saves where it is with the conflict token unread and tries the first choice: one step of the machine of TrialParse. |
| ParserRuntime.Parser.Backtrack | extern/btyacc/skeleton.c:412-458 | Going back restores exactly the stack and the token position saved at the latest conflict with a choice left, and takes the next one. |
| ParserRuntime.Parser.Declare | extern/btyacc/skeleton.c:675-704 | A successful trial turns the saved states round and starts again from the first. |
| ParserRuntime.Parse | extern/btyacc/skeleton.c:243-751 | The class with its queue, saved states and path runs exactly as the machine, and never ends in the abort on a mismatch. |
| TrialParse.NeverMismatch | extern/btyacc/skeleton.c:283-292 | The abort on a state mismatch in the second pass is never reached, whatever the tables, the input and the verdicts of the rules. |
| TrialParse.ReplayMeetsConflict | extern/btyacc/skeleton.c:283-292 | Whenever the second pass meets a conflict it stands at the stack and the token recorded next, and the recorded choice is in the list of that conflict. |
| TrialParse.ReplayArrives | extern/btyacc/skeleton.c:675-704 | Whenever a trial is committed the second pass gets, without another trial, to the stack, token and label at which the trial was declared good, and uses up all recorded choices. |
| TrialParse.VerdictsIn | extern/btyacc/skeleton.c:118-125 | YYVALID commits a trial however deep it is nested, YYVALID_NESTED only one with a single open conflict; elsewhere both do nothing. YYACCEPT commits or accepts, YYERROR is an error, YYABORT the end. |
| TrialSearch.FirstWayTaken | extern/btyacc/skeleton.c:412-458 | Every choice listed before a recorded one is a dead end, the shift at the start of the list included: the first way that works is taken. |
| TrialSearch.AllWaysTried | extern/btyacc/skeleton.c:412-458 | A conflict is given up only when its last listed choice, and with it all of them from the shift at the start of the list on, is a dead end. |
| TrialChoices.RejectedRun | extern/btyacc/skeleton.c:324-458 | The search is exhaustive: if a run ends in rejection, no sequence of choices, each any shift or reduction of the list at its conflict, leads to acceptance from the start, or from the point where the last trial was declared good by YYVALID or YYVALID_NESTED. |
| TrialChoices.AcceptedIsWay | extern/btyacc/skeleton.c:270-372 | What is accepted, with however many trials and commits, some sequence of choices leads to. |
| TrialChoices.SearchDecides | extern/btyacc/skeleton.c:243-751 | If no rule declares a trial good early, a run that ends by accepting or rejecting accepts exactly if some choices lead to acceptance. |
| StackPaths.Handle | extern/btyacc/skeleton.c:614-617 | On a stack that is a walk of the automaton an item inside a rule stands above the states of the symbols before its dot. |
| Soundness.StackDerives | extern/btyacc/skeleton.c:243-751 | In every run the symbols of the stack derive the tokens read, and no reduction finds too short a stack. |
| Soundness.AcceptsOnlySentences | extern/btyacc/skeleton.c:619-649 | What is accepted is a sentence of the grammar followed by the end of the input. |
| Yields.DerivedIsYielded | extern/btyacc/skeleton.c:553-668 | A derivation in any order is also one by parse trees, symbol by symbol. |
| Completeness.AcceptsSentence | extern/btyacc/skeleton.c:243-751 | If no state has two actions on a token, every sentence followed by the end of the input is accepted. |
| Completeness.AcceptsExactlySentences | extern/btyacc/skeleton.c:243-751 | Both directions: such a parser accepts an input exactly if it begins with a sentence and ends there. |
| Completeness.SentenceHasWay | extern/btyacc/skeleton.c:243-751 | If no action was ruled out, some choices at the conflicts lead along the parse tree of any sentence to acceptance, ambiguous grammars included. |
| Completeness.TrialsFindSentences | extern/btyacc/skeleton.c:243-751 | Both directions for grammars with conflicts: if no action was ruled out and the parser comes to an end, it has accepted exactly if the input begins with a sentence and ends there. The dangling else is parsed. |
| ParserCorrectness.GenerateTables | extern/btyacc/mkpar.c:23-35 | The generator makes tables of that kind for every grammar, with complete rows if the grammar is LALR(1), and with every action taken or kept for trial if no token and rule can be compared by precedence, unless the grammar is too large. |
| ParserCorrectness.GenerateAndParse | extern/btyacc/skeleton.c:243-751 | Generate and parse, with trials and any verdicts but early acceptance: what is accepted is a sentence, no reduction underflows and no second pass goes astray; and without precedences to compare, and with rules that say nothing, a parse that has ended has accepted exactly the sentences; all unless the grammar is too large. |
| Reader.DecodeOnce | extern/btyacc/reader.c:1254-1281 | The item array decodes in one way into finished rules and the open one. |
| Words.GetLiteral | extern/btyacc/reader.c:554-601 | A literal is written out anew from its characters, with the quote for one character or for more and with escapes; one of a single character has that as its code. |
| Words.LiteralsApart | extern/btyacc/reader.c:562-596 | Two literals have the same name only if they have the same characters, however they were escaped in the grammar. |
| Reader.Rules.EndRule | extern/btyacc/reader.c:1238-1251 | The open rule is finished. |
| Reader.Rules.InsertEmptyRule | extern/btyacc/reader.c:1254-1281 | The array shifted in place decodes to the old rules, a new empty rule before the open one, and the marker at the end of the open one; left-hand sides and precedences of all others are as before, renumbered by one. |
| Reader.Rules.StartRule | extern/btyacc/reader.c:1225-1236 | A rule begins with its left-hand side and no precedence; the rules before it stay. |
| Markers.MarkerKeeps | extern/btyacc/reader.c:1254-1281 | Inserting an empty rule for a new marker leaves unsaid nothing and says nothing new: leaving out the markers, the rules are the same as before, in the same order and with their precedences. |
| Markers.OrdinaryHas | extern/btyacc/reader.c:1254-1281 | Every rule but those of markers is still there, without its markers. |
| GrammarReader.AddSymbol | extern/btyacc/reader.c:1309-1363 | An action before the symbol and its arguments become markers, an argument seen before the marker it had; but for markers the open rule has one more symbol, the entry of its name. |
| GrammarReader.AddAction | extern/btyacc/reader.c:1366-1383 | An action before another becomes a marker; what the rules say does not change. |
| GrammarReader.MarkPrec | extern/btyacc/reader.c:1584-1621 | The open rule takes the precedence declared for the symbol, and a different one before it is an error. |
| GrammarReader.NextRule | extern/btyacc/reader.c:1225-1251 | The open rule is closed and a rule begins; a token on the left-hand side is an error. |
| GrammarReader.ReadGrammar | extern/btyacc/reader.c:1623-1650 | For every rules section: leaving out markers, the rules read are the rules as written, in the numbers of the symbol table; every marker has a rule and its rules are empty, and there is one for every action that is not the last of its rule and one for every argument, however often it occurs; there is no error exactly if no token is a left-hand side and no rule has two different precedences. Every name has the value and precedence declared for it; without a declared value a literal of one character has that character, and any other name none. |
| GrammarReader.RuleRead | extern/btyacc/reader.c:1225-1383 | A rule that is written out, with a mark or without one, is read as that rule after those before it: its left-hand side, which a bar repeats, its symbols in their order, and the precedence of its mark; an action changes nothing. |
| WrittenGrammar.SameSentences | extern/btyacc/reader.c:1254-1306 | Actions inside rules, and arguments, do not change the language: the rules with their markers derive exactly the strings of tokens that the rules as written do. |
| WrittenGrammar.ReadSection | extern/btyacc/reader.c:1623-1696 | Without errors and with a rule for the goal, the rules read are a grammar for the packing, and that grammar without its markers is the one written; a name is a token exactly if it has no rule, and its value is as in ReadGrammar. |
| SymbolPacking.PackSymbols | extern/btyacc/reader.c:1698-1790 | Tokens are numbered in the order of the table, then the goal, then the other nonterminals; every entry has its number, kind and precedence, every token its value. |
| SymbolPacking.NumbersApart | extern/btyacc/reader.c:1727-1746 | Different entries have different numbers. |
| SymbolPacking.TokenValues | extern/btyacc/reader.c:1753-1774 | A declared value is kept; every other token gets the least value from 257 on that no token was declared with and no token before it has. |
| SymbolPacking.NewValueBound | extern/btyacc/reader.c:1753-1774 | No such value is larger than 256 and the number of tokens. |
| SymbolPacking.ValuesDiffer | extern/btyacc/reader.c:1753-1774 | The values are distinct exactly if the declared ones are. |
| GrammarPacking.PackGrammar | extern/btyacc/reader.c:1793-1850 | The packed grammar is well-formed, has exactly the rules read in packed numbers, and every rule has its own precedence or that of its last token. |
| SourceGrammar.UnpackSentence | extern/btyacc/reader.c:1698-1850 | Every sentence of the packed grammar is the packed form of a sentence of the grammar as read. |
| SourceGrammar.PackSentence | extern/btyacc/reader.c:1698-1850 | And every sentence of the grammar as read is packed to a sentence. |
| SourceGrammar.GenerateFromSource | extern/btyacc/reader.c:1881-1895 | From the symbol table and the rules as read, for any grammar whose declared token values are distinct and fit: parser tables that meet what soundness and completeness ask for, unless the grammar is too large. Every token keeps its value or has a new one above 256, error 256; every rule has its own precedence, or that of the last token of its right-hand side, or none. |
| SourceGrammar.ValuesFitIff | extern/btyacc/reader.c:1753-1774 | The values of all tokens are distinct and fit the tables exactly if the declared ones are distinct, above that of $end and fit. |
| SourceGrammar.AcceptsExactlySource | extern/btyacc/reader.c:1881-1895 | The parser of an LALR(1) grammar accepts an input exactly if it begins with the token values of a sentence of the grammar as read and ends there. |
| SourceGrammar.TrialsFindSource | extern/btyacc/reader.c:1881-1895 | The parser of a grammar none of whose actions are ruled out, if it comes to an end, has accepted exactly such an input. |
| SourceGrammar.AcceptsOnlySource | extern/btyacc/reader.c:1881-1895 | The parser of any grammar accepts nothing else. |
| WrittenGrammar.AcceptsExactlyWritten | extern/btyacc/reader.c:1881-1895 | The parser of an LALR(1) grammar accepts an input exactly if it begins with the token values of a sentence of the grammar as it is written, actions and arguments left out, and ends there. |
| WrittenGrammar.TrialsFindWritten | extern/btyacc/reader.c:1881-1895 | The same of the grammar as it is written, for grammars with conflicts and without precedences, if the parser comes to an end. |
| WrittenGrammar.GenerateFromRules | extern/btyacc/reader.c:1881-1895 | Generating from the rules read makes such a parser for every input and all verdicts that let it run through, and its tokens have the values that the lexical analyzer returns: a literal of one character that character, unless another value was declared, and every token with a declared value that value. |
| Finalize.DecFinalize | extern/decNumber/decCommon.c:230-473 | Rounds the digits in the buffer in place. The rounded number, the digits and exponent that lay it out, the result and each of the five status bits are as the eight rounding modes and the format ask; ResultPicked says which number that result is. An empty coefficient makes the zero of its exponent up to Emax + 1, and an overflow past that. |
| Finalize.Increment | extern/decNumber/decCommon.c:371-385 | Adding 1 in place adds 1 to the value; all nines become all zeros with a carry. |
| Finalize.CutInside | extern/decNumber/decCommon.c:288-298 | The digits kept and the rounding digit made sticky tell the quotient, and where the rest lies below, at or above one half. |
| Decimal.BumpRounds | extern/decNumber/decCommon.c:326-368 | Bumping exactly when the switch over the modes says so rounds as the mode is defined: towards zero, away, up, down, half even, half up, half down, and 05 up. |
| Decimal.RoundedUnique | extern/decNumber/decCommon.c:326-368 | A number has one rounding in each mode. |
| CorrectRounding.CorrectlyRounded | extern/decNumber/decCommon.c:230-473 | Of all numbers with at most P digits and an exponent not below the least, whatever their exponents, the result is the one the mode asks for: the nearest on its side; a nearest one, and of two equally near ones the larger, the smaller or the even one; for 05 up, one of the two next to the number. |
| CorrectRounding.ResultPicked | extern/decNumber/decCommon.c:230-473 | The result, finite or infinite, is the one the mode asks for among all finite numbers of the format and infinity. A finite one is the nearest on its side, or a nearest one with ties as the mode has them. It is infinity exactly if the number is above the largest finite one and the mode rounds away from zero for its sign, or, for the nearest modes, from half a unit above it on (half down: beyond that); down, 05 up, ceiling of a negative and floor of a positive number never give infinity. |
| TwiceRounded.RoundedAgain | extern/decNumber/decCommon.c:326-368 | What 05 up is for: a number rounded so, and then in any mode to fewer digits, is the number rounded once in that mode. |
| TwiceRounded.FinalizedTwice | extern/decNumber/decCommon.c:230-473 | From format to format: the coefficient rounded 05 up for one format gives in every narrower format, in every mode, the same result as the number itself, overflow included. |
| CorrectRounding.InexactIff | extern/decNumber/decCommon.c:230-473 | Inexact is set by a call exactly if the result is not the number itself. |
| CorrectRounding.OverflowIff | extern/decNumber/decCommon.c:416-452 | Overflow is raised exactly if the rounded number, its exponent unbounded, is above the largest finite one. |
| CorrectRounding.TinyIff | extern/decNumber/decCommon.c:321-324 | The test for underflow is that the number before rounding lies below the least normal one. |
| CorrectRounding.LayoutKeepsValue | extern/decNumber/decCommon.c:416-473 | Fold-down and the clamping of zeros keep the value, and the result has at most P digits and the exponent of the rounded number, or the largest of the format if that is larger. |
| StickyDigit.StickyAgrees | extern/decNumber/decCommon.c:905-945 | Finalizing at least P+1 digits of a long coefficient, the last one sticky, is finalizing all of them: same result, same status. |
| StickyDigit.DeliversOnce | extern/decNumber/decCommon.c:230-473 | Result and status of finalizing are determined by the number. |
| FromString.ScanCoefficient | extern/decNumber/decCommon.c:801-819 | The scan finds the longest sign, digits and one dot at the start of the string. |
| FromString.ScanExponent | extern/decNumber/decCommon.c:826-856 | An exponent part is recognized exactly if the rest of the string is one, and its value is as written unless it has too many digits. |
| FromString.CollectLong | extern/decNumber/decCommon.c:905-945 | The over-long path keeps the digits without leading zeros, at least P+1 of them, the last sticky, or nothing at all if it ends in a dot after zeros only. |
| FromString.ScanNaN | extern/decNumber/decCommon.c:956-981 | A NaN with its payload is recognized exactly if the string is one. |
| FromString.DecFloatFromString | extern/decNumber/decCommon.c:776-1002 | The string is taken for a number, an infinity or a NaN exactly if it is one; coefficients of any length are delivered correctly rounded, but for stranded zeros, which overflow; conversion syntax is flagged exactly otherwise. |
| FromString.StrandedIff | extern/decNumber/decCommon.c:905-945 | What is delivered is the number, correctly rounded, exactly if it is not a zero of more digits than the buffer holds that ends in a dot and has an exponent above Emax + 1. |
| Numerals.NumberOnce | extern/decNumber/decCommon.c:801-863 | A string says one number only. |
| ExponentCap.ExactValueIff | extern/decNumber/decCommon.c:850-863 | What decFloatFromString delivers is the exact value, correctly rounded in every mode, exactly if the number is no stranded zero and the exponent has few enough digits or its stand-in is harmless. |
| ExponentCap.HarmlessIff | extern/decNumber/decCommon.c:850-863 | Another exponent delivers the same in every mode exactly if it is equal, or both overflow, both vanish, or a zero is clamped alike. |
| ExponentCap.ShortCoefficientSafe | extern/decNumber/decCommon.c:850-863 | It is harmless whenever the coefficient has few enough digits on either side of the dot. |
| ExponentCap.LongOneMissed | extern/decNumber/decCommon.c:850-863 | Not always: 0., 999 zeros and 1E1000 is worth 1, and decimal64 delivers 1E-232 with no status. |
| ExponentCap.LongZeroStranded | extern/decNumber/decCommon.c:905-945 | In decimal64 the zero written as 38 zeros, a dot and E+386 raises overflow and inexact and comes out as infinity or the largest number. |
| NumberText.TextReads | extern/decNumber/decCommon.c:801-863 | A printed number reads as a number with the digits and the exponent it shows. |
| ToString.DecFloatToString | extern/decNumber/decCommon.c:1500-1698 | The character buffer, filled in place, holds the text of the number, infinity or NaN and then the terminator, and the room is enough. |
| ToString.DecFloatToEngString | extern/decNumber/decCommon.c:1221-1438 | The same in engineering notation, with the padding zeros. |
| ToString.InsertDot | extern/decNumber/decCommon.c:1617-1628 | The digits behind the dot move up by one and the dot stands between. |
| ToString.OpenGap | extern/decNumber/decCommon.c:1677-1696 | The digits move up and 0. with the zeros stands in front of them. |
| RoundTrip.PlainRoundTrip | extern/decNumber/decCommon.c:1500-1698 | What is printed is readable, and reading it gives back the same sign, digits and exponent, or the same special value and payload, with the status as it was. |
| RoundTrip.EngRoundTrip | extern/decNumber/decCommon.c:1221-1438 | What is printed in engineering notation is readable, and reading it gives back the same sign and value, a zero with its exponent, or the same special value and payload, with the status as it was. |
| PrintedForm.PlainHasForm | extern/decNumber/decCommon.c:1595-1698 | The text of decFloatToString has an E exactly if the exponent is above 0 or the value below a millionth, for a zero if its exponent is below -6. Without an E as many digits stand behind the dot as the exponent is below 0; with one, a single digit stands before the dot, not 0, or a lone 0 stands there. No zeros lead, in the exponent neither. |
| PrintedForm.EngHasForm | extern/decNumber/decCommon.c:1317-1438 | The text of decFloatToEngString has an E exactly if the value is below a millionth, or the exponent above 0 and the value at least 1000 or zero. Its exponent is a multiple of three, with one to three digits before the dot of which the first is not 0; for a zero one 0 stands there, and the exponent is the least multiple of three not below that of the zero. |
| PrintedForm.SpecialText | extern/decNumber/decCommon.c:1520-1555 | Infinity is spelled out with its sign, and a NaN as NaN or sNaN with the digits of a payload that is not zero. |
| ToString.PrintAndRead | extern/decNumber/decCommon.c:1500-1698 | Printing into a buffer and converting what is there: the very same datum, and no status, conversion syntax included. |
| ToString.PrintEngAndRead | extern/decNumber/decCommon.c:1221-1438 | The same through engineering notation: the same value and no status, conversion syntax included. |

## Left out

Of the generator:

- scanner, declarations, action text and messages of reader.c, the checks on the number and the tags of arguments; error.c, verbose.c, readskel.c, mstring.c and main.c; the printing of tables and of semantic actions in output.c: input, output and text
- fatal errors for memory; those for table limits are a flag `fatal`, after which only the reason is promised (ParserCorrectness.TooLarge)
- memory management, offset pointers and null pointers: arrays begin at 0 with an index shift, and a missing list is an empty one
- BuildRelations.Build: the array of includes edges has fixed size in the source, here it is a list that grows; the relation is stated as a set
- ClosureTables.SetFirstDerives: one word past the end of a row may be read in the source; the read is guarded here, and the result does not change
- PackTable.Tables.PackVector: the scan for the next free slot is guarded at the end of the table
- Vectors.VecAt: symbol values are taken to be distinct and not negative, as the generator takes them
- SymbolPacking.PackSymbols: names and tags of symbols are not modelled
- Words.GetLiteral: the escapes that the scanner undoes are left out; a character is printable from 32 to 126, as in the C locale
- GrammarReader.ReadGrammar: the symbol table and the cache of arguments are hash tables with chains in the source and maps here, handed from step to step as values; the classes ACTION and ARGUMENT of markers are one
- SourceGrammar.GenerateFromSource: the precedences by packed number are filled in entry by entry, in the source tokens first

Of the parser:

- error-token recovery, and with it the furthest error that is restored before it: an error outside a trial ends the parse with Rejected
- semantic values and positions, and debugging output
- the code of a rule is a verdict that depends on the rule and the stack of states only; the source runs the bracketed part of an action in trials and all of it outside, and a value could make these differ
- feedback from actions to the lexer: the input is a function of the position
- the growth of the stack arrays: a stack is a sequence
- reads past the ends of the index tables give 0 in the model
- Completeness.TrialsFindSentences: says nothing of a parse that never ends, which a rule that derives itself can cause, nor of sentences whose actions precedence has ruled out
- TrialChoices.SearchDecides: where rules declare trials good early, RejectedRun says what holds

Of the decimals:

- declet and combination-field encoding, and copies of four bytes at a time: digits are handled one by one, and the table BIN2BCD8 is the arithmetic it tabulates
- DECSTICKYTAB is not part of this model's sources: it is taken to make 0 and 5 sticky as 1 and 6 and to keep other digits
- formats have at least two digits, for printing at least three, and exponents of at most four digits, as all formats of the library have
- integer overflow while the digits of an exponent are gathered: the exponent is replaced afterwards if it has too many digits, so the gathered value is not used then
- DecFinalize looks at the byte before the buffer when the coefficient is empty; the model asks for the length first, which decides
- special values do not reach DecFinalize here; the conversions deliver them directly, as the source does before and after it
- FromString.DecFloatFromString: the exact value is delivered outside the two families under Findings only
