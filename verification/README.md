# A verified model of the LEMON parser generator and its neighbours

This project models, in Dafny 4.11, the parts of the repository in which a small
specification stands behind an intricate implementation, and proves that the two agree.
`dafny verify dfyconfig.toml` checks everything.

**LEMON, the generator (`lemon/lemon.c`).** From a grammar to the tables of its parser:
nullable and first sets (`Derivations`, `FirstSets`), the LR(0) automaton (`Items`, `States`,
`StateBuilder`, which finds its states through the hash table of `HashTable`), follow sets along
propagation links (`FollowGraph`, `LinkBuilder`, `FollowSets`), sorting (`MergeSort`), precedence and conflicts
(`Actions`, `Precedence`), default reduces (`Compression`), the packed action table (`ActionTable`), the emitted
tables (`Tables`, `TableReport`), all of it together (`Generator`), and the grammars on which the
generator gives up (`Productivity`). What the automaton and its follow sets mean is stated about
derivations of the grammar alone: states hold the items that are valid for the prefixes leading to
them (`ViablePrefixes`), follow sets hold LALR(1) lookaheads (`Lookaheads`).

**LEMON, the driver (`lemon/lempar.c`) and a generated parser (`lemon/calculate_3.cpp`).**
The stack machine as a step function and as a class that follows it (`Driver`), soundness of
every run of a generated parser (`Soundness`), of the step function and of the class called once
per token (`ParserRun`), completeness and error detection for grammars without conflicts
(`Completeness`, `ErrorDetection`, `Language`), and the calculator: its concrete tables
(`Calculator`) and the theorem that it prints the values of the expressions it reads
(`CalculatorTheorem`).

**Form parsing (`cgic207/cgic.c`).** The stream with put-back and the search for the next
boundary of section 5.1.1 of RFC 2046 (`Multipart`); urlencoded forms (`FormInput`).

**Base64 (`base64/base64.c`, section 4 of RFC 4648).** Encoder, decoder, chunked files and the
decoder that streams through a cache (`Base64`, `Base64Stream`, `Base64Files`).

**NTP phase lock (`open_ntpclient/phaselock.c`).** The measurement ring and the envelopes of its
two curves (`PhaseLock`, `Envelope`, `PhasePasses`, `PhaseLoop`).

## Main results

1. `Generator.Generate` computes, for every usable grammar and every hash function of its state
   table, exact nullable and first sets, the canonical LR(0) collection with state i in place i,
   follow sets, and an outcome. A state holds exactly the items that are valid for the prefixes that
   lead to it (`ViablePrefixes.StateHoldsValidItems`), and a follow set exactly the terminals that a
   derivation can have behind the rule there (`Lookaheads.FollowSetsAreLookaheads`). It aborts exactly
   when some state has no action; never if every symbol of a right-hand side derives a string of
   terminals (`Productivity.ProductiveNeverAborts`), but it can (`Productivity.StuckGrammarAborts`).
   Otherwise the tables answer for every state and symbol: with the one action that precedence,
   associativity and rule numbers prefer among all actions of the state there
   (`Precedence.SurvivorLaw`, `Language.TablesFollowPrecedence`), and where there is none with the
   state's default, a reduce by a rule with the most live reduces if some rule has two, else an error;
   unless a size exceeds the sort or the C integers.
2. Sound and complete: along every run of such a parser the stack derives exactly the tokens shifted,
   no reduce finds less than its right-hand side, and only derivable inputs are accepted, at their end
   (`Generator.GeneratedParsersAreSound`, `ParserRun.ParseInput` for the parser object). If no state has
   two actions on one symbol, the parser accepts exactly the language of the grammar
   (`Language.AcceptsExactlyTheLanguage`), a sentence exactly when its stack has the entries that the
   tree needs (`Language.AcceptsOnThisStack`); where it reports a syntax error no sentence goes on with
   that token (`Language.SyntaxErrorsAreReal`); and the grammar is unambiguous
   (`Language.NoConflictsNoAmbiguity`).
3. `ActionTable.Acttab.Insert`: every set goes to the first offset that takes it, and reads back
   exactly, hits and misses, after any number of overlapping insertions.
4. `CalculatorTheorem.CalculatorSession`: every session of expressions, printed with minimal
   parentheses, prints their values through the literal tables of `calculate_3.cpp`, up to the
   first division by zero.
5. `MergeSort.Sort` is a stable sort, and keeps all nodes, exactly below 2^30 nodes.
6. `Multipart.MpStream.AfterNextBoundary` emits exactly the bytes before the leftmost delimiter,
   over any run of calls and not only on an empty ring; `Multipart.BodiesComeBack` is the round
   trip over the bodies of a message, up to the two dashes behind its last delimiter.
7. `Base64Files.FileComesBackIff`: a file, encoded chunk by chunk with padding in the middle,
   streams back through the cache without overrunning it, and is restored exactly when it has
   fewer than 2^31 bytes; `Base64Files.PaddedRunIsSafeIff` says how much padding the cache tolerates.
8. `FormInput.AllComeBackIff`: a form in any style of escaping comes back exactly when every field
   has a name.
9. `PhaseLoop.Loop.Contemplate`: for increasing times, every full ring gets both envelopes and the
   crossing lines that the passes keep.

## Model

| member | source | states |
|---|---|---|
| ActionTable.Acttab.Insert | lemon/lemon.c:478-553 | the pending set is placed at the first offset that takes it; it and every set placed before read back exactly: own action for each member, a miss for every other lookahead |
| ActionTable.Acttab.FindOffset | lemon/lemon.c:502-541 | the first offset, from the one that puts the smallest lookahead into slot 0 on, where the set fits free slots that no reader takes for its own, or where an identical set lies already; at worst the end of the table |
| ActionTable.Acttab.FitsInEmpty | lemon/lemon.c:510-522 | true exactly when all slots of the set are free, no used slot looks like a member at that offset, and the slot just before the offset is not a free one below nAction, which the scan takes for a match because both sides are -1 |
| ActionTable.Acttab.RepeatsEarlier | lemon/lemon.c:523-540 | true exactly when the same set lies there: all its pairs in their places and no foreign slot that a reader would match |
| ActionTable.RepeatIff | lemon/lemon.c:523-540 | for distinct lookaheads, the two tests of the scan, all pairs in place and as many matches as pairs, hold exactly when the same set lies there |
| ActionTable.Acttab.CountHits | lemon/lemon.c:532-536 | the number of used slots that a reader at the offset would match |
| ActionTable.Acttab.Action | lemon/lemon.c:445-469 | appends the pair to the pending set and keeps exactly the pair of its smallest lookahead and its largest lookahead |
| ActionTable.ExtremesBound | lemon/lemon.c:455-464 | the pair and the number kept belong to the set and bound all its lookaheads |
| ActionTable.Acttab.Store | lemon/lemon.c:542-548 | writing the pending set changes the table to the one that Write describes and empties the pending set |
| ActionTable.FreshIsExact | lemon/lemon.c:510-522 | a set with distinct lookaheads stored into free slots reads back exactly |
| ActionTable.FreshKeeps | lemon/lemon.c:517-522 | storing it disturbs no set placed earlier, even when they overlap |
| ActionTable.SameIsIdentity | lemon/lemon.c:523-540 | storing a set over an identical one changes nothing and reads back exactly |
| ActionTable.CountingFindsSame | lemon/lemon.c:532-539 | with distinct lookaheads, equal pairs and an equal count of matching slots imply that no foreign slot matches |
| ActionTable.CountingNeedsDistinct | lemon/lemon.c:532-539 | a set that holds a pair twice passes the count and then answers for a lookahead it lacks |
| ActionTable.InsertKeepsAll | lemon/lemon.c:478-553 | whichever way the search stopped, the new set and all earlier ones are exact |
| ActionTable.InsertAddsOnly | lemon/lemon.c:542-547 | every used slot holds a pair of some placed set |
| ActionTable.TrimKeepsLookups | lemon/lemon.c:3498-3514 | cutting off the unused tail of the table changes no lookup |
| MergeSort.Merge | lemon/lemon.c:1515-1549 | the relinking loop computes the merge that takes the older list first on ties |
| MergeSort.MergePermutes | lemon/lemon.c:1515-1549 | a merge loses and invents nothing |
| MergeSort.MergeSorts | lemon/lemon.c:1515-1549 | merging sorted lists gives a sorted list |
| MergeSort.MergeStable | lemon/lemon.c:1515-1549 | equal elements keep their order, the second list first |
| MergeSort.Push | lemon/lemon.c:1577-1586 | one node goes through the slots like a carry through a binary counter |
| MergeSort.PushKeeps | lemon/lemon.c:1581-1585 | a carry keeps the nodes and the order of ties as long as it does not reach an occupied last slot |
| MergeSort.PushCounts | lemon/lemon.c:1581-1585 | slot i stays empty or holds 2^i nodes, below the last slot |
| MergeSort.Sort | lemon/lemon.c:1567-1591 | for a total preorder and fewer than 2^30 nodes, a sorted, stable permutation of the list |
| MergeSort.SortIsStableSort | lemon/lemon.c:1567-1591 | the same for the value that the method computes |
| MergeSort.SortKeepsAllNodesIff | lemon/lemon.c:1566-1591 | the number of nodes is kept exactly when there are fewer than 2^30 of them: the 30 slots are the limit |
| Actions.ResolveConflict | lemon/lemon.c:970-1024 | for every pair that the sorted list can present, the outcome is the reference decision by precedence and associativity, the assertions hold, and the count is one exactly when the second action becomes a conflict |
| Actions.PassOver | lemon/lemon.c:934-939 | one action against the following ones on its symbol |
| Actions.ResolveAll | lemon/lemon.c:933-940 | the nested loops compute the reference resolution, and the count is the number of actions marked as conflicts |
| Actions.ResolveLeavesChampion | lemon/lemon.c:927-940 | after all pairwise resolutions exactly one action per symbol is live, the champion of its group, wherever there was one |
| Actions.PassChampion | lemon/lemon.c:934-939 | one pass leaves the champion of a group unchanged |
| Actions.ShiftSurvivesIff | lemon/lemon.c:978-998 | a shift survives exactly when every reduce it meets has no precedence, or its symbol has none, or the symbol's is higher, or they are equal and the symbol is not left-associative |
| Actions.ReduceChampion | lemon/lemon.c:999-1011 | among reduces whose rules have precedences one of the highest wins; without precedences the first rule wins |
| Precedence.PrecedencesAreDeclared | lemon/lemon.c:978-983 | precedences are those of the grammar: a symbol's own, a rule's that of its precedence symbol |
| Precedence.FindRulePrecedences | lemon/lemon.c:581-597 | a rule keeps its declared precedence symbol, or gets its first symbol with a precedence, or none |
| Precedence.SettleMeans | lemon/lemon.c:970-1024 | one confrontation in terms of precedence and associativity: who loses and how the loser is marked |
| Precedence.ShiftOrReduce | lemon/lemon.c:927-998 | a shift survives exactly when no reduce is preferred to it; otherwise the first reduce of the highest precedence does |
| Precedence.ReducesWin | lemon/lemon.c:999-1011 | among reduces, some with a precedence and some without: the first if it has none, else the first of the highest precedence |
| Precedence.EveryFate | lemon/lemon.c:927-940 | every action of a group meets the champion of those before it: if it loses, it is a conflict exactly when precedence does not decide; if it wins, it stays until a later one beats it |
| Precedence.GroupsApart | lemon/lemon.c:933-940 | actions on different symbols are resolved independently |
| Precedence.SurvivorLaw | lemon/lemon.c:350-375 | among all actions of a state on a symbol, in any order before sorting, the live one afterwards is the shift if no rule is preferred to it, else the highest rule with the smallest number, or the earliest rule if that has no precedence |
| Compression.ActionCmpOrders | lemon/lemon.c:350-363 | actioncmp is a total preorder |
| Compression.SortedIsAdmissible | lemon/lemon.c:350-375 | sorting brings the actions of a state into the order that resolution relies on |
| Compression.ComparisonAssertionHolds | lemon/lemon.c:350-363 | the assertion in actioncmp holds when the actions of a state are first sorted: equal symbol and kind occur for reduces only |
| Compression.ResortAssertionHolds | lemon/lemon.c:3802-3813 | it also holds when the list is sorted again with a default in place of the reduces of one rule |
| Compression.SettleState | lemon/lemon.c:927-940 | fails exactly on an empty list, the assertion at its start; otherwise sorting and resolving leave the champion of every symbol, no symbol loses its last action and none keeps two |
| Compression.MostFrequent | lemon/lemon.c:3781-3798 | the rule found has the largest number of live reduces, and is the first of the list among equals |
| Compression.CountIsNumber | lemon/lemon.c:3785-3793 | the count of a rule is the number of places where the list has a live reduce by it |
| Compression.Compress | lemon/lemon.c:3769-3816 | every symbol with a live action still decides for the same action, through its own entry or the default; other symbols can only become the default reduce; a default exists exactly when some rule has two reduces, and it has the most |
| Compression.DefaultedCompresses | lemon/lemon.c:3802-3813 | the same for the list with one default in place of the reduces of the best rule |
| Compression.TwoReduces | lemon/lemon.c:3800-3802 | a default rule has live reduces on two different symbols |
| Tables.MinimumSizeType | lemon/lemon.c:3269-3289 | the chosen C type holds every value of the range unchanged |
| Tables.SmallestTypeIff | lemon/lemon.c:3269-3289 | the type is the smallest of its sign that holds the range exactly when the range does not end at 65535, -128, 32767 or -32768, which the tests leave out |
| Tables.EmittedLookup | lemon/lemon.c:3498-3528 | reading the printed action and lookahead arrays agrees with the table; an empty slot, printed as nsymbol, never matches |
| Tables.EmptySlots | lemon/lemon.c:3515-3528 | an empty slot is printed as nsymbol, which is no symbol |
| Tables.PlacedLookup | lemon/lempar.c:322-386 | a lookup through the offset of a placed set finds its entry or misses |
| TableReport.Summarize | lemon/lemon.c:3439-3448 | the numbers of terminal and nonterminal entries of a state and its default code |
| TableReport.CollectAxSets | lemon/lemon.c:3435-3457 | two sets for every state in slots 2s and 2s+1, with their sizes, and the default code of every state |
| TableReport.SortedIsAxSetsOf | lemon/lemon.c:3458-3464 | sorted by size the list still has every set once, larger sets first |
| TableReport.PlaceAll | lemon/lemon.c:3466-3492 | every nonempty set of every state has been placed, exactly, and all real offsets lie between the recorded smallest and largest ones |
| TableReport.ReportTable | lemon/lemon.c:3433-3585 | for every state and symbol, lookup in the emitted tables, offsets and defaults read through the C types chosen for them, gives the code of the live action, else of the default, else of an error; no tables only when they could need more slots than an int counts |
| TableReport.OffsetsKept | lemon/lemon.c:3534-3571 | the type chosen from the smallest and largest offset holds every offset and the mark for a missing one |
| TableReport.DefaultsKept | lemon/lemon.c:3573-3588 | the type of action numbers holds every default |
| TableReport.DriverLookup | lemon/lempar.c:322-386 | the offset that stands for a missing set never equals a real one, so the lookup takes the default exactly when it should |
| TableReport.EmittedCorrectly | lemon/lemon.c:3498-3588 | exact placement of all sets implies correct answers of the driver's two lookup functions |
| Derivations.RuleDerivesEmpty | lemon/lemon.c:617-630 | a rule whose right-hand side symbols all derive the empty string derives it |
| Derivations.RuleCanStart | lemon/lemon.c:632-652 | behind symbols that vanish, what can start a symbol of a right-hand side can start its left-hand side |
| FirstSets.LambdaComplete | lemon/lemon.c:617-630 | once no rule changes a flag, every nonterminal with an empty derivation has it |
| FirstSets.FirstComplete | lemon/lemon.c:632-652 | once no rule adds a terminal, every terminal that can start a nonterminal is in its set |
| FirstSets.FindLambdas | lemon/lemon.c:611-630 | the first fixpoint terminates; the flag holds exactly for the symbols that derive the empty string |
| FirstSets.FindFirstSets | lemon/lemon.c:604-654 | both fixpoints terminate; a terminal is in the first set exactly when a derivation starts with it |
| FollowSets.FindFollowSets | lemon/lemon.c:849-880 | the worklist terminates with the least solution: a terminal is in a set exactly when it was there or reaches it along links |
| FollowSets.Propagate | lemon/lemon.c:868-876 | one propagation keeps the invariant that complete configurations have all outgoing links satisfied, and reports a change exactly when the target grew |
| FollowSets.SatisfiedIsComplete | lemon/lemon.c:849-880 | satisfied links carry every terminal along every path |
| LinkBuilder.Follow | lemon/lemon.c:813-880 | from the records that closures and shifts leave in the configurations, the follow sets of all configurations are the least solution over the propagation links |
| LinkBuilder.ScanRest | lemon/lemon.c:1164-1173 | the scan behind a dot collects RestFirst, and runs through exactly when RestVanishes holds |
| Lookaheads.RestFirstIff | lemon/lemon.c:1164-1173 | the terminals collected behind a dot are exactly those with which a derivation of the rest can begin |
| Lookaheads.RestVanishesIff | lemon/lemon.c:1171-1174 | the scan runs through exactly when the rest derives the empty string |
| Lookaheads.InitialFollowIff | lemon/lemon.c:1162-1173 | before propagation a configuration has exactly what can begin behind the items that open it, and the end mark for a start rule |
| Lookaheads.IsLinkIff | lemon/lemon.c:1174-1175 | links go exactly to what a configuration opens if the rest behind its dot derives the empty string, and over the shift of its symbol |
| Lookaheads.FollowSetsAreLookaheads | lemon/lemon.c:849-880 | the follow set of a configuration holds exactly the terminals that some derivation, with a prefix leading to the state on the left, has next behind the rule: its LALR(1) lookaheads |
| Lookaheads.LookaheadArrives | lemon/lemon.c:849-880 | whatever can come next has arrived |
| Lookaheads.LookaheadIsReal | lemon/lemon.c:849-880 | whatever has arrived can come next |
| LinkBuilder.ExpandSets | lemon/lemon.c:1162-1175 | one configuration adds what can follow it to the sets of exactly those it generates, and links to them exactly when the rest vanishes |
| LinkBuilder.Records | lemon/lemon.c:1142-1179 | the closure loops leave the initial follow set and the links inside the state in every configuration |
| LinkBuilder.BackLinks | lemon/lemon.c:785-803 | a configuration gets a back link from exactly those that advance to it over a shift of their state |
| LinkBuilder.FindLinks | lemon/lemon.c:813-842 | forward links are those inside states and the reverse of all back links |
| LinkBuilder.LinksAgree | lemon/lemon.c:813-842 | links inside a state and over shifts are together the propagation relation of the automaton |
| FollowGraph.StartFlow | lemon/lemon.c:703-707 | with the start symbol on no right-hand side, nothing but the end mark flows into a start rule |
| FollowGraph.StartFollow | lemon/lemon.c:703-707 | the follow set of a start rule's configuration is at most the end mark |
| Items.Closure | lemon/lemon.c:1142-1179 | the growing list terminates and is the closure of the basis, without repetition |
| Items.ClosureIsUnique | lemon/lemon.c:1142-1179 | a basis has one closure |
| Items.ClosureItemIsGenerated | lemon/lemon.c:1142-1179 | an item outside the basis is generated by another item of the closure |
| Items.OrderedIsUnique | lemon/lemon.c:1181-1193 | sorted item lists are equal exactly when their items are, so comparing sorted bases compares sets |
| ViablePrefixes.StateHoldsValidItems | lemon/lemon.c:661-808 | the state that a prefix leads to holds exactly the items whose rule some derivation reaches with that prefix on the left up to the dot, rules with empty right-hand sides included |
| ViablePrefixes.ValidItemsAreThere | lemon/lemon.c:1142-1179 | completeness of closure and shifts: every valid item is in the state |
| ViablePrefixes.ItemsAreValid | lemon/lemon.c:1142-1179 | soundness of closure and shifts: every item of the state is valid |
| ViablePrefixes.ReachesViablePrefixes | lemon/lemon.c:765-808 | the automaton leads somewhere on exactly the prefixes that have a valid item |
| ViablePrefixes.SpineDerives | lemon/lemon.c:1142-1179 | the ways down to a symbol by which validity is defined are derivations of the start symbol |
| StateBuilder.FindStates | lemon/lemon.c:661-715 | terminates with the canonical LR(0) collection: closures of their bases, shifts to exactly the advanced items, distinct bases, all reachable from state 0; every state holds exactly the items valid for the prefixes that lead to it; the hash table lists it in insertion order, so that state i has index i, for any hash function and across resizes |
| StateBuilder.Builder.FindState | lemon/lemon.c:4391-4406 | the state with this sorted basis, found through the hash table; nothing exactly when no state has it |
| StateBuilder.Builder.NewState | lemon/lemon.c:747-758 | a state with the next index enters the table and the list, before its successors exist |
| StateBuilder.Builder.GetState | lemon/lemon.c:720-761 | the index of the only state with this basis, which is built with its successors if it is new; the table keeps listing state i as record i |
| StateBuilder.Builder.BuildShifts | lemon/lemon.c:765-808 | the state gets a shift for every symbol after a dot and is no longer pending |
| States.InvariantIsCanonical | lemon/lemon.c:661-808 | the invariant of the recursion is the canonical collection once nothing is pending |
| States.OriginReaches | lemon/lemon.c:765-808 | every state is reachable |
| Generator.RawActions | lemon/lemon.c:886-925 | the actions of a state before resolution: exactly its shifts, the reduces of its finished items on their follow sets, and accept in the first state |
| Generator.PrepareState | lemon/lemon.c:886-940 | raw actions, their winners and the compressed list belong together; no list exactly when there are no raw actions or too many for the sort |
| Generator.ActionlessIff | lemon/lemon.c:931 | the assertion fails exactly for a state other than the first that shifts nothing and whose finished items have empty follow sets |
| Generator.PrepareStates | lemon/lemon.c:886-940 | stops exactly when some state has no action |
| Productivity.ProductiveNeverAborts | lemon/lemon.c:604-654 | if every symbol of a right-hand side derives a string of terminals, every state has an action |
| Productivity.RestStartsOrVanishes | lemon/lemon.c:638-646 | in such a grammar, what follows a position of a right-hand side vanishes or has a first symbol |
| Productivity.ClosureFed | lemon/lemon.c:1142-1179 | once the basis of a state has follow sets, so has its closure |
| Productivity.RouteFed | lemon/lemon.c:765-808 | along every route through the automaton every item gets a follow set |
| Productivity.StuckGrammarAborts | lemon/lemon.c:931 | for main ::= b c, b ::= Y, c ::= c X the state behind Y has no action, in every canonical collection with least follow sets |
| Productivity.StuckIsUsable | lemon/lemon.c:684-697 | that grammar passes the checks before the automaton is built |
| Generator.DefaultAllowed | lemon/lemon.c:3802 | a default never reduces by a start rule, because a default needs two symbols and a start rule has only the end mark |
| Generator.FollowJustifies | lemon/lemon.c:895-909 | every reduce belongs to a finished item of its state, on the end mark only for a start rule |
| Generator.EmittedImplements | lemon/lemon.c:3433-3590 | the emitted tables follow the automaton on terminals, gotos and accept |
| Generator.EmittedDecides | lemon/lemon.c:3433-3590 | for every state and symbol the tables answer with the winner among all raw actions, and on a symbol without one with the state's default |
| Generator.CompressedAnswers | lemon/lemon.c:3769-3816 | the default is the reduce by a rule with the most live reduces if some rule has two, else an error; the compressed list answers with it exactly where the resolved one has nothing |
| Generator.BuildTables | lemon/lemon.c:1436-1446 | least follow sets and the right outcome |
| Generator.TablesFor | lemon/lemon.c:1439-1446 | aborts exactly when some state has no action; else tables that implement the automaton and answer exactly, or a size that is too large for these states and follow sets |
| Generator.Generate | lemon/lemon.c:1426-1446 | exact nullable and first sets, the canonical LR(0) collection with state i in place i and exactly the valid items, exactly the LALR(1) lookaheads; the program aborts exactly when some state has no action, and otherwise has tables that answer for every state and symbol with the winner among all actions there, else the default, unless a size exceeds the sort or the C integers |
| Generator.GeneratedParsersAreSound | lemon/lempar.c:558-687 | for a canonical automaton and tables that implement it, along every run on every input: the stack derives the tokens shifted, nothing underflows, only derivable inputs are accepted, and only when nothing but the end mark is left |
| Language.TablesFollowPrecedence | lemon/lemon.c:886-1024 | on every symbol with actions the emitted tables have the one that precedence, associativity and rule numbers prefer |
| Language.AcceptsExactlyTheLanguage | lemon/lempar.c:558-687 | without conflicts, an input is accepted on some stack exactly when the grammar derives it |
| Language.AcceptsOnThisStack | lemon/lempar.c:391-429 | without conflicts, a sentence is accepted exactly when the stack has the entries that its tree needs; otherwise the stack overflows |
| Language.SyntaxErrorsAreReal | lemon/lempar.c:589-685 | without conflicts, when a syntax error is reported at a token, no derivable input has the same tokens up to there |
| Language.NoConflictsNoAmbiguity | lemon/lemon.c:886-940 | a grammar whose states have no two actions on a symbol is unambiguous |
| Completeness.ParsesTree | lemon/lempar.c:391-485 | in the midst of any derivation the driver reads exactly what a tree derives and pushes the tree |
| Completeness.TreeOverflows | lemon/lempar.c:391-429 | a tree that needs more entries than are left overflows the stack |
| ErrorDetection.RunTogether | lemon/lempar.c:589-685 | until a token is taken a run cannot tell inputs apart that agree up to it |
| Driver.Parser.constructor | lemon/lempar.c:235-242 | a fresh parser has an empty stack |
| Driver.Parser.YyShift | lemon/lempar.c:391-429 | pushes the entry, or empties the stack when it is full |
| Driver.Parser.YyReduce | lemon/lempar.c:446-485 | runs the rule's code, pops its right-hand side, follows the goto or accepts, as the step function says |
| Driver.Parser.Round | lemon/lempar.c:589-685 | one turn of the loop is one step, and tells whether the token was consumed |
| Driver.Parser.Parse | lemon/lempar.c:558-687 | one call runs the step function on the token; the end mark on a fresh parser does nothing |
| Driver.StepKeepsValid | lemon/lempar.c:391-485 | no step leaves the stack array or the states |
| Driver.RunSplit | lemon/lempar.c:589-685 | runs compose |
| Soundness.RightHandSideOnStack | lemon/lempar.c:446-485 | a finished item in the top state means that its right-hand side is on top of the stack, above the bottom |
| Soundness.CanonicalRemembers | lemon/lemon.c:765-808 | the canonical collection has what the driver relies on |
| Soundness.ReduceStep | lemon/lempar.c:446-485 | a reduce keeps the invariant or accepts a derivable string |
| Soundness.GoodStep | lemon/lempar.c:558-687 | every step keeps the invariant |
| Soundness.RunsAreSound | lemon/lempar.c:558-687 | the invariant holds along every run on every input |
| ParserRun.ParseInput | lemon/lempar.c:558-687 | a parser object called once per token, the end mark last, keeps the same invariant up to where it stops |
| ParserRun.RunGoesOn | lemon/lempar.c:558-687 | successive calls add up to one run of the step function on the whole input |
| Soundness.RuleLengthKeptIff | lemon/lempar.c:433-438 | the length of a right-hand side survives its unsigned char exactly below 256 |
| Calculator.CalcTablesConform | lemon/calculate_3.cpp:142-170 | the literal tables decide like the precedences of the grammar: POW right-associative and tightest, then unary minus, then TIMES and DIVIDE, then PLUS and MINUS |
| Calculator.ParenthesizeOk | lemon/calculate_3.cpp:506-523 | the added parentheses are enough and do not change the value |
| Calculator.ParenthesizeAddsNoMore | lemon/calculate_3.cpp:506-523 | parentheses are added exactly to expressions whose own do not suffice |
| Calculator.NeedByHeight | lemon/calculate_3.cpp:466-500 | two stack entries for every level of nesting are enough for an expression |
| Calculator.OperationValues | lemon/calculate_3.cpp:563-605 | the value of each operation, a division by zero having none |
| Calculator.ProductIsProduct | lemon/calculate_3.cpp:574-578 | rule 7 multiplies |
| CalculatorTheorem.ParseExpr | lemon/calculate_3.cpp:396-460 | in every context that is weak enough, the driver reads exactly the tokens of a printed expression and replaces them by its value |
| CalculatorTheorem.ReduceRule | lemon/calculate_3.cpp:531-624 | a reduce replaces the right-hand side by the value its code computes |
| CalculatorTheorem.ParseLine | lemon/calculate_3.cpp:550-624 | a line prints its value, or the program exits on a division by zero |
| CalculatorTheorem.SessionPrintsValues | lemon/calculate_3.cpp:705-834 | for any tables that decide by those precedences: a session of printed expressions prints their values line by line and is accepted, or exits at the first division by zero, when each expression needs at most 100 stack entries |
| CalculatorTheorem.CalculatorSession | lemon/calculate_3.cpp:142-170 | the same for the literal tables |
| HashTable.Table.Search | lemon/lemon.c:3972-3982 | walking the chain of a bucket finds the record of a key, or proves that there is none |
| HashTable.Table.Find | lemon/lemon.c:4018-4034 | the data of the only record with the key, nothing exactly when there is none |
| HashTable.Table.Grow | lemon/lemon.c:3983-4007 | doubling and chaining anew keeps the content and its order |
| HashTable.Table.Insert | lemon/lemon.c:3964-4017 | appends the pair exactly when the key is new, for any hash function and across a resize |
| HashTable.Table.Intern | lemon/lemon.c:3905-3917 | the address of the one record for the key, created if there was none |
| HashTable.Table.ArrayOf | lemon/lemon.c:4411-4422 | the data of all records in the order of their insertion |
| HashTable.Table.Clear | lemon/lemon.c:4553-4562 | the table is empty and keeps its size |
| HashTable.LinkKeepsChains | lemon/lemon.c:4008-4015 | linking a record in front keeps every chain |
| HashTable.OneAddressPerKey | lemon/lemon.c:3905-4035 | over any run of interning calls two calls return one address exactly when their keys are equal |
| Multipart.MpStream.constructor | cgic207/cgic.c:454-456 | a zeroed stream delivers the input up to the declared length |
| Multipart.MpStream.Read | cgic207/cgic.c:353-393 | delivers the next bytes of the virtual stream, pending ones first; offset plus pending equals fetched, which stays within the declared length; EOF exactly at that length |
| Multipart.MpStream.PutBack | cgic207/cgic.c:395-403 | the bytes become pending behind those that are; on an empty ring this undoes a read |
| Multipart.RingHoldsIff | cgic207/cgic.c:336-347 | the ring holds 1023 bytes: of n bytes, at most 1024, all are pending exactly when n is less than 1024 |
| Multipart.MpStream.Scan | cgic207/cgic.c:730-763 | terminates; a search with a calm ring finds the leftmost occurrence and emits what is before it |
| Multipart.MpStream.Tail | cgic207/cgic.c:764-777 | of the bytes behind a boundary all are left if they begin with a dash, else all but the first two |
| Multipart.MpStream.AnotherPart | cgic207/cgic.c:482-493 | the caller's check: the end exactly at two dashes or too little input, otherwise nothing is consumed |
| Multipart.DelimiterIsLine | cgic207/cgic.c:725-728 | the delimiter is CR, LF, two dashes and the boundary |
| Multipart.MpStream.AfterNextBoundary | cgic207/cgic.c:701-813 | with `first` zero, a boundary without CR and no CR pending but as the last byte: emits exactly the bytes before the leftmost delimiter and leaves the stream just behind it, an I/O error exactly when there is none or fewer than two bytes follow; the ring is then fit for the next call; the ring limit and termination hold on every path |
| Multipart.MissedInside | cgic207/cgic.c:745-757 | putting back all but the first byte of a false match keeps the stream in order |
| Multipart.AfterBoundaryIsUnique | cgic207/cgic.c:405-417 | the outcome is determined by the stream |
| Multipart.BodyEndsAtDelimiterIff | cgic207/cgic.c:725-758 | a body ends at the delimiter behind it exactly when the delimiter does not occur in it |
| Multipart.BodiesComeBack | cgic207/cgic.c:701-813 | the bodies of a message that do not contain the delimiter are read back one by one, and the stream is left at the two dashes behind the last delimiter |
| Multipart.EmitsIsUnique | cgic207/cgic.c:701-813 | and nothing else can be read |
| FormInput.UnescapeChars | cgic207/cgic.c:1104-1141 | the scanner with three states computes the meaning of the text |
| FormInput.ParseFormInput | cgic207/cgic.c:1002-1100 | the scanning loops compute the pairs of the form |
| FormInput.ReadPair | cgic207/cgic.c:1007-1050 | one name and one value; the equals sign may be missing |
| FormInput.EscapedComesBack | cgic207/cgic.c:1104-1141 | any style of escaping is undone |
| FormInput.FormComesBack | cgic207/cgic.c:1002-1100 | any form, fields without an equals sign included, parses to its fields up to the first one without a name |
| FormInput.PairOf | cgic207/cgic.c:1007-1050 | a name up to its equals sign, a value up to the next ampersand, further equals signs included |
| FormInput.PairOfName | cgic207/cgic.c:1015-1024 | a name without an equals sign has an empty value, and the ampersand behind it ends the field |
| FormInput.UnescapedEquations | cgic207/cgic.c:1104-1141 | a plus is a space, a percent sign takes two digits, an escape cut off stands for nothing, anything else for itself |
| FormInput.HexDigits | cgic207/cgic.c:1104-1141 | digits in both cases have their values, other characters none |
| FormInput.AllComeBackIff | cgic207/cgic.c:1026-1028 | all fields come back exactly when all have names |
| Base64.Encode | base64/base64.c:43-88 | writes the encoding and a terminator, and nothing behind them |
| Base64.TablesAgree | base64/base64.c:46-51 | the tables of encoder and decoder are inverse to each other |
| Base64.AlphabetIsStandard | base64/base64.c:46-51 | the alphabet and the padding are those of RFC 4648 |
| Base64.BlockIsNumber | base64/base64.c:57-82 | four characters hold the 24-bit number of the bytes of their block, six bits each, padded where bytes are missing |
| Base64.GroupIsNumber | base64/base64.c:117-170 | the bytes of a complete group are the leading ones of the number that its values form |
| Base64.NextChar | base64/base64.c:21-23 | skips whitespace; the text is read as its stripped form |
| Base64.ReadGroup | base64/base64.c:117-170 | one quadruplet: its bytes, whether it is complete, and where the next one starts |
| Base64.Decode | base64/base64.c:91-175 | the bytes of a well-formed text and their number, -1 exactly for any other text; never writes more than three quarters of the text's length |
| Base64Stream.DecodeToFile | base64/base64.c:179-276 | overruns its cache exactly when the group sizes do; otherwise return value and bytes written are those of base64_decode |
| Base64Stream.BlockComesBack | base64/base64.c:57-82 | one to three bytes come back from their four characters, whatever follows |
| Base64Stream.EncodedComesBack | base64/base64.c:43-175 | an encoding decodes to its bytes, before any further text |
| Base64Stream.ChunksComeBack | base64/base64.c:444-460 | separate encodings one after the other decode to the concatenation, padding in the middle included |
| Base64Files.StrippedSpread | base64/base64.c:21-23 | whitespace between the characters is invisible |
| Base64Files.SpreadChunksComeBack | base64/base64.c:91-175 | chunks with any whitespace inserted decode to their concatenation |
| Base64Files.TameNeverOverruns | base64/base64.c:257-264 | if padded groups and the group behind them never write more than five bytes, the offset never exceeds 1024 |
| Base64Files.LonePaddingIsSafe | base64/base64.c:257-264 | a text, accepted or not, without two neighbouring padded groups never overruns the cache |
| Base64Files.PaddedRunIsSafeIff | base64/base64.c:257-264 | padded groups before a full one are safe at every offset below the flush mark exactly when they write at most two bytes |
| Base64Files.PaddedNeighboursOverrun | base64/base64.c:257-264 | a text that the plain decoder accepts and on which the streaming decoder overruns |
| Base64Files.LongChunksAreTame | base64/base64.c:444-460 | chunks of three bytes or more, but for the last, are safe |
| Base64Files.EncodeFile | base64/base64.c:384-460 | -1 exactly for an empty file; otherwise the encodings of the file's chunks, of as many bytes as the int that counts them says |
| Base64Files.EncodedPartComesBack | base64/base64.c:179-276 | the encoding of any file is accepted, decodes to the bytes that were encoded, and the streaming decoder never overruns its cache on it |
| Base64Files.FileComesBackIff | base64/base64.c:432-460 | the file comes back exactly when it has fewer than 2^31 bytes |
| Base64Files.HugeFileIsLost | base64/base64.c:432-460 | from 2^31 bytes to below 2^32 nothing is written |
| PhaseLock.Search | open_ntpclient/phaselock.c:85-105 | the first later point of the smallest slope, or the last one of the largest slope, and its line |
| PhaseLock.LineMeans | open_ntpclient/phaselock.c:97-101 | a line's offset is its value at the newest measurement, and it rises by its slope |
| Envelope.BetweenIsBelow | open_ntpclient/phaselock.c:232-250 | a line through a vertex between the slopes of its two segments is below all points |
| Envelope.WrapStep | open_ntpclient/phaselock.c:238-248 | the next segment extends the envelope: it touches both ends, is below all sixteen points and is at least as steep |
| Envelope.CheckCrosses | open_ntpclient/phaselock.c:240-242 | a line that fits touches s.max without rising above it, and s.min later without falling below it |
| PhasePasses.Pass2 | open_ntpclient/phaselock.c:232-251 | at most 15 segments from the oldest to the newest point, slopes nondecreasing, every s.max point on or above every segment's line; at every vertex the last line of the largest slope to a later s.min point is checked; the line kept is a fitting one of the smallest slope, and none exactly when none fits |
| PhasePasses.Pass3 | open_ntpclient/phaselock.c:252-271 | the mirror image for s.min |
| PhasePasses.LowerMeans | open_ntpclient/phaselock.c:252-271 | in terms of s.min itself: all points on or below every line, slopes strictly decreasing |
| PhasePasses.KeepStep | open_ntpclient/phaselock.c:241-242 | the running choice is the choice over all vertices |
| PhaseLoop.Loop.Pass1 | open_ntpclient/phaselock.c:214-231 | limits one error bar around the centre; from one measurement to the next the centre moves by the skew and by the time times the frequency of the newer one against the current, over 65536 |
| PhaseLoop.Loop.Store | open_ntpclient/phaselock.c:207-212 | the new measurement replaces the oldest and the ring stays in order |
| PhaseLoop.Loop.Contemplate | open_ntpclient/phaselock.c:188-271 | over every run with increasing times: once 16 measurements are stored, each call corrects the ring and finds both envelopes and both crossing lines |

## Findings

Where code and documentation disagree, the model follows the code.

- `search` is documented to look for the largest slope when `sign` is 0; it looks for the smallest
  (`open_ntpclient/phaselock.c:83`, `open_ntpclient/phaselock.c:97`).
- Pass 3 keeps the crossing line of the smallest slope, like pass 2, although the passes mirror each
  other otherwise (`open_ntpclient/phaselock.c:262`).
- The put-back ring is documented to hold `sizeof(putback)` bytes; it holds one less
  (`cgic207/cgic.c:342-346`, `Multipart.RingHoldsIff`).
- `afterNextBoundary` is documented to skip the newline behind a boundary; it consumes any two
  bytes unless the first is a dash (`cgic207/cgic.c:764-777`).
- The streaming decoder can overrun its cache on texts that `base64_decode` accepts
  (`Base64Files.PaddedNeighboursOverrun`); on files that the repository's encoder writes it does not.
- `minimum_size_type` does not always choose the smallest type that holds the range
  (`Tables.SmallestTypeIff`).
- `msort` loses nodes from 2^30 nodes on (`MergeSort.SortKeepsAllNodesIff`).
- The counting test of the packed table needs sets with distinct lookaheads: one that holds a pair
  twice can pass it next to a foreign slot (`ActionTable.CountingNeedsDistinct`). Conflict resolution
  guarantees distinct lookaheads.
- The search for free slots passes over an offset whose preceding slot is free, because it compares
  -1 with -1 (`lemon/lemon.c:517-519`, `ActionTable.Acttab.FitsInEmpty`); only space is lost.
- `FindActions` asserts that every state has an action. The assertion can fail: a nonterminal that
  derives no string of terminals can leave a follow set empty (`lemon/lemon.c:931`,
  `Productivity.StuckGrammarAborts`).
- `base64_encode_to_file` counts the bytes of a large file in an `int`; a file of 2^31 bytes or more
  does not come back, although the function reports success (`base64/base64.c:432`,
  `Base64Files.FileComesBackIff`).
- A right-hand side of 256 symbols or more does not survive `yyRuleInfo`
  (`Soundness.RuleLengthKeptIff`); soundness is stated for shorter ones.

## Left out

- The grammar-file scanner, preprocessor, options, error messages, reports and the emission of C text.
- Linked lists are sequences, propagation links sets and then sequences: relinking in place and aliasing are not modelled.
- LinkBuilder.Follow: initial follow sets and links are made by the source's loops, but for all states after they are built, not interleaved with the recursion that builds them; the list of a propagation link is a set.
- Productivity.ProductiveNeverAborts: goes one way. A grammar with a symbol that derives no string of terminals may still leave an action in every state, for instance when the symbol occurs in unreachable rules only; the exact condition, Generator.ActionlessIff, speaks about states and follow sets.
- The library sort of the action sets is modelled by the project's own merge sort; the order of ties does not matter to any result.
- `%fallback`, `%destructor`, tracing and the report of rules that can never be reduced.
- Recovery from syntax errors: a syntax error ends the run, because the source looks up the error symbol, a nonterminal, in the table for terminals. Termination of the driver on inputs that are no sentences is not claimed.
- Language.AcceptsExactlyTheLanguage: stated, like the other results of completeness, for automata in which no state has two actions on a symbol before resolution. Where precedence resolves conflicts the language may shrink; soundness and Language.TablesFollowPrecedence cover those grammars.
- Generator.Generate: takes the grammar with the precedences of its rules, which Precedence.FindRulePrecedences computes.
- Driver.Parser.Parse: the loop takes a bound on its number of steps, since grammars with cycles can loop; what a call does after the bound is not described.
- Soundness.RunsAreSound: stated for grammars with right-hand sides of fewer than 256 symbols and the start symbol on no right-hand side, the latter being what the generator itself checks.
- ParserRun.ParseInput: stops where a call reaches that bound.
- StateBuilder.FindStates: stated for grammars with fewer than 2^30 items, the limit of the sort it uses.
- StateBuilder.Builder.GetState: back links are not made here but by LinkBuilder.BackLinks, so the copy into a state that exists already is not a step of its own.
- The `from` back links of the hash tables, allocation failure, and `hash & (size - 1)` as a bit operation: it is the remainder by a power of two.
- The calculator computes with reals instead of doubles; exponentiation is a parameter; its stack bound is a condition on the expression.
- `afterNextBoundary` with `first` nonzero is described only for a stream that begins with the delimiter; negative content lengths, header parsing, temporary files, the growing output buffer and the surrounding form list are not modelled.
- Form values with NUL bytes as C strings, and table indexes of 128 and more behind a percent sign.
- Base64Stream.DecodeToFile: its counters are unbounded, and the bytes already written when a text is rejected are not described.
- `base64_decode_lighttpd`, file handling, the size of the output buffers, and `base64_encode` and `base64_decode` on sizes beyond their C integers.
- Phase lock passes 4 and 5, rounding of doubles, wrap-around of the unsigned clock, and everything that talks to sockets or the system clock; equal timestamps, which would divide by zero.
- The SMS and sqlite programs, `buffer_data` and the remaining exercises of the repository.
