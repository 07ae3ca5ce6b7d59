# A verified model of a BDD-based CTL model checker and of the garbage collector it uses

The repository holds a small symbolic CTL model checker written in C and, in
`gc-7.4.2/`, the Boehm-Demers-Weiser conservative garbage collector that it is
built on.  This project models the parts of both whose correctness is not
evident from reading one function, and proves them.  `dafny verify
dfyconfig.toml` checks everything.

**The checker.**  A decision diagram is modelled as the set of assignments
that make it true, so that equality of diagrams is equality of boolean
functions.  `CtlSemantics` defines the temporal operators by finite and
infinite paths, without reference to the code; the transition relation need
not be total.  The evaluators, the symbolic images, the six fixed-point loops,
the pairing of primed and unprimed variables, the reachability loop and the
two verdicts are methods with the loops of the source.

| file | what it models |
|---|---|
| `BoolFunctions`, `SymbolicModel` | diagrams, and which states and steps they denote |
| `CtlSemantics`, `CtlOperators` | path semantics; `EX` to `AU` of `ctlmc.c` |
| `Tokenisation`, `Formulas`, `DdStack`, `CtlChecker`, `Outcomes` | from text to a set of states |
| `Variables`, `BddFromPrefix`, `Pairing`, `ModelChecker` | the shared variable table, pairing, reachability, the whole program |

**The marker.**  The heap is a finite graph of objects in blocks, whose words
may hold pointers.  `Marker` is the incremental state machine with a bounded
mark stack that overflows, loses entries and is rebuilt by rescanning.
`ParallelMark` is the work-stealing protocol as a transition system over
atomic steps of any number of threads; `ParallelCollection` puts it in its place in the
state machine.  `MarkDrain` says how high the mark stack gets, exactly, and
`Finalization` uses the marker to order finalization; `FinalizePhases` puts the
phases of `GC_finalize` together.

| file | what it models |
|---|---|
| `ObjectGraph` | heap, mark descriptors, reachability |
| `MarkDrain`, `Marker` | `mark.c`, one thread |
| `ParallelMark`, `ParallelRest`, `ParallelOverflow`, `SoloMarking`, `ParallelCollection` | `mark.c`, parallel marking |
| `FinalMarking`, `Finalization`, `FinalExample`, `DisappearingLinks`, `FinalizePhases` | `finalize.c` |

**The block allocator and the range tables.**  `BlockIndex` is the theory of
the address map (headers, forwarding counts, free blocks) as a value,
`FreeLists` that of the linked lists with their counts, `BlockHeap` the class
with the operations.  `HeaderIndex` is the two-level index behind the map, and
`IndexedHeap` the allocator on that index.

| file | what it models |
|---|---|
| `BlockIndex`, `FreeLists`, `BlockHeap` | `allchblk.c`, `GC_add_to_heap` |
| `HeaderIndex`, `IndexedHeap`, `ObjectBase` | `headers.c`, the allocator's calls to it, `GC_base` |
| `BlackLists`, `Exclusions` | `GC_is_black_listed`, root exclusions |

The main results:

- every fixed-point loop computes the path semantics of its operator, with a
  bound on the number of rounds (`CtlOperators`);
- the program's two verdicts are right, from the texts on the command line to
  paths in the transition graph (`ModelChecker.Run`);
- marking that reports its end has marked exactly what is reachable, however
  often the mark stack overflowed (`Marker.MarkMachine.StoppedMark`), and so has
  parallel marking in every interleaving (`ParallelMark.FinishedIsExact`), also
  where the state machine hands over to it (`ParallelCollection.MarkInParallel`); a
  parallel run becomes invalid if and only if a thread finds a stack too full, no run
  is ever stuck, and with large enough stacks there is one that finishes and stays
  valid (`ParallelOverflow.InvalidIff`, `NeverStuck`, `ParallelCollection.ValidRunExists`);
- however often the stack overflows, marking comes to its end if memory for a larger
  one is granted from some time on (`Marker.MarkMachine.MarkOn`);
- when the number of active threads is back at 0 no work is left, for good
  (`ParallelRest.NoneActiveMeansDone`, `QuietForGood`);
- the allocator keeps its invariant and its accounts, finds a block if and only if
  one would do, by the kind of request and the bits of the black lists
  (`AllochblkByTables`), and giving a block back at once restores the address map if and
  only if no black-listed block was dropped on the way (`BlockHeaps`);
- the two-level header index is a flat map, its scans are scans of that map
  (`HeaderIndices`), and the allocator's operations on it lead to just the maps
  above (`IndexedHeaps`); `GC_base` finds the unique object around an address;
- a mark stack overflows if and only if the height that marking needs exceeds its
  size; from that follows at which objects `GC_finalize` meets an overflow, and so
  which registered objects it queues (`MarkDrain`, `FinalMarking`, `Finalization`);
- after all phases of `GC_finalize` what survives is closed under pointers, no link
  outlives its object, none is remembered that lies in a dead one, and no word is
  touched but those of links that are cleared (`FinalizePhases`).

## Where the code and its comments differ

- `gc-7.4.2/mark.c:877-882` says that the number of active helpers stays 0 once
  it has returned to 0.  It does if and only if at that time no thread has joined
  without having begun, and none may still join (`ParallelRest.RisesAgainIff`);
  `ParallelRest.ActiveMayRiseAgain` is a run, starting with a root range on the
  stack, in which it rises.  No harm is done: all stacks are empty then, no thread
  holds words, and it stays so (`NoneActiveMeansDone`, `QuietForGood`).
- `gc-7.4.2/allchblk.c:351` says that free lists are sorted by address.  The code
  inserts at the head, so that a list stays sorted if and only if the block lies
  before all others on it (`FreeLists.AscendingPush`); two sections added in
  ascending order are enough to break it (`BlockHeaps.ListsOutOfOrder`).
- `gc-7.4.2/finalize.c:754-755` marks what is reachable by one or more pointers.
  When the mark stack overflows meanwhile, the macro `GC_MARK_FO` also marks the
  object it started from, which then is not queued in this collection although
  nothing reaches it.  An overflow happens at an object if and only if marking
  from it needs a higher stack than there is (`Finalization.MarkFo`), so none
  happens if and only if `FinalMarking.Calm` holds of heap, marks, registered
  objects and stack size.  The queue is right if and only if none of the objects
  at which an overflow happens should have been on it (`Finalizer.Finalize`).
  A mark stack with room for all unmarked objects that hold pointers is enough
  (`FinalMarking.AmpleIsCalm`), and if memory is granted the number of overflows is
  about the logarithm of the number of such objects (`FewOverflows`).  For every size of
  the mark stack there is a heap, a list longer than the stack, whose head is
  registered and unreached: the stack overflows there, and a call that finishes, as it
  does if memory is granted in the end, has marked the head and not queued it
  (`FinalizationExample.ListIsDelayed`).
- `gc-7.4.2/mark_rts.c:453` calls the check for overlapping exclusions
  incomplete.  For a sorted table it is complete
  (`Exclusions.ExclusionTable.Exclude`).

## Model

| member | source | states |
|---|---|---|
| `CtlSemantics.DeadlockInAF` | ctlmc.c:202-214 | a deadlocked state satisfies AF p for every p, even where p does not hold, and never EG p |
| `CtlSemantics.DeadlockInAU` | ctlmc.c:253-262 | a deadlocked state satisfies AU if and only if one of the two sides holds there |
| `CtlSemantics.EUUnfold` | ctlmc.c:242-251 | one round of the until step never leaves the set of states with a finite witnessing path |
| `CtlSemantics.EULeast` | ctlmc.c:242-251 | any set closed under that step contains all states with a witnessing path |
| `CtlSemantics.EGUnfold` | ctlmc.c:216-229 | states with an infinite path inside p survive a round from any larger set |
| `CtlSemantics.EGGreatest` | ctlmc.c:216-229 | a set whose states all have successors in it carries infinite paths: an infinite path is constructed |
| `CtlSemantics.AUUnfold` | ctlmc.c:253-262 | a round of the universal until never adds a state from which some maximal path refutes it; a deadlocked state makes AX true |
| `CtlSemantics.AULeast` | ctlmc.c:253-262 | any set closed under the universal step contains every state all of whose maximal paths satisfy the until |
| `CtlSemantics.AGUnfold` | ctlmc.c:231-240 | states all of whose finite paths stay in p survive a round from any larger set |
| `CtlSemantics.AGGreatest` | ctlmc.c:231-240 | a set inside p closed under successors holds only states all of whose finite paths stay in p |
| `CtlSemantics.AXDual` | ctlmc.c:177-186 | all successors satisfy p iff none satisfies not p |
| `CtlSemantics.AGDual` | ctlmc.c:231-240 | AG p is the complement of EF not p, for every relation, as path sets |
| `CtlSemantics.AFDual` | ctlmc.c:202-214 | AF p is the complement of EG not p |
| `CtlSemantics.AUDual` | ctlmc.c:253-262 | AU b q is the complement of EU (not q) (not b and not q) together with EG not q |
| `CtlSemantics.EFIsEU` | ctlmc.c:188-200 | EF is the until whose left side is true |
| `CtlSemantics.AFIsAU` | ctlmc.c:202-214 | AF is the universal until whose left side is true, also in relations with deadlocks |
| `CtlSemantics.MaximalPath` | ctlmc.c:253-262 | from every state there is a finite path into a deadlock or an infinite path |
| `CtlSemantics.UnrefutedHoldsAU` | ctlmc.c:253-262 | where no path refutes the until, it holds on every maximal path |
| `CtlSemantics.RefutedFailsAU` | ctlmc.c:253-262 | a finite or infinite refutation extends to a maximal path on which the until fails |
| `SymbolicModel.SwapExchangesStates` | ctlmc.c:164 | swapping the paired variables exchanges the current and the next state of an assignment |
| `SymbolicModel.AbstractElim` | ctlmc.c:168-172 | where a variable-by-variable abstraction holds, some change of the abstracted variables alone makes the diagram hold |
| `SymbolicModel.AbstractIntro` | ctlmc.c:168-172 | and it holds everywhere such a change exists |
| `SymbolicModel.PreImage` | ctlmc.c:156-175 | swap, conjoin with the transitions, abstract the primed variables: exactly the states with a successor in p, and nothing but unprimed variables matters |
| `SymbolicModel.ForwardImage` | aux.c:22-53 | conjoin, abstract the unprimed variables, swap: exactly the successors of the states, over unprimed variables |
| `SymbolicModel.ForwardPairImage` | aux.c:22-53 | for a diagram over primed and unprimed variables: exactly the states that those steps enter whose pair of states the diagram holds |
| `SymbolicModel.SameStatesSameDiagram` | ctlmc.c:195 | comparing diagrams decides equality of the sets of states they denote |
| `CtlOperators.StatesBounded` | ctlmc.c:188-262 | a diagram over n unprimed variables denotes at most 2^n states, all of the graph |
| `CtlOperators.StrictGrowth` | ctlmc.c:195-198 | two different diagrams of a growing chain differ by at least one state |
| `CtlOperators.FixedPointIsTarget` | ctlmc.c:188-262 | a fixed point of a round that approximates the path set from the right side is the path set |
| `CtlOperators.NextRound` | ctlmc.c:188-262 | each round of any of the six loops keeps approximating and changes the number of states strictly |
| `CtlOperators.LastRound` | ctlmc.c:188-262 | when a loop stops, its diagram denotes the path set of its operator |
| `CtlOperators.EX` | ctlmc.c:156-175 | the states with a successor in p |
| `CtlOperators.AX` | ctlmc.c:177-186 | the states all of whose successors are in p, deadlocks included |
| `CtlOperators.EF` | ctlmc.c:188-200 | the states with a finite path into p, after at most 2^n - \|p\| + 1 pre-images |
| `CtlOperators.AF` | ctlmc.c:202-214 | the states from which no infinite path avoids p, with the same bound; paths into a deadlock do not count against it |
| `CtlOperators.EG` | ctlmc.c:216-229 | the states with an infinite path inside p, after at most \|p\| + 1 pre-images |
| `CtlOperators.AG` | ctlmc.c:231-240 | the states all of whose finite paths end in p, after at most \|p\| + 1 pre-images |
| `CtlOperators.EU` | ctlmc.c:242-251 | the states with a finite path through the first set into the second, after at most 2^n - \|q\| + 1 pre-images |
| `CtlOperators.AU` | ctlmc.c:253-262 | the states all of whose maximal paths satisfy the until, where a path that ends in a deadlock also passes if the left side holds on all of it; with the same bound |
| `Tokenisation.SplitsIntoProperTokens` | tokenisation.c:52-86 | tokens are not empty and hold no space |
| `Tokenisation.SplitRender` | tokenisation.c:52-86 | splitting gives back the tokens printed, whatever the spacing between and around them |
| `Tokenisation.CountTokens` | tokenisation.c:59-67 | the first pass counts exactly the tokens that the second finds |
| `Tokenisation.NextToken` | tokenisation.c:71-82 | one strtok call returns the first remaining token and leaves the others |
| `Tokenisation.Tokenize` | tokenisation.c:52-86 | the tokens of the text, or an error exactly when one does not fit in MAX_VAR_LEN |
| `Tokenisation.GetUniqVars` | tokenisation.c:10-50 | the tokens that are not operators, each once |
| `Formulas.Classify` | ctlmc.c:53-142 | a token is read as an operator exactly when it is that operator's symbol; the order of the comparisons does not matter |
| `Formulas.ReadPostfix` | ctlmc.c:53-142 | reading the postfix form of a formula pushes that formula and touches nothing below it |
| `Formulas.PrintRead` | ctlmc.c:53-142 | whatever is read without error, printing the stack gives back the tokens |
| `Formulas.ParseIffPostfix` | ctlmc.c:144-149 | tokens parse to f if and only if they are the postfix form of f and f is in the language |
| `Formulas.ShortTexts` | bddFromPrefix.c:37-60 | which symbol stands for which boolean operator, in either language: `a b ^` is the exclusive or of a and b, and so on |
| `Formulas.ShortProperties` | ctlmc.c:53-128 | the same for the temporal operators; a name with a prime is an error in a property |
| `DdStacks.DdStack.constructor` | ddStack.c:5-8 | an empty stack of the given capacity |
| `DdStacks.DdStack.Push` | ddStack.c:10-18 | pushes if and only if there is room, and says so |
| `DdStacks.DdStack.Pop` | ddStack.c:20-26 | returns and removes the last element, or nothing when empty |
| `Variables.Find` | aux.c:12-20 | finds a variable by name exactly when there is one |
| `CtlChecker.SatisfiedUnary` | ctlmc.c:82-116 | a state satisfies NOT, EX, AX, EF, AF, EG, AG of a formula if and only if its successors, finite paths or infinite paths say so: each operator by its own condition on states and paths |
| `CtlChecker.SatisfiedBinary` | ctlmc.c:62-128 | the same for OR, AND, XOR, IFF by truth in the state, and for EU and AU by finite, deadlocked and infinite paths |
| `CtlChecker.SatInGraph` | ctlmc.c:45-153 | only states of the graph satisfy a formula |
| `CtlChecker.Unary` | ctlmc.c:82-116 | the diagram of a unary operator denotes the operator's meaning |
| `CtlChecker.Binary` | ctlmc.c:62-128 | the diagram of a binary operator denotes the operator's meaning; the operand popped first is the right one, so that EU and AU get theirs the right way round |
| `CtlChecker.Evaluate` | ctlmc.c:53-142 | one token: the diagrams on the stack keep denoting the formulas a reader of the tokens would hold, errors included |
| `CtlChecker.CheckTokens` | ctlmc.c:45-153 | the tokens of a formula give a diagram of exactly the states satisfying it; other tokens give the reader's error |
| `CtlChecker.Check` | ctlmc.c:30-154 | the same from text |
| `CtlChecker.PrintedFormulaReadsBack` | ctlmc.c:30-154 | a formula printed in postfix with any spacing tokenizes and parses to itself |
| `BddFromPrefixes.HoldsIs` | bddFromPrefix.c:37-57 | what each boolean operator says of truth values |
| `BddFromPrefixes.Environment.Node` | bddFromPrefix.c:62-90 | a known name keeps its node, a new one gets a fresh node at the end of the table; names stay distinct |
| `BddFromPrefixes.MeaningStable` | main.c:105-131 | a diagram keeps its meaning when the table grows |
| `BddFromPrefixes.StackStable` | bddFromPrefix.c:25-102 | so do all diagrams on the stack |
| `BddFromPrefixes.CombineHolds` | bddFromPrefix.c:37-57 | the binary operators on diagrams are those of formulas, operand order included |
| `BddFromPrefixes.BddFromPrefix` | bddFromPrefix.c:7-102 | the diagram is true exactly where the formula is, under the table as it is at the end; earlier entries do not move; exactly the formula's names are added; errors are the reader's |
| `Pairing.PairVariables` | main.c:147-181 | succeeds exactly when counts agree and every unprimed name has its primed one; position i of both arrays then holds a name and its primed form |
| `Pairing.PrimedCovered` | main.c:160-181 | equal counts leave no primed variable out |
| `Pairing.CounterpartsCover` | main.c:147-181 | the two arrays hold every variable's node exactly once, unprimed and primed apart |
| `ModelChecker.TranslatedImage` | aux.c:22-53 | exactly the successors of a set of states or, for a diagram over both kinds of variables, what the steps in it lead to |
| `ModelChecker.ReachableUnfold` | main.c:184-192 | successors of reachable states are reachable |
| `ModelChecker.ReachableLeast` | main.c:184-192 | a set that holds the initial states and is closed under successors holds all reachable ones |
| `ModelChecker.NextFrontier` | main.c:188-192 | taking the image of the last image only, not of everything reached, keeps what the loop needs |
| `ModelChecker.LastFrontier` | main.c:188-192 | when a round adds nothing to the diagram, all states reachable from the first image are there, even if the diagram held some pairs of them from the beginning |
| `ModelChecker.ClosureOfStates` | main.c:184-192 | what the loop ends with is, for a diagram of states, the set of states reachable from them |
| `ModelChecker.Reach` | main.c:184-192 | the loop ends with the initial diagram and exactly the states reachable by one step or more from it, so with all reachable states where it is one of states |
| `ModelChecker.PairMeaning` | main.c:105-131 | any formula denotes the pairs of current and next state in which it holds |
| `ModelChecker.TransitionMeaning` | main.c:115 | the steps of the graph are the pairs of states that satisfy the transition formula |
| `ModelChecker.StateMeaning` | main.c:111 | a formula over unprimed names denotes the states in which it holds |
| `ModelChecker.NameMeaning` | ctlmc.c:129-142 | a name as a property holds in the states that make its variable true |
| `ModelChecker.MeaningOfBoolean` | ctlmc.c:30-154 | a formula without temporal operators and primed names means the same to the checker of properties and to the evaluator of the model's texts |
| `ModelChecker.BuildModel` | main.c:88-131 | three evaluations share one table; each diagram means its formula under the final table; fails exactly on unreadable texts and on expected states with a new variable; all that is asked is that the names read fit in the array |
| `ModelChecker.Compare` | main.c:208-219 | the two comparisons of diagrams decide the two questions about the pairs of states they hold |
| `ModelChecker.VerdictsAboutStates` | main.c:208-219 | where initial and expected formula use unprimed names only, these are the two questions about sets of states |
| `ModelChecker.ReachedIs` | main.c:184-192 | a state is reached if and only if some path to it starts in a state in which the initial formula holds |
| `ModelChecker.VerdictsMean` | main.c:208-219 | the two verdicts state by state: every initial state satisfies the property; the expected states are just those on paths from initial ones that satisfy it |
| `ModelChecker.Judge` | main.c:135-219 | a verdict is reached exactly for paired variables and a readable property, and it is right, whatever names the formulas use |
| `ModelChecker.Run` | main.c:88-219 | from four texts: the initial states satisfy the property iff it says so, and the reachable satisfying states are the expected ones iff it says so, by path semantics over the graph of the transition formula; with primed names in the texts the same for pairs of states |
| `ObjectGraph.ReachLeast` | gc-7.4.2/include/private/gc_pmark.h:442-446 | a set closed under pointers that holds the seeds holds all that is reachable |
| `ObjectGraph.ReachIsClosed` | gc-7.4.2/include/private/gc_pmark.h:442-446 | what is reachable is closed under pointers |
| `ObjectGraph.ReachUnion` | gc-7.4.2/finalize.c:754-770 | what is reachable from two sets is reachable from one of them |
| `ObjectGraph.ReachThrough` | gc-7.4.2/finalize.c:754-755 | following any number of pointers is staying or following at least one |
| `ObjectGraph.RootIs` | gc-7.4.2/mark_rts.c:754-820 | a root object is one found on a stack, or pointed to by a word inside a root range |
| `ObjectGraph.PointsIff` | gc-7.4.2/mark.c:622-868 | an object points to another exactly by a word that the descriptor of its block picks |
| `ObjectGraph.BeyondIs` | gc-7.4.2/finalize.c:754-755 | what lies beyond a set of objects are the ends of paths of one pointer or more |
| `MarkDrain.RoundLooked` | gc-7.4.2/mark.c:622-868 | without a limit, one round marks exactly the targets of the words looked at, leaves the other entries and the rest of a long range, and adds one entry for each new target with pointers |
| `MarkDrain.RoundProgress` | gc-7.4.2/mark.c:607-870 | each round marks something new or leaves less on the stack, so emptying the stack ends |
| `MarkDrain.PeakBounded` | gc-7.4.2/include/private/gc_pmark.h:117-129 | the stack never holds more than what it started with and one entry for each newly marked object with pointers |
| `Marker.MarkMachine.PushObj` | gc-7.4.2/include/private/gc_pmark.h:117-129 | pushes the contents of an object with pointers; at a full stack, and only then, entries are lost and the state becomes invalid |
| `Marker.MarkMachine.PushContents` | gc-7.4.2/include/private/gc_pmark.h:135-143 | the object a word points to is marked afterwards, and no marked object is left untraced unless the state is invalid |
| `Marker.MarkMachine.MarkAndPush` | gc-7.4.2/mark.c:1356-1377 | the same for a given object; one entry per newly marked object with pointers |
| `Marker.MarkMachine.FindDeferred` | gc-7.4.2/mark.c:803-830 | behind the last plausible word of a range there is no pointer, so that the range may end there |
| `Marker.MarkMachine.ScanWord` | gc-7.4.2/mark.c:790-868 | one word: stack and marks become those of the drain without a limit, or an overflow has happened |
| `Marker.MarkMachine.ScanRange` | gc-7.4.2/mark.c:790-868 | all words of a range lead to marked objects afterwards; an overflow happens if and only if the new targets do not fit |
| `Marker.MarkMachine.ScanBitmap` | gc-7.4.2/mark.c:691-724 | the same for the words a bit map picks |
| `Marker.MarkMachine.MarkFromEntry` | gc-7.4.2/mark.c:636-868 | an entry that has been taken off, or the first words of a long one: stack and marks become those of a round, unless they do not fit |
| `Marker.MarkMachine.MarkFromTop` | gc-7.4.2/mark.c:622-868 | one round: nothing pending is forgotten; marks grow or less is left on the stack; the state becomes invalid if and only if the stack this round needs is higher than the capacity, and otherwise stack and marks are exactly those of the round |
| `Marker.MarkMachine.MarkFrom` | gc-7.4.2/mark.c:607-870 | the same for a whole call, which makes progress if there is an entry; wherever the work limit ends it, whether emptying the stack overflows it was decided at its beginning; entries and unmarked objects with pointers together do not become more |
| `Marker.MarkMachine.RoundOnCourse` | gc-7.4.2/mark.c:576-591 | a round comes to an overflow only if emptying the stack has to; if it has not yet, an overflow is still to come exactly if it was before |
| `Marker.MarkMachine.PushMarked` | gc-7.4.2/mark.c:1727-1775 | afterwards the marked objects of the block need no exemption from the invariant; at most one entry for each object of it is added |
| `Marker.MarkMachine.NextUsedBlock` | gc-7.4.2/headers.c:337-368 | the first block at or above an address |
| `Marker.MarkMachine.PushNextMarked` | gc-7.4.2/mark.c:1835-1846 | a rescan step: only blocks from the returned address on may still hold untraced marked objects |
| `Marker.MarkMachine.PushNextMarkedUncollectable` | gc-7.4.2/mark.c:1883-1908 | the same for blocks of uncollectable objects |
| `Marker.MarkMachine.PushRoots` | gc-7.4.2/mark_rts.c:754-820 | the root words are pending and the objects found on stacks are marked, unless a root range did not fit |
| `Marker.MarkMachine.AllocMarkStack` | gc-7.4.2/mark.c:1187-1236 | the stack grows if memory is granted; the request is forgotten in either case |
| `Marker.MarkMachine.FinishedIsExact` | gc-7.4.2/mark.c:385-393 | an empty stack in state MS_ROOTS_PUSHED means that exactly the live objects are marked |
| `Marker.MarkMachine.MarkSome` | gc-7.4.2/mark.c:309-428 | every step of the state machine keeps the invariant of the state it goes to, and reports the end only when exactly the live objects are marked; every step brings the end nearer if memory is granted when asked for; a root range fails to fit only in a stack smaller than all marked objects, root ranges and objects with pointers need |
| `Marker.MarkMachine.MarkingIsProgress` | gc-7.4.2/mark.c:402-405 | marking from the stack leaves less to be done, or leads to an overflow of a stack that is too small |
| `Marker.MarkMachine.ScanIsProgress` | gc-7.4.2/mark.c:414 | so does pushing the marked objects of the next block |
| `Marker.MarkMachine.RootsAreProgress` | gc-7.4.2/mark.c:415-421 | and pushing the roots at the end of a scan |
| `Marker.MarkMachine.Rescan` | gc-7.4.2/mark.c:406-413 | starting anew doubles the stack if an overflow has asked for that and memory is granted, and is progress then |
| `Marker.MarkMachine.MarkOn` | gc-7.4.2/mark.c:309-428 | with memory granted, stepping comes to an end: marks are exact, or a root range did not fit, which cannot be if there is none or the stack is large enough |
| `Marker.MarkMachine.ClearMarks` | gc-7.4.2/mark.c:226-232 | a mark survives if and only if the object's block is of kind UNCOLLECTABLE or AUNCOLLECTABLE, and the machine may be started |
| `Marker.MarkMachine.InvalidateMarkState` | gc-7.4.2/mark.c:570-574 | the state is invalid and the stack empty |
| `Marker.MarkMachine.StoppedMark` | gc-7.4.2/alloc.c:586-684 | for every stack size, stop function and outcome of enlarging the stack: marks of objects of both uncollectable kinds survive, also to the end; whatever is marked has a pointer path to it from a root or from a marked uncollectable object, and if marking finished every object with such a path is marked; it finishes if it is not stopped, memory is granted from some step on, and the root ranges fit |
| `Marker.MarkMachine.MarkUntilStopped` | gc-7.4.2/alloc.c:624-637 | the stepping of a stopped mark: sound wherever it is stopped, exact when it finishes |
| `Marker.LedToIff` | gc-7.4.2/mark.c:166-175 | reachable from roots and surviving marks is: led to by a pointer path from a root or a marked object of an uncollectable kind |
| `ParallelMark.LoadDescrKeeps` | gc-7.4.2/mark.c:897-927 | reading a descriptor of the global stack keeps the invariant |
| `ParallelMark.TakeEntryKeeps` | gc-7.4.2/mark.c:908-923 | clearing it and copying the entry does too, even when two threads take the same entry |
| `ParallelMark.DivideTopKeeps` | gc-7.4.2/mark.c:654-675 | halving a long range on a local stack keeps it |
| `ParallelMark.PopTopKeeps` | gc-7.4.2/mark.c:622-690 | so does taking the top entry or the first words of it |
| `ParallelMark.LookAtKeeps` | gc-7.4.2/mark.c:790-868 | so does looking at a word, whose object another thread may mark meanwhile |
| `ParallelMark.SetMarkKeeps` | gc-7.4.2/mark.c:790-868 | so does setting a mark, perhaps twice |
| `ParallelMark.PushMarkedKeeps` | gc-7.4.2/include/private/gc_pmark.h:117-129 | so does pushing, with the loss of entries on overflow |
| `ParallelMark.ReturnKeeps` | gc-7.4.2/mark.c:931-958 | giving local entries back loses none, or makes the state invalid |
| `ParallelMark.ControlKeeps` | gc-7.4.2/mark.c:1014-1181 | joining, becoming active and inactive, reading and raising the first nonempty position by compare-and-swap, waiting and leaving keep the invariant |
| `ParallelMark.NobodyActive` | gc-7.4.2/mark.c:1065-1098 | a thread that leaves because nobody is active leaves no work behind |
| `ParallelMark.StepKeeps` | gc-7.4.2/mark.c:897-1181 | every atomic step of every thread keeps the invariant |
| `ParallelMark.RunKeeps` | gc-7.4.2/mark.c:1119-1181 | it holds in every state of every run, with any number of threads |
| `ParallelMark.NoWorkLostInAnyRun` | gc-7.4.2/mark.c:897-1181 | in every valid state of every run a word of a marked object or root that leads to an unmarked object is with an active thread, or in an entry at or above the first nonempty position |
| `ParallelMark.FinishedMeansDone` | gc-7.4.2/mark.c:1139-1152 | when the initiating thread sees no helper left, all stacks are empty and, unless invalid, marks are closed under pointers |
| `ParallelMark.MarksGrow` | gc-7.4.2/mark.c:897-1181 | marks are never taken back during a run |
| `ParallelMark.FinishedIsExact` | gc-7.4.2/mark.c:1119-1152 | a finished valid run has marked exactly what is reachable from the marks at its start and the roots |
| `ParallelRest.LedInRun` | gc-7.4.2/mark.c:1027-1051 | while a thread is active and the first nonempty position is not behind the top, some active thread will not go past it: a failed compare-and-swap means that another one raised it |
| `ParallelRest.LastActive` | gc-7.4.2/mark.c:1065-1098 | the number of active threads comes back to 0 only by a thread that has rechecked the first nonempty position |
| `ParallelRest.NoneActiveMeansDone` | gc-7.4.2/mark.c:877-882 | in every run, when it does, all stacks are empty, no thread holds words, and the first nonempty position is behind the top |
| `ParallelRest.QuietKept` | gc-7.4.2/mark.c:877-882 | no step brings work back, or sets a mark |
| `ParallelRest.QuietForGood` | gc-7.4.2/mark.c:877-882 | nor does the rest of any run |
| `ParallelRest.RisesIff` | gc-7.4.2/mark.c:1014-1025 | from a state without work and active threads the number can rise if and only if a thread has joined and not begun, or may still join |
| `ParallelRest.RisesAgainIff` | gc-7.4.2/mark.c:877-882 | so in any run in which it has come back to 0: the comment is right exactly if there is no such thread |
| `ParallelRest.LeavingFirst` | gc-7.4.2/mark.c:1080-1098 | that the last active thread leaves before it gives up the lock makes no difference to this |
| `ParallelRest.ActiveMayRiseAgain` | gc-7.4.2/mark.c:877-882 | a run from a stack with a root range in which the number goes from 0 to 1, back to 0, the thread that was active leaves, and the number rises to 1 again |
| `ParallelOverflow.InvalidStep` | gc-7.4.2/mark.c:576-591 | a step makes a valid state invalid if and only if a thread pushes an object with pointers onto a stack that is full, or gives back more entries than there is room for |
| `ParallelOverflow.InvalidIff` | gc-7.4.2/mark.c:931-958 | in any run that starts valid a state is invalid if and only if at some earlier step that has happened, told by the heights of the stacks |
| `ParallelOverflow.PushHeight` | gc-7.4.2/include/private/gc_pmark.h:117-129 | a push adds one entry to the stack; to a full one after giving up the entries on top |
| `ParallelOverflow.DroppedInvalid` | gc-7.4.2/mark.c:943-947 | a run in which entries given back were dropped is invalid at its end |
| `ParallelOverflow.MayShare` | gc-7.4.2/mark.c:966-1012 | between two entries a thread may give back all of a stack more than half full, or the lower half of one with more than two entries, if there is room: just these entries go to the end of the global stack; an idle thread may join while help is wanted |
| `ParallelOverflow.WaitingCanMove` | gc-7.4.2/mark.c:1065-1098 | a waiting thread can go on if and only if nobody is active or the first nonempty position is not behind the top |
| `ParallelOverflow.ThreadsGoOn` | gc-7.4.2/mark.c:1014-1109 | in every state of every run a thread that helps can take a step, unless it waits while others are active and the global stack is empty |
| `ParallelOverflow.NeverStuck` | gc-7.4.2/mark.c:1119-1152 | no run, with any number of threads, is ever stuck before it is finished |
| `SoloMarking.DividedFits` | gc-7.4.2/mark.c:654-675 | dividing a long range never makes more pieces than its share of the stack, and leaves less to do |
| `SoloMarking.PoppedFits` | gc-7.4.2/mark.c:622-690 | neither does taking an entry or the first words of it |
| `SoloMarking.ShareMoves` | gc-7.4.2/mark.c:790-868 | marking an object moves its share of the stack from the unmarked objects to the push to come |
| `SoloMarking.Next` | gc-7.4.2/mark.c:1014-1109 | the initiating thread alone can always take a step that keeps its stack below half and comes nearer to the end |
| `SoloMarking.Complete` | gc-7.4.2/mark.c:1119-1152 | by such steps it comes to a finished and valid state |
| `ParallelCollection.RootsPushedIsStart` | gc-7.4.2/mark.c:361-382 | in state MS_ROOTS_PUSHED the mark stack meets what the parallel protocol needs at its start |
| `ParallelCollection.RunOutcome` | gc-7.4.2/mark.c:1119-1152 | a finished run marks only live objects, and all of them unless it is invalid |
| `ParallelCollection.ValidRunExists` | gc-7.4.2/mark.c:1119-1152 | for every heap, mark stack and number of threads there is, if the stacks are large enough, a run from the handed-over stack that finishes and stays valid |
| `ParallelCollection.ExactRunExists` | gc-7.4.2/mark.c:361-382 | so there is a run that marks exactly the live objects |
| `ParallelCollection.MarkInParallel` | gc-7.4.2/mark.c:361-382 | the state machine with parallel marking: it reports the end if and only if no thread found a stack too full, with exactly the live objects marked; a larger stack is asked for where entries given back were dropped; otherwise the stack is empty, the state invalid, and its invariant holds |
| `BlockIndexes.BlocksExact` | gc-7.4.2/include/private/gc_priv.h:993 | rounding up leaves whole blocks alone |
| `BlockIndexes.DividedShape` | gc-7.4.2/allchblk.c:530-559 | cutting a free block in two gives a well-formed map with the same free block numbers |
| `BlockIndexes.MergedShape` | gc-7.4.2/allchblk.c:855-877 | so does merging two adjacent ones |
| `BlockIndexes.AllocatedShape` | gc-7.4.2/allchblk.c:790-798 | a header and capped forwarding counts take exactly the block's numbers out of the free ones |
| `BlockIndexes.FreedShape` | gc-7.4.2/allchblk.c:831-851 | removing the counts adds exactly the block's numbers to the free ones |
| `BlockIndexes.AddedShape` | gc-7.4.2/alloc.c:1066-1080 | a new section adds exactly its numbers |
| `BlockIndexes.DroppedShape` | gc-7.4.2/allchblk.c:739-762 | a block dropped in single pieces leaves the free ones entirely |
| `FreeLists.ListFor` | gc-7.4.2/allchblk.c:84-91 | the index is one of the N_HBLK_FLS + 1 lists |
| `FreeLists.ListForIs` | gc-7.4.2/allchblk.c:84-91 | the lists in numbers: one size each up to 32 blocks, then eight sizes each, and a last one from 256 blocks on |
| `FreeLists.ListOrder` | gc-7.4.2/allchblk.c:84-91 | longer blocks are never on earlier lists, and the first lists hold one size each |
| `FreeLists.UnlinkKeeps` | gc-7.4.2/allchblk.c:293-314 | removing a block relinks its list both ways and leaves the other lists alone |
| `FreeLists.PushKeeps` | gc-7.4.2/allchblk.c:353-381 | so does inserting at the head |
| `FreeLists.AscendingPush` | gc-7.4.2/allchblk.c:350-381 | after it the list is in address order if and only if it was and the block comes before its head |
| `FreeLists.AscendingKept` | gc-7.4.2/allchblk.c:293-314 | removing a block keeps the order, and so does putting its second part in its place |
| `FreeLists.SwapKeeps` | gc-7.4.2/allchblk.c:538-550 | so does putting one block in the place of another |
| `FreeLists.ListsCountFree` | gc-7.4.2/checksums.c:159-173 | the byte counts of all lists add up to the free part of the heap |
| `BlockHeaps.BlockHeap.constructor` | gc-7.4.2/allchblk.c:54-64 | an empty heap meets the invariant |
| `BlockHeaps.BlockHeap.RemoveFromFlAt` | gc-7.4.2/allchblk.c:293-314 | the block leaves its list and the list's count |
| `BlockHeaps.BlockHeap.RemoveFromFl` | gc-7.4.2/allchblk.c:317-320 | the same when the list is found by the block's size |
| `BlockHeaps.BlockHeap.AddToFl` | gc-7.4.2/allchblk.c:353-381 | the block becomes the head of the list for its size |
| `BlockHeaps.BlockHeap.InstallCounts` | gc-7.4.2/headers.c:273-287 | exactly the forwarding counts of the block, capped |
| `BlockHeaps.BlockHeap.RemoveCounts` | gc-7.4.2/headers.c:299-305 | clears them |
| `BlockHeaps.BlockHeap.PrevBlock` | gc-7.4.2/headers.c:373-402 | the last block that starts at or before an address |
| `BlockHeaps.BlockHeap.FollowForward` | gc-7.4.2/allchblk.c:328-332 | capped counts lead, in finitely many jumps, to the header of the block around a number |
| `BlockHeaps.BlockHeap.FreeBlockEndingAt` | gc-7.4.2/allchblk.c:323-348 | the free block that ends at an address, if and only if there is one |
| `BlockHeaps.BlockHeap.Coalesce` | gc-7.4.2/allchblk.c:852-877 | no two free blocks are adjacent afterwards; the same block numbers are free and the same blocks allocated |
| `BlockHeaps.BlockHeap.Freehblk` | gc-7.4.2/allchblk.c:825-884 | the invariant is kept; exactly the block's numbers become free and it alone stops being allocated |
| `BlockHeaps.BlockHeap.Release` | gc-7.4.2/allchblk.c:825-884 | any allocated block of a valid heap may be freed, with these effects |
| `BlockHeaps.BlockHeap.AddToHeap` | gc-7.4.2/alloc.c:1045-1080 | exactly the usable part of the section is added, free and merged; the first two block numbers and a last one that ends the address space are left out |
| `BlockHeaps.CarvedMeets` | gc-7.4.2/allchblk.c:691-785 | allocating any part of a free block leaves no two free blocks adjacent |
| `BlockHeaps.BlockHeap.SplitBlock` | gc-7.4.2/allchblk.c:530-559 | the second part takes the block's place on its list, the first goes to its own list |
| `BlockHeaps.BlockHeap.GetFirstPart` | gc-7.4.2/allchblk.c:489-514 | the wanted part is off all lists, the rest on the list for its size |
| `BlockHeaps.BlockHeap.AllocateAt` | gc-7.4.2/allchblk.c:691-815 | the invariant is kept; exactly the wanted block numbers change hands |
| `BlockHeaps.BlockHeap.DropBlock` | gc-7.4.2/allchblk.c:739-768 | a black-listed block is dropped as allocated single blocks; the accounts still balance |
| `BlockHeaps.BlockHeap.FirstStart` | gc-7.4.2/allchblk.c:684-688 | the first start in the block that is not black-listed, or one too late: every start before it is black-listed |
| `BlockHeaps.BlockHeap.SuccessorBetter` | gc-7.4.2/allchblk.c:664-673 | a block is passed over only for a shorter successor that would do itself |
| `BlockHeaps.BlockHeap.Judge` | gc-7.4.2/allchblk.c:654-773 | a start that is taken fits and, if it matters, is not black-listed; a block that would do is skipped only if the next one on the list would do too; only a block that would not do is dropped |
| `BlockHeaps.BlockHeap.AllochblkNth` | gc-7.4.2/allchblk.c:640-816 | the invariant and the accounts are kept; a block on the list is found if and only if one would do, black list included; no block that would do is dropped |
| `BlockHeaps.SplitLimitIs` | gc-7.4.2/allchblk.c:594-618 | the last list whose blocks are split, in each of the three cases |
| `BlockHeaps.LastEnough` | gc-7.4.2/allchblk.c:66-81 | the largest list from which on there are enough free bytes, or 0 |
| `BlockHeaps.LimitShrinks` | gc-7.4.2/allchblk.c:596-612 | with fewer free blocks on each list no longer ones are split: dropping blocks never widens the search |
| `BlockHeaps.BlockHeap.EnoughLargeBytesLeft` | gc-7.4.2/allchblk.c:69-81 | the loop computes it |
| `BlockHeaps.FirstSearch` | gc-7.4.2/allchblk.c:590-593 | the search for an exact match uses a block of exactly the size wanted, or there is none that would do |
| `BlockHeaps.NoListNoBlock` | gc-7.4.2/allchblk.c:618-627 | when the lists from the start on are searched in vain, no block belonging to a list up to the limit would do |
| `BlockHeaps.WholeHeapFits` | gc-7.4.2/allchblk.c:596-600 | with the limit at the last list that means: no free block at all is long enough and, unless exempt, has a start that is not black-listed |
| `BlockHeaps.BlockHeap.SplitUpTo` | gc-7.4.2/allchblk.c:595-612 | the last list whose blocks may be split |
| `BlockHeaps.BlockHeap.Allochblk` | gc-7.4.2/allchblk.c:575-629 | complete: a request fails if and only if no free block of exactly the size would do and none within the split limit would, black list included; the limit is the one before the call unless single blocks were dropped; a failure without such drops changes nothing; exact matches come first; the result is not black-listed; allocated, dropped and free block numbers balance |
| `BlockHeaps.BlockHeap.AllochblkByTables` | gc-7.4.2/allchblk.c:575-816 | with the bit tables, kind by kind: an ordinary request gets a place none of whose wanted blocks is listed, and fails, when the whole heap may be used, if and only if there is none; uncollectable and small pointer-free requests take any block that is long enough; a block of exactly the size, if one would do, is taken before any is split; what is dropped is listed, one block was wanted, and leaks are not being looked for |
| `BlockHeaps.BlockHeap.SplitSearch` | gc-7.4.2/allchblk.c:619-628 | the second loop: nothing that would do is passed by on the lists up to the limit |
| `BlockHeaps.DroppedListed` | gc-7.4.2/allchblk.c:741-771 | only listed blocks are dropped, and none while leaks are looked for |
| `BlockHeaps.MapDetermined` | gc-7.4.2/allchblk.c:852-877 | the allocated blocks and the set of free numbers determine the whole address map, since free blocks are maximal |
| `BlockHeaps.BlockHeap.AllocateAndRelease` | gc-7.4.2/allchblk.c:575-884 | freeing what was just allocated restores the address map, whatever was split and merged, if and only if no black-listed block was dropped; the free numbers are those before less the dropped ones |
| `BlockHeaps.ListsOutOfOrder` | gc-7.4.2/allchblk.c:350-381 | after two sections have been added the list of single blocks holds the higher one first |
| `BlockHeaps.CheckBlocks` | gc-7.4.2/checksums.c:149-173 | used plus free is the heap size, and the lists' counts sum to the free total |
| `BlockHeaps.FromTablesOk` | gc-7.4.2/blacklst.c:220-257 | the bit tables give what the allocator needs: later candidates that skip black-listed starts only, no objection to fewer blocks, and no stack-listed number in an accepted block |
| `BlockHeaps.TablesSay` | gc-7.4.2/blacklst.c:220-257 | the table does not object to a place if and only if no block of it is listed for stack words, nor, unless all interior pointers count, its first one for heap words |
| `HeaderIndices.KeysBetween` | gc-7.4.2/headers.c:278-281 | probing every BOTTOM_SZ-th block and the last one meets every bottom index of a block |
| `HeaderIndices.OrderedInsert` | gc-7.4.2/headers.c:236-250 | a bottom index is linked into the ascending list, both ways, the end pointer included |
| `HeaderIndices.HashedInsert` | gc-7.4.2/headers.c:214-227 | and into its own hash chain, without disturbing the others |
| `HeaderIndices.HeaderIndex.HasBottom` | gc-7.4.2/include/private/gc_hdrs.h:174-182 | walking a hash chain finds a bottom index exactly when there is one |
| `HeaderIndices.HeaderIndex.GetIndex` | gc-7.4.2/headers.c:206-252 | there is a bottom index for the address afterwards and the map is as before |
| `HeaderIndices.HeaderIndex.Hdr` | gc-7.4.2/include/private/gc_hdrs.h:155-164 | looking up the two levels is looking up the flat map |
| `HeaderIndices.HeaderIndex.SetHdr` | gc-7.4.2/include/private/gc_hdrs.h:168-200 | setting is an update of the flat map; where there is no bottom index, 0 may be stored, which changes nothing |
| `HeaderIndices.HeaderIndex.InstallHeader` | gc-7.4.2/headers.c:257-270 | the flat map gets the header |
| `HeaderIndices.HeaderIndex.RemoveHeader` | gc-7.4.2/headers.c:290-296 | and loses it |
| `HeaderIndices.HeaderIndex.CoverBlock` | gc-7.4.2/headers.c:278-281 | every number of the block has a bottom index |
| `HeaderIndices.HeaderIndex.InstallCounts` | gc-7.4.2/headers.c:273-287 | the flat map gets exactly the block's forwarding counts, across bottom indices |
| `HeaderIndices.HeaderIndex.RemoveCounts` | gc-7.4.2/headers.c:299-305 | and loses them; also for a new section without bottom indices, where zeros go to the shared empty one |
| `HeaderIndices.HeaderIndex.NextUsedBlock` | gc-7.4.2/headers.c:337-368 | the least allocated block at or above an address, or 0 if and only if there is none |
| `HeaderIndices.HeaderIndex.PrevBlock` | gc-7.4.2/headers.c:373-402 | the greatest block start, free or allocated, at or below it, or 0 |
| `HeaderIndices.HeaderIndex.ApplyToAllBlocks` | gc-7.4.2/headers.c:309-333 | every allocated block is visited exactly once, and nothing else |
| `IndexedHeaps.FreeBlockEndingAt` | gc-7.4.2/allchblk.c:323-348 | on the two-level index: the free block that ends where a block starts, if and only if there is one |
| `IndexedHeaps.FreeBlock` | gc-7.4.2/allchblk.c:825-884 | freeing on the two-level index: just the block's numbers become free, no two free blocks are adjacent |
| `IndexedHeaps.CarveBlock` | gc-7.4.2/allchblk.c:775-798 | cutting and installing counts on it gives the map of the flat allocation |
| `IndexedHeaps.BlockLost` | gc-7.4.2/allchblk.c:739-768 | a free block of which one number is dropped is dropped as a whole |
| `IndexedHeaps.DropAll` | gc-7.4.2/allchblk.c:739-768 | all dropped blocks get single headers, the others stay as they are |
| `IndexedHeaps.TakeBlock` | gc-7.4.2/allchblk.c:775-798 | the free block around the block found is cut, and just the numbers wanted are taken |
| `IndexedHeaps.AddSection` | gc-7.4.2/alloc.c:1066-1080 | a new section is given a header and freed, before any of its numbers has a bottom index |
| `IndexedHeaps.SameServed` | gc-7.4.2/allchblk.c:575-629 | what an allocation has to do determines the map afterwards |
| `IndexedHeaps.IndexedHeap.constructor` | gc-7.4.2/headers.c:189-201 | an empty index stands for the empty map |
| `IndexedHeaps.IndexedHeap.Release` | gc-7.4.2/allchblk.c:825-884 | freeing leaves the same map in both |
| `IndexedHeaps.IndexedHeap.AddToHeap` | gc-7.4.2/alloc.c:1045-1080 | so does adding a section |
| `IndexedHeaps.IndexedHeap.Allochblk` | gc-7.4.2/allchblk.c:575-816 | and allocating, dropped blocks included, with the condition for failure |
| `ObjectBases.InObjectsBlock` | gc-7.4.2/misc.c:432-442 | the block number of an address inside an object belongs to the object's block |
| `ObjectBases.ObjectAtIs` | gc-7.4.2/misc.c:443-459 | the objects of a block start at multiples of their size behind its start and do not cross the end of a block of small ones |
| `ObjectBases.UniqueObject` | gc-7.4.2/misc.c:445-457 | no address is in two objects |
| `ObjectBases.FollowForward` | gc-7.4.2/misc.c:438-442 | following capped counts ends at the header of the block around the number |
| `ObjectBases.NearUnique` | gc-7.4.2/misc.c:445-451 | the remainder computation names the only candidate |
| `ObjectBases.Base` | gc-7.4.2/misc.c:422-459 | the base of the object that contains the address, or 0 if and only if none does |
| `BlackLists.BlackListedIs` | gc-7.4.2/blacklst.c:220-226 | 0 if and only if no number in range is listed; otherwise a later one such that every start before it is listed too |
| `BlackLists.ClearWord` | gc-7.4.2/blacklst.c:242-245 | a word of zeros clears all numbers up to the next word, around the end of the table too |
| `BlackLists.ListedByOneBit` | gc-7.4.2/include/private/gc_priv.h:819-824 | bit k, from the low end, of word q of a table lists block 64 q + k and those a table size further, and no others |
| `BlackLists.IsBlackListed` | gc-7.4.2/blacklst.c:228-257 | the word-skipping scan is the bit-by-bit one |
| `Exclusions.ExclusionTable.NextExclusion` | gc-7.4.2/mark_rts.c:417-434 | binary search finds the first range that ends behind an address, or none |
| `Exclusions.ExclusionTable.Exclude` | gc-7.4.2/mark_rts.c:438-472 | the table stays sorted and disjoint and covers exactly the range in addition; overlap is reported if and only if there is some, and then nothing changes |
| `Exclusions.ExclusionTable.PushWithExclusions` | gc-7.4.2/mark_rts.c:491-507 | the ranges pushed are sorted and disjoint and cover exactly the range minus the exclusions |
| `Finalization.EmptyStack` | gc-7.4.2/include/private/gc_pmark.h:418-421 | emptying the stack ends with an overflow if and only if the height that needs exceeds its size |
| `Finalization.MarkFo` | gc-7.4.2/include/private/gc_pmark.h:418-426 | marks exactly what the object leads to by one or more pointers or, after an overflow, that and the object itself; the overflow happens if and only if marking from the object needs a higher stack than there is; it ends if memory is granted from some step on and the root ranges fit; each overflow doubles the stack if memory is granted |
| `Finalization.Recover` | gc-7.4.2/include/private/gc_pmark.h:424 | the loop that steps the state machine after an overflow: exact when it ends, and it does |
| `FinalMarking.MarksStep` | gc-7.4.2/finalize.c:757-769 | visiting one more object adds what it leads to, so the order of visits does not matter |
| `FinalMarking.FinalMarks` | gc-7.4.2/finalize.c:754-808 | what is left unmarked is what nothing registered and unmarked leads to, less the objects at which an overflow happened; with the queued objects, marks are the closure of marks and registered objects |
| `FinalMarking.OverflowsNext` | gc-7.4.2/include/private/gc_pmark.h:418-426 | the objects at which an overflow happens, one visit after the other: the next one joins them if and only if marking from it, with the marks reached by then, needs a higher stack |
| `FinalMarking.OverflowsGrow` | gc-7.4.2/include/private/gc_pmark.h:418-426 | no overflow in all visits means none in the first ones |
| `FinalMarking.AmpleIsCalm` | gc-7.4.2/include/private/gc_pmark.h:418-426 | a stack with room for every unmarked object that holds pointers never overflows |
| `FinalMarking.TrackedNext` | gc-7.4.2/finalize.c:757-769 | each visit keeps the account of visited objects, stack sizes and overflows; until the first overflow the stack has its old size |
| `FinalMarking.TrackedWhole` | gc-7.4.2/finalize.c:757-769 | after all visits: an overflow happened if and only if one was to be expected from heap, marks, order and size, and first at the object expected |
| `FinalMarking.SpentNext` | gc-7.4.2/finalize.c:757-769 | if memory is granted each overflow doubles the stack, and none happens in one larger than the number of objects with pointers: the overflows are logarithmically few |
| `FinalMarking.QueueIsRight` | gc-7.4.2/finalize.c:774-808 | the queue is right if and only if no overflow happens at an object that belongs on it; without an overflow, or without memory for a larger stack, this is decided before the call |
| `Finalization.AllLeaveAre` | gc-7.4.2/finalize.c:774-808 | the queue holds exactly the registered objects that are not marked |
| `Finalization.Finalizer.Visiting` | gc-7.4.2/finalize.c:760-768 | one object: marked from unless it is marked |
| `Finalization.Finalizer.MarkFromObjects` | gc-7.4.2/finalize.c:757-770 | the marks afterwards, for any table order, and the account of all overflows |
| `Finalization.Finalizer.EnqueueChain` | gc-7.4.2/finalize.c:775-807 | deleting while iterating keeps exactly the marked entries in order and queues the others |
| `Finalization.Finalizer.EnqueueAll` | gc-7.4.2/finalize.c:773-808 | the same for the table, with its counts |
| `Finalization.Finalizer.Finalize` | gc-7.4.2/finalize.c:737-808 | queued is exactly the set of registered unmarked objects no registered unmarked object leads to, less those at which an overflow happened; whether and first where one happens is told by heap, marks, table and stack size; the queue is right iff no overflow hits that set; marks are closed again and hold all that queued objects reach; with memory granted the call ends, after few overflows |
| `FinalizationExample.HeadUnreached` | gc-7.4.2/finalize.c:754-755 | nothing leads to the head of a list, so it is what is to be queued |
| `FinalizationExample.ListPeak` | gc-7.4.2/mark.c:607-870 | marking a list of n + 1 nodes with data puts more than n entries on the stack, since each round leaves the data below the next node |
| `FinalizationExample.HeadOverflows` | gc-7.4.2/include/private/gc_pmark.h:418-426 | an object that needs a higher stack than there is overflows it when it is visited first |
| `FinalizationExample.ListIsDelayed` | gc-7.4.2/include/private/gc_pmark.h:422-425 | for every size of the mark stack: the head of a list longer than it is to be queued, overflows the stack and is not queued; when the call ends the head is marked, and with memory granted in the end it ends |
| `DisappearingLinks.NotInChain` | gc-7.4.2/finalize.c:165-173 | a link is registered if and only if it is in its own chain |
| `DisappearingLinks.ChainChange` | gc-7.4.2/finalize.c:147-341 | changing one chain changes the map only at that chain's links |
| `DisappearingLinks.Pushed` | gc-7.4.2/finalize.c:202-206 | inserting at the head of a chain adds one link to the map |
| `DisappearingLinks.CutOut` | gc-7.4.2/finalize.c:236-245 | unlinking an entry removes one link from the map |
| `DisappearingLinks.Replaced` | gc-7.4.2/finalize.c:166-173 | overwriting the object updates one link of the map |
| `DisappearingLinks.DlTable.constructor` | gc-7.4.2/finalize.c:46-53 | an empty table holds the empty map |
| `DisappearingLinks.DlTable.GrowTable` | gc-7.4.2/finalize.c:100-135 | rehashing into twice as many chains keeps the map; a refused allocation changes nothing |
| `DisappearingLinks.DlTable.Register` | gc-7.4.2/finalize.c:147-209 | the map is updated at the link; says whether it was there; without memory nothing changes |
| `DisappearingLinks.DlTable.Unregister` | gc-7.4.2/finalize.c:227-249 | the link is removed; says whether it was there |
| `DisappearingLinks.DlTable.Move` | gc-7.4.2/finalize.c:292-341 | the object moves to the new link exactly when the old one is there and the new one is not another entry; otherwise nothing changes |
| `DisappearingLinks.DlTable.MakeDisappear` | gc-7.4.2/finalize.c:702-717 | exactly the links of unmarked objects are cleared in memory and removed, while the table is being iterated |
| `DisappearingLinks.DlTable.RemoveDangling` | gc-7.4.2/finalize.c:719-732 | exactly the links that lie in unmarked objects are removed |
| `FinalizePhases.GcFinalize` | gc-7.4.2/finalize.c:737-865 | all phases in their order: short links to unmarked objects are cleared before marking, long links after it, dangling ones of both kinds forgotten; the queue is right for the heap with the short links cleared, less the overflows; afterwards a word leads to an object exactly if it did before and no cleared link lies in its eight bytes, an object is marked exactly if words without a cleared short link lead to it from a marked or registered one, and every entry of the finalization table stays in its chain or is queued |
| `FinalizePhases.Survivors` | gc-7.4.2/finalize.c:737-865 | what survives holds all that was marked and all registered objects, and is closed under the pointers that are left |
| `FinalizePhases.NoDanglingLink` | gc-7.4.2/finalize.c:702-732 | a link whose object does not survive has been set to 0 and is forgotten; no link is remembered that lies in an object that does not survive |
| `FinalizePhases.LinksToQueued` | gc-7.4.2/finalize.c:754-755 | short links to an object that is to be queued are cleared although it survives; long ones stay unless the object they lie in dies |
| `FinalizePhases.LinksInReached` | gc-7.4.2/finalize.c:719-732 | a short link in an object that a registered one leads to stays if and only if its object was marked before |
| `FinalizePhases.ClearingQueuesMore` | gc-7.4.2/finalize.c:702-717 | a disappearing link keeps nothing from being queued |
| `FinalizePhases.ClearedOnlyLinks` | gc-7.4.2/finalize.c:702-732 | clearing changes just the words in which links are kept, and the tables forget just the links that are cleared or lie in dying objects |
| `FinalizePhases.PathThreads` | gc-7.4.2/finalize.c:737-770 | a pointer path in the heap with cleared links is one in the old heap, word by word, that uses none of them |
| `FinalizePhases.MarksAreLed` | gc-7.4.2/finalize.c:754-770 | an object is marked afterwards if and only if such words lead to it from a marked or a registered object |
| `FinalizePhases.UnreachedAreNotLed` | gc-7.4.2/finalize.c:754-800 | what belongs on the queue are the registered unmarked objects that no registered unmarked one leads to by one word or more |

## Left out

Of the checker:

- The CUDD library: node structure, reference counts, the dot output and the printed messages.
- A missing primed counterpart, a stack underflow: results of the model are errors (`MissingCounterpart`, `Underflow`), while the program goes on with a null node and has no defined result.
- Texts whose names, as far as they are read, overflow the variable array (`main.c:105-107`): its size is counted without the names of temporal operators and without the expected states, and the program writes behind it.
- Pairing.PairVariables: a name of full length overflows the buffer at `main.c:170-172` when the prime is appended; names are unbounded strings here.
- Recording the most recent property (`ctlmc.c:26-27`): never used.

Of the marker:

- Incremental collection and dirty pages (state MS_PUSH_RESCUERS): they rest on page protection.
- Mark procedures and per-object mark descriptors: entries are ranges and bit maps; which words look like pointers is a parameter of the heap.
- The header cache, prefetching, tracing, disclaim procedures: they change speed or add callbacks.
- Marker.MarkMachine.StoppedMark: when memory is refused for ever, whether marking ends; the program may then go on for ever.
- Interior pointers: the marker takes words that lead to objects; `ObjectBases` says which object an address lies in.
- Marker.MarkMachine.MarkFromTop: mark procedures, per-object descriptors and sharing a long range with other threads (`gc-7.4.2/mark.c:654-675` is in `ParallelMark`) do not occur among its entries.
- Marker.MarkMachine.MarkFrom: the same.
- Marker.MarkMachine.PushRoots: the marks of free-list headers (`gc-7.4.2/mark_rts.c:779-789`) and the collector's own structures (`gc-7.4.2/mark_rts.c:791-795`); the root ranges are given.
- Marker.MarkMachine.MarkSome: the state MS_PUSH_RESCUERS.  The branch with parallel marking (`gc-7.4.2/mark.c:371-382`) is `ParallelCollection.MarkInParallel`.
- ParallelCollection.MarkInParallel: the run of the threads is given to it, since methods take no steps in parallel.  That such a run exists is `ValidRunExists`, that none gets stuck `ParallelOverflow.NeverStuck`; that every run ends, however the threads are scheduled, is not stated.
- The limit on the number of helpers, and when exactly a thread decides to share half of its stack: the model allows these steps more often than the code.
- The counts of marked objects per block (hb_n_marks).
- Weak memory: loads, stores and compare-and-swap are steps of one global order.

Of the block allocator:

- USE_MUNMAP, failing header allocation, and the paths that follow them.
- The abort on too many heap sections, requests that overflow a word, and heaps of half the address space or more.
- Sizes are in heap blocks, addresses are block numbers (`ObjectBases` and `Finalization` work on bytes or words).
- IndexedHeaps.IndexedHeap.Allochblk: works on the index when the search has ended; the program does so during the search, and finds the block around the result in a variable.
- BlockHeaps.BlockHeap.Allochblk: requests longer than BL_LIMIT that are not exempt may be served from black-listed blocks, so for them only failure has a condition.
- Objects within small blocks and their free lists.
- The hash of the block number in the black lists is that of `gc_priv.h:821`; other page hashes are not modelled.

Of finalization and the tables:

- Java-style and unreachable finalizers, the other mark procedures, calling the finalizers, and the marks of the records themselves.
- Roots and heap do not change during `GC_finalize` but for the links that are cleared, as the allocation lock and hidden pointers provide.
- FinalizePhases.GcFinalize: gives back a new finalizer, since the heap of a machine is fixed; links are byte addresses of 8-byte words.
- Finalization.Finalizer.Finalize: when memory for a larger stack is granted after a first overflow, the later overflows are told by the sizes the stack then has, which the call returns; how often the recovery doubles it, once or more often, is not told in advance.
- Hash chains are sequences, not linked nodes.
- DisappearingLinks.DlTable.Unregister: needs that something has been registered before; otherwise the program reads a table that does not exist.
- DisappearingLinks.DlTable.Move: the same.
- DisappearingLinks.DlTable.Register: the client's out-of-memory function and the second look that follows it; memory is granted or not.
- Windows root handling and thread stacks in `mark_rts.c`.
