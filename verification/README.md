# Verified models of three NuSMV cores

This project models three stateful algorithms of NuSMV and proves what they promise:

- **Finite automata for PSL SEREs** (`code/nusmv/core/automata`). An automaton is an object that owns location
  records with integer identifiers, final flags and transition lists; its operations are worklist loops that copy,
  combine and flag locations. Labels are boolean expressions over propositions, a letter is the set of the
  propositions that it makes true, and a language is a set of words of letters. Each operation is proved against
  an equation between languages, and the compiler from SEREs is proved against tight satisfaction of unclocked
  SEREs (Annex B of IEEE Std 1850-2010).
- **Incremental SAT engines for invariants** (`code/nusmv/core/bmc`). A boolean machine is unrolled into timed
  formulas that are added, permanently or in groups, to an incremental solver. ZigZag, Dual (both closure
  strategies) and Falsification are proved against the runs of the machine.
- **The symbol cache** (`doc/devel/cxx_porting/SymbCache_.cc`). A hash, an array with holes, a pool of records and
  counters are proved to agree with a plain ordered map.

Code that changes objects is modelled by classes and loops (`Automaton`, `AutomataManager`, `AutomataAlgoChooser`,
`SatIncSolver`, `SymbCache`); what those methods establish is stated by functions and lemmas on values. For each
operation there is a module with the value-level argument (`KleeneLanguage`, `ConcatLanguage`, `ZigZagPaths`, ...)
and a module with the methods (`Kleenes`, `Concats`, `BmcZigZag`, ...).

## How to read the contracts

- `Lang(a.Graph())` is the language of an automaton, `Returns(g)` the words that lead its initial location back to
  itself, `NoReturn(g)` says that no transition enters it, `LabelsSat(g)` that every label is satisfiable, `Trim(g)`
  that every transition leads to where a final location can be reached.
- `Usable(manager)` is what every operation requires of its operands and promises of its result: identifiers are
  exactly `1..locationCount` in the order of creation, the list of final locations holds the locations flagged final,
  addresses belong to the automaton and were handed out by the manager, and a sink is neither initial nor final and is
  only left for itself.
- `Accepted(s)` and `Returned(s)` are the language equations for what the automaton of a SERE accepts and for its
  returns, `Tight(s)` is tight satisfaction, and `Denotes` is the relation that the compiler establishes.
- `InductiveAt(m, p, n)` and its variants for the closures of Dual say that no run of `n` moves through good states
  without repetition ends in a bad state.
- `ViolatedWithin(m, p, k)` says that a run of at most `k` moves from an initial state ends in a state that violates
  the invariant; `Shortest(m, p, r)` that no violation is shorter than `r`.
- `Abs()` is the ordered map for which a symbol cache stands, `Valid()` everything the cache keeps.

## Where the code differs from its comments

The model follows the code, and states the property that the code has.

- Kleene star only makes the initial location of Kleene plus final. It accepts exactly the repetitions if and only if
  every word that leads the operand's initial location back to itself is a repetition already
  (`Kleenes.KleeneStar`); `{p[*];q}[*]` accepts `p` (`SereSemantics.StarUnsafe`).
- Reverse clears the flag of its only final location when the source's initial location is final and a reachable
  transition enters it; then only the empty word is left (`Reversal.Reverse`). Minimisation inherits this from its
  first reversal, and only from that one (`Reversal.Minimize`).
- Determinisation does not record the set of the initial location, so there can be `2^n + 1` locations
  (`Determinization.Determinize`).
- The combination of labels does not test the complement of a single label for satisfiability
  (`code/nusmv/core/automata/labels/AutomataLabelCombinator.c:197-231`), so a determinised automaton may have an edge that
  no letter admits, and the emptiness check, which looks at the graph only, can miss that a language is empty
  (`AcceptingLanguage.ComplementOfEverything`). It is exact if and only if a final location that can be reached can
  also be reached along satisfiable labels (`Inclusion.EmptynessCheck`). Inclusion is exact all the same, because the
  product only creates satisfiable labels.
- The backward closure of Dual never asks that its states 1 and 2 differ; it still concludes, one step later
  (`DualPaths.BackBounded`).
- Falsification unrolls further than the lengths it asks for, so a violation on a run that gets stuck can be missed
  (`FalsificationPaths.StuckIsMissed`).
- Adding a constant under a name that is declared as something else is not refused: it changes the first field of
  that declaration (`SymbTables.AddConstantExact`). The field `damaged` of the cache lists those names.

## Model

| member | source | states |
|---|---|---|
| Alphabet.AlphabetFromIter | code/nusmv/core/automata/AutomataManager.c:505-590 | The recursive builder, with its base cases and the loop that drains the smaller alphabet, yields exactly the minterms over its propositions. |
| Alphabet.AlphabetPartition | code/nusmv/core/automata/AutomataManager.c:505-590 | Each letter satisfies one symbol of the alphabet and no other. |
| Alphabet.AlphabetSize | code/nusmv/core/automata/AutomataManager.c:505-590 | Over n propositions there are exactly 2^n symbols. |
| Alphabet.MintermSatisfiable | code/nusmv/core/automata/AutomataManager.c:505-590 | Every symbol is satisfied by some letter over the propositions. |
| Alphabet.SymbolDecides | code/nusmv/core/automata/AutomataManager.c:450-461 | A symbol is a model of a label whose support it covers exactly if every letter of the symbol satisfies the label. |
| AlgoChooser.ComputeSupportSet | code/nusmv/core/automata/AutomataLoc.c:465-483 | The support set of a location holds exactly the propositions of the labels of its transitions. |
| AlgoChooser.AutomataAlgoChooser.ChooseFromLocationCouple | code/nusmv/core/automata/AutomataAlgoChooser.c:133-184 | When the alphabet step is chosen, the last support covers all labels of both locations and the permanent support; the configured algorithm is obeyed unless it is the heuristic. |
| AlgoChooser.AutomataAlgoChooser.ChooseFromTrans | code/nusmv/core/automata/AutomataAlgoChooser.c:186-228 | The same for one transition and the permanent location. |
| AlgoChooser.AutomataAlgoChooser.ChooseFromLocationSet | code/nusmv/core/automata/AutomataAlgoChooser.c:230-265 | The same for a set of locations, whose support is the union of theirs. |
| AlgoChooser.AlphabetDecides | code/nusmv/core/automata/AutomataAlgoChooser.c:154-165 | Every symbol of the alphabet over a support set decides every label whose propositions lie in that set. |
| Automata.Automaton.AddLoc | code/nusmv/core/automata/AbstractAutomaton.c:369-378 | A new location gets the next identifier, and identifiers stay exactly 1..count; the graph gains that location only. |
| Automata.Automaton.SetLocationFinal | code/nusmv/core/automata/Automaton.c:2886-2913 | Flagging a location keeps the list of final locations equal, as a set, to the locations flagged final; nothing else changes. |
| Copying.CopyReachableFromLoc | code/nusmv/core/automata/Automaton.c:2993-3045 | The depth-first copy reaches exactly what is reachable, copies each of its transitions once, keeps the flags, and merges the sinks. |
| Copying.CopyFromInitialLoc | code/nusmv/core/automata/Automaton.c:3280-3348 | The transitions of the initial location leave the target's initial location (or are only copied behind), and all that they reach is copied, also when the initial location lies on a cycle. |
| Unions.Union | code/nusmv/core/automata/Automaton.c:1350-1388 | The language is the union, for location-disjoint operands, and nothing returns to the initial location. |
| KleeneLanguage.PlusMeans | code/nusmv/core/automata/Automaton.c:1753-1837 | Leading every transition into a final location back to the start as well gives the repetitions, one or more times; what returns to the start is a repetition followed by a return of the operand. |
| KleeneLanguage.StarExact | code/nusmv/core/automata/Automaton.c:1725-1740 | Repetitions followed by returns are the repetitions exactly if every return is a repetition. |
| Kleenes.KleenePlus | code/nusmv/core/automata/Automaton.c:1753-1837 | Accepts exactly the words of the operand repeated one or more times, for every operand. |
| Kleenes.KleeneStar | code/nusmv/core/automata/Automaton.c:1725-1740 | Accepts repetitions followed by returns of the operand; that is the Kleene star if and only if every return is a repetition. |
| ConcatLanguage.ConcatMeans | code/nusmv/core/automata/Automaton.c:1559-1700 | Copies joined by bridges from the final locations, with rewritten flags, accept exactly the concatenation. |
| Concats.Concat | code/nusmv/core/automata/Automaton.c:1559-1700 | Accepts exactly the words of the first operand followed by words of the second, empty words included, for location-disjoint operands; the returns are those of the first. |
| FusionLanguage.FusionMeans | code/nusmv/core/automata/Automaton.c:1940-2106 | Transitions into final locations, mixed with the initial transitions of the second operand, accept the words that overlap by one letter. |
| Fusions.FusionAlphabetStep | code/nusmv/core/automata/Automaton.c:3638-3702 | The symbols over the support yield, for each letter, exactly the moves of the second operand's start that the transition admits. |
| Fusions.FusionTransitionsStep | code/nusmv/core/automata/Automaton.c:3722-3777 | Conjunctions of labels yield the same moves. |
| Fusions.Fusion | code/nusmv/core/automata/Automaton.c:1940-2106 | Accepts exactly the words w1.l.w2 with w1.l in the first language and l.w2 in the second, for location-disjoint operands; every remaining transition leads to acceptance. |
| ProductLanguage.StepIffMoves | code/nusmv/core/automata/Automaton.c:3371-3618 | Whichever step expanded a couple, its successors on a letter are exactly the common moves of the operands, couples with a sink standing for the sink. |
| ProductLanguage.DestAccepts | code/nusmv/core/automata/Automaton.c:4082-4139 | A couple with a sink accepts nothing on either side, so collapsing these couples loses no word. |
| ProductLanguage.ProductMeans | code/nusmv/core/automata/Automaton.c:1390-1517 | The product accepts what both operands accept, and returns to its start on the words on which both do. |
| Intersections.AlphabetStep | code/nusmv/core/automata/Automaton.c:3371-3473 | From the expanded couple, every letter admitted by a transition of each operand leads where both lead. |
| Intersections.TransitionsStep | code/nusmv/core/automata/Automaton.c:3496-3618 | The same, although transitions with the same end are merged into one with a weaker label. |
| Intersections.Intersection | code/nusmv/core/automata/Automaton.c:1390-1517 | Accepts exactly the common words; all labels are satisfiable and every transition leads to acceptance. |
| AcceptingSearch.MarksExact | code/nusmv/core/automata/Automaton.c:2577-2660 | When the search ends, the marked locations are exactly those reachable from the start that can reach a final location. |
| AcceptingMarks.MarkPredecessors | code/nusmv/core/automata/Automaton.c:4681-4708 | The recursive propagation terminates and leaves no recorded predecessor of a marked location unmarked. |
| AcceptingMarks.MarkAccepting | code/nusmv/core/automata/Automaton.c:2577-2660 | The search terminates although locations are pushed several times and marked when popped, and `reach_accepting[id - 1]` is true exactly for the locations on a path from the start to a final location. |
| Accepting.CopyAcceptingLoc | code/nusmv/core/automata/Automaton.c:3060-3190 | Copying only transitions into marked locations keeps the language; the result has no sink. |
| Accepting.PruneNonAcceptingPaths | code/nusmv/core/automata/Automaton.c:2577-2681 | Keeps the language; every remaining transition leads to acceptance; returns are kept unless nothing is accepted. |
| AcceptingLanguage.EmptyIffCannotAccept | code/nusmv/core/automata/Automaton.c:2479-2544 | With satisfiable labels the graph alone tells whether the language is empty. |
| AcceptingLanguage.GraphEmptinessExact | code/nusmv/core/automata/Automaton.c:2479-2544 | In general it does so exactly if a reachable final location is also reachable along satisfiable labels. |
| AcceptingLanguage.ComplementOfEverything | code/nusmv/core/automata/labels/AutomataLabelCombinator.c:184-231 | An automaton with an unsatisfiable edge whose language is empty although a final location is found. |
| Prunes.Prune | code/nusmv/core/automata/Automaton.c:2546-2575 | Keeping what is reachable keeps the language and the returns, and every location that is kept can be reached. |
| LabelCombinator.Combine | code/nusmv/core/automata/labels/AutomataLabelCombinator.c:184-318 | On each letter of a combination its locations are exactly the targets of the listed transitions, and every letter belongs to a combination; a single label yields itself and its untested complement. |
| SubsetLanguage.SubsetAccepts | code/nusmv/core/automata/Automaton.c:2341-2426 | A location that stands for a set accepts a word exactly if some member of the set does. |
| SubsetLanguage.SubsetMeans | code/nusmv/core/automata/Automaton.c:2341-2426 | The subset construction keeps the language, is deterministic, and has at most 2^n + 1 locations. |
| Determinization.AlphabetStep | code/nusmv/core/automata/Automaton.c:3804-3888 | Gives the expanded location a transition for every letter, to the location of exactly the set reached on it. |
| Determinization.TransitionsStep | code/nusmv/core/automata/Automaton.c:3913-4067 | The same by combinations of labels. |
| Determinization.FindOrCreateSetLoc | code/nusmv/core/automata/Automaton.c:4155-4215 | Finds the location recorded for a set or creates one, final exactly if a member is, the sink exactly for the empty set; never the initial location. |
| Determinization.Determinize | code/nusmv/core/automata/Automaton.c:2341-2426 | Same language, exactly one successor for every letter in every location, at most 2^n + 1 locations, no return to the start; it terminates. |
| ComplementLanguage.SwappedMeans | code/nusmv/core/automata/Automaton.c:2243-2307 | Exchanging the flags of a deterministic, complete automaton complements its language. |
| Inclusion.Complement | code/nusmv/core/automata/Automaton.c:2243-2307 | Accepts exactly the words that the operand does not accept. |
| Inclusion.Difference | code/nusmv/core/automata/Automaton.c:2309-2323 | Accepts exactly the words of the first operand that are not in the second; all labels are satisfiable. |
| Inclusion.EmptynessCheck | code/nusmv/core/automata/Automaton.c:2479-2544 | True exactly if no final location can be reached in the graph; equivalent to an empty language if and only if a reachable final location is reachable along satisfiable labels. |
| Inclusion.Containment | code/nusmv/core/automata/Automaton.c:2325-2339 | True if and only if every word of the first language is in the second. |
| Inclusion.Equals | code/nusmv/core/automata/Automaton.c:2471-2477 | True if and only if the languages coincide. |
| ReverseLanguage.ReverseAccepts | code/nusmv/core/automata/Automaton.c:2108-2241 | The copy of a location accepts a word, unless a flag was cleared, exactly if the reversed word leads the source from its start to that location. |
| ReverseLanguage.ReverseCleared | code/nusmv/core/automata/Automaton.c:2207-2216 | With the flag cleared only the empty word is accepted. |
| Reversal.Reverse | code/nusmv/core/automata/Automaton.c:2108-2241 | Accepts exactly the reversals; with satisfiable labels, if and only if the source's start is not both final and entered by a reachable transition. |
| Reversal.Minimize | code/nusmv/core/automata/Automaton.c:2428-2447 | Keeps the language if and only if the operand meets the condition of the first reversal; the result is deterministic and complete. |
| Basics.CreateFromExpr | code/nusmv/core/automata/Automaton.c:345-424 | Accepts exactly the words of one letter that satisfies the expression. |
| Basics.PropositionalKleeneStar | code/nusmv/core/automata/Automaton.c:4299-4333 | Accepts exactly the repetitions of letters that satisfy the expression. |
| Basics.TrueStar | code/nusmv/core/automata/Automaton.c:4341-4351 | Accepts every word. |
| Basics.And | code/nusmv/core/automata/Automaton.c:1519-1557 | One operand accepts the word and the other one a prefix of it. |
| SereSemantics.StarUnsafe | code/nusmv/core/automata/Automaton.c:1725-1740 | `{p[*];q}[*]` accepts `p`, which does not satisfy it, and also everything that does. |
| SereSemantics.TightIsAccepted | code/nusmv/core/automata/Automaton.c:654-891 | Without a negation, the equations accept every word that satisfies the SERE tightly, whether or not its stars are safe. |
| SereContracts.StarOfAny | code/nusmv/core/automata/Automaton.c:809-835 | The star of any body accepts its repetitions followed by its returns; this is its Kleene star exactly if every return is a repetition. |
| SereContracts.DenotesExactly | code/nusmv/core/automata/Automaton.c:654-891 | The relation that the compiler establishes has one solution, the equations for accepted words and returns, when all labels are satisfiable or no fusion with doubtful labels accepts nothing. |
| SereContracts.AcceptedIsTight | code/nusmv/core/automata/Automaton.c:654-891 | For SEREs whose starred bodies are all safe, the equations give exactly tight satisfaction. |
| SereCompiler.GetWrappedPropositional | code/nusmv/core/automata/Automaton.c:4568-4660 | Finds the propositional expression under braces, if that is all there is. |
| SereCompiler.CreateFromSere | code/nusmv/core/automata/Automaton.c:654-891 | There is a result exactly if every operator is supported. Safe or not, it accepts and returns exactly what the language equations say; that is tight satisfaction if every starred body is safe, and for an outermost star over a safe body exactly then; without a negation no satisfying word is missed. |
| LocationOps.MergeList | code/nusmv/core/automata/AutomataLoc.c:240-285 | Draining and rebuilding the list leaves one transition for each end, and the same steps on every letter. |
| LocationOps.MergeDuplicates | code/nusmv/core/automata/AutomataLoc.c:240-285 | Merging in an automaton keeps all steps and the language. |
| LocationOps.CheckIsDeterministic | code/nusmv/core/automata/AutomataLoc.c:494-545 | True if and only if no letter is admitted by two transitions of the list. |
| BmcModel.ShortestFacts | code/nusmv/core/bmc/bmcBmcInc.c:481-686 | On a shortest violation the invariant holds before the last state and no state is repeated. |
| BmcEncoding.UnrollingHolds | code/nusmv/core/bmc/bmcModel.c:125-137 | The unrolling from j to k holds exactly for the assignments in which the machine moves at each time in between, from and to states of its invariant. |
| BmcEncoding.Init0Holds | code/nusmv/core/bmc/bmcModel.c:91-100 | The initial constraint holds exactly if the state at time 0 is initial and satisfies the machine's invariant. |
| BmcEncoding.DecodeViolation | code/nusmv/core/bmc/bmcBmcInc.c:481-686 | An assignment that starts in an initial state, moves n times and then violates the invariant is a run of length n that does. |
| BmcEncoding.Pigeonhole | code/nusmv/core/bmc/bmcUtils.c:379-435 | States that are pairwise different in their state bits are at most 2^(number of bits). |
| BmcSolver.SatIncSolver.SolveWithoutGroups | code/nusmv/core/bmc/bmcBmcInc.c:519 | True exactly if an assignment satisfies the permanent constraints and the groups that are not skipped. |
| BmcUniqueness.NotEqual | code/nusmv/core/bmc/bmcBmcInc.c:656-667 | Holds exactly if the states at two times differ in some state bit. |
| BmcUniqueness.BuildUniqueness | code/nusmv/core/bmc/bmcBmcInc.c:1619-1649 | Holds exactly if the last state differs from each state from the first one on. |
| ZigZagPaths.StepAnswer | code/nusmv/core/bmc/bmcBmcInc.c:481-530 | The step is unsatisfiable exactly if no run of n moves through different good states, starting anywhere, ends in a bad one. |
| ZigZagPaths.StepWitness | code/nusmv/core/bmc/bmcBmcInc.c:481-686 | The last states of a shortest violation satisfy the permanent invariant and uniqueness constraints: they never hide a violation. |
| ZigZagPaths.StepBounded | code/nusmv/core/bmc/bmcBmcInc.c:481-686 | As long as the step is satisfiable, n is smaller than the number of states. |
| BmcZigZag.GenSolveInvarZigzag | code/nusmv/core/bmc/bmcBmcInc.c:390-700 | "False" exactly if a reachable state violates the invariant within max_k steps, with a shortest violation of the reported length; "true" exactly if not and the invariant is inductive, for paths without repetition, at some length within max_k, and then nothing reachable violates it; some verdict once max_k reaches the number of states. |
| DualPaths.BackAnswer | code/nusmv/core/bmc/bmcBmcInc.c:994-1098 | The backward step is unsatisfiable exactly if no run of n moves through good states to a bad one exists whose states differ, the two just before the bad one excepted. |
| DualPaths.ForwardAnswer | code/nusmv/core/bmc/bmcBmcInc.c:1100-1212 | The forward step is unsatisfiable exactly if no run of n moves from a state of the machine through different good states ends in a bad one. |
| DualPaths.BackUnsatisfiable | code/nusmv/core/bmc/bmcBmcInc.c:994-1098 | With an unsatisfiable backward step and no violation up to n there is no violation at all. |
| DualPaths.BackBounded | code/nusmv/core/bmc/bmcBmcInc.c:1084-1096 | Although states 1 and 2 may be equal, a satisfiable backward step has n at most the number of states. |
| DualPaths.ForwardUnsatisfiable | code/nusmv/core/bmc/bmcBmcInc.c:1100-1212 | The same for the forward step, whose last state is bad. |
| DualPaths.ForwardUnrollingHolds | code/nusmv/core/bmc/bmcModel.c:139-163 | What each forward unrolling adds to a path. |
| BmcDual.GenSolveInvarDual | code/nusmv/core/bmc/bmcBmcInc.c:704-1240 | "False" as for ZigZag; "true" exactly if nothing within max_k violates the invariant and the step of the chosen closure is unsatisfiable at some length within max_k; a verdict is reached at the number of states, one step later for the backward closure, which rejects machines with inputs. |
| FalsificationPaths.CaughtIsViolation | code/nusmv/core/bmc/bmcBmcInc.c:1334-1530 | What a batch finds is really reachable within max_k steps. |
| FalsificationPaths.NothingMissed | code/nusmv/core/bmc/bmcBmcInc.c:1334-1530 | If no run gets stuck, the batches of any size find a violation exactly if there is one within max_k. |
| FalsificationPaths.StepOneMissesNothing | code/nusmv/core/bmc/bmcBmcInc.c:1334-1530 | With batches of one length the same holds whether or not runs get stuck. |
| FalsificationPaths.StuckIsMissed | code/nusmv/core/bmc/bmcBmcInc.c:1388-1396 | A machine that is stuck in a bad initial state: with batches of two lengths nothing is found. |
| BmcFalsification.GenSolveInvarFalsification | code/nusmv/core/bmc/bmcBmcInc.c:1242-1542 | "False" exactly if some batch catches a violation on a run long enough for its query; never "true"; exact when no run gets stuck or batches have one length. |
| SymbTables.RemoveExact | doc/devel/cxx_porting/SymbCache_.cc:1070-1150 | A constant with several uses loses one of them; anything else leaves the map and its one place in the order; no other name is touched. |
| SymbTables.RemoveWellFormed | doc/devel/cxx_porting/SymbCache_.cc:1070-1150 | Removing keeps the map well formed: each name once, in the order and in the map alike, and constants counted from one. |
| SymbTables.AddConstantExact | doc/devel/cxx_porting/SymbCache_.cc:657-673 | Adding a constant makes the name a constant exactly if it was undeclared or a constant; otherwise it changes the declaration. |
| SymbTables.AddConstantShifts | doc/devel/cxx_porting/SymbCache_.cc:671 | Where something is declared, the machine word in its first field grows by one, whatever that field is meant to hold, and nothing else changes. |
| SymbTables.ConstantDeclared | doc/devel/cxx_porting/SymbCache_.cc:657-680 | After any run of operations, on this name and on others, a constant is declared exactly if its uses exceed its removals, and its counter is the difference. |
| SymbCells.PositionsExact | doc/devel/cxx_porting/SymbCache_.cc:998-1014 | A cell holds a name exactly if the name is declared with that position. |
| SymbCells.RecordsAccounted | doc/devel/cxx_porting/SymbCache_.cc:1153-1190 | A pooled record belongs to no name and has no cached body, two names never share a record, and no record is lost. |
| SymbCells.DataTable | doc/devel/cxx_porting/SymbCache_.cc:998-1243 | The data stand for a well-formed map; holes and the counters of all categories are exact. |
| SymbCells.LiveEmptied | doc/devel/cxx_porting/SymbCache_.cc:1141-1143 | Emptying a cell takes exactly that name out of the order. |
| SymbCaches.LiveFitsHalf | doc/devel/cxx_porting/SymbCache_.cc:1204-1228 | When more than three quarters of an array are holes, the declared names fit half of it. |
| SymbCaches.SymbCache.AllocSymbInfo | doc/devel/cxx_porting/SymbCache_.cc:1153-1180 | The record handed out is cleared and was in no use; the pool is refilled with a linked chunk when empty; the map is unchanged. |
| SymbCaches.SymbCache.FreeSymbInfo | doc/devel/cxx_porting/SymbCache_.cc:1183-1190 | The record is cleared and becomes the first of the pool. |
| SymbCaches.SymbCache.NewSymbol | doc/devel/cxx_porting/SymbCache_.cc:998-1064 | The order gains the name at its end and the map the declaration of its record; the array doubles when it is full. |
| SymbCaches.SymbCache.NewDeclaration | doc/devel/cxx_porting/SymbCache_.cc:492-640 | The eight declaring functions, with the category as a parameter: the map gains the declaration at its end. |
| SymbCaches.SymbCache.NewConstant | doc/devel/cxx_porting/SymbCache_.cc:657-673 | An undeclared name is appended with one use; a constant has one use more; of anything else only the first field changes, and the name is damaged. |
| SymbCaches.SymbCache.RemoveSymbol | doc/devel/cxx_porting/SymbCache_.cc:1070-1150 | A constant used several times is counted down by one; anything else is gone from the map, and from the order where it stood; all other declarations stay; the array shrinks only if asked. |
| SymbCaches.SymbCache.RemoveSymbols | doc/devel/cxx_porting/SymbCache_.cc:683-696 | Removes the names of a batch one after the other, skipping null entries, and shrinks once at the end. |
| SymbCaches.SymbCache.RedeclareStateAsFrozenVar | doc/devel/cxx_porting/SymbCache_.cc:540-552 | That name becomes a frozen variable with the fields it had; order, all other declarations and, through the exact counters, all other counts stay. |
| SymbCaches.SymbCache.CheckAndShrinkSymbols | doc/devel/cxx_porting/SymbCache_.cc:1204-1243 | Halves an array of more than 128 cells exactly when more than three quarters of it are holes; no hole is left and the map, with its order, is unchanged. |
| SymbCaches.SymbCache.GetFlattenActualParameter | doc/devel/cxx_porting/SymbCache_.cc:304-322 | The cached parameter if there is one, otherwise the actual one in its context, which is cached; never that of an earlier owner of the record. |
| SymbCaches.SymbCache.Count | doc/devel/cxx_porting/SymbCache_.cc:841-892 | The counter of a category is the number of declared names of that category. |
| SymbCaches.SymbCache.GenIter | doc/devel/cxx_porting/SymbCache_.cc:707-744 | Starts at the first cell that matches the mask, or at the end. |
| SymbCaches.SymbCache.NextIter | doc/devel/cxx_porting/SymbCache_.cc:747-784 | Moves to the next cell that matches, or to the end, skipping none. |
| SymbCaches.SymbCache.ForEach | doc/devel/cxx_porting/SymbTable_.h:50-53 | Iterating to the end visits exactly the names of the mask, in the order of the map, whatever holes and shrinks came before. |
| SymbIteration.MatchingExact | doc/devel/cxx_porting/SymbCache_.cc:707-784 | The names visited are exactly the declared ones whose category is in the mask, each once, in the order of their latest declaration. |

## Left out

- The options of the automata manager are at their defaults: no complete automata are kept, automaton types and completeness flags are not computed, and no minimisation or simulation reduction runs by itself.
- The bisimulation reduction, which does not keep the language: a later transition overwrites its relation and finality is not enforced.
- The empty-word automaton, the n-fold concatenation and the removal of a location, which have defects that make them unusable, and `[*n]` repetitions, for which the compiler stops with an error.
- Operands whose sink is the initial location: every operation requires, and ensures, that a sink is neither initial nor final and is only left for itself.
- BDD labels and their canonical form: labels are expressions, and satisfiability is decided on their support, which is syntactic.
- Locations and transitions are values in a map owned by the automaton, with addresses from the manager; sharing of locations between automata and the release of memory are not modelled, nor is the order in which sets and hashes are iterated.
- AlgoChooser.AutomataAlgoChooser.ChooseFromTrans: does not promise which algorithm the heuristic picks, because that affects cost only; nor do the other two choices.
- Fusions.Fusion: states the returns to the initial location only up to two possibilities when the fusion accepts nothing and labels may be unsatisfiable, because the graph then decides what is pruned.
- SereCompiler.CreateFromSere: inherits these two possibilities for a fusion that accepts nothing and contains a complement, when complements are not built over the alphabet.
- Reversal.Minimize: does not claim a minimal number of locations, because reversal always adds a fresh initial location.
- Printing (dot, XMI), logging, options, profiling, the named, mode and BDD wrappers of locations.
- The LTL engine beyond its unrolling, conversion to CNF, formula inlining, rewriting of the property and cone of influence; counterexample traces are represented by their length.
- The SAT solver is an object whose answer is exact; its conversion of groups of clauses and its resource limits are not modelled.
- BmcFalsification.GenSolveInvarFalsification: does not report which length of the batch is violated, because the code leaves that to the trace.
- Triggers of the symbol cache, destruction of symbol types and functions, and the iterator filter, which is called on empty cells and reuses a stale record.
- The nine counters of the symbol cache are one map from categories, and category masks are sets.
- Machine arithmetic: counters and array sizes are unbounded.
