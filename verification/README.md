# Optimisation procedures over a satisfiability solver, verified

The repository ships a solver and, beside it, client programs that use it to optimise: MaxSAT in C by linear search
and by Fu and Malik's core-guided method (`examples/maxsat/maxsat.c`), MaxSAT in Python by hitting sets, max-resolution
and local search (`examples/python/hs.py`), bin covering by a user propagator with branch and bound
(`examples/python/bincover.py`), model shrinking by bisection (`CheckSmall` in `examples/dotnet/Program.cs`), CNF
extraction (`examples/python/simplify_formula.py`), exists-forall solving (`examples/python/efsmt.py`) and the
all-interval series (`examples/python/all_interval_series.py`).  This project models those programs and proves that
they compute what they promise, for every input and for every solver that answers correctly.

**The solver** is a class whose methods promise only this: a model satisfies what was asserted and assumed, a core is a
part of the assumptions that contradicts the assertions, and a timed check may also answer "unknown" (`Oracle`).  The
procedures see nothing but that contract, so the results hold whichever model it picks and whichever core it extracts.
It keeps a ghost record of its answers, so that contracts can say what a procedure makes of each of them.
Formulas are propositional; an assignment is the set of symbols it makes true.  A fresh name is one that no formula
built so far depends on, which is stated semantically (`Formulas.Below`).

**Form.**  Programs that update arrays, objects and counters are methods with loops over arrays and classes: the adder
circuits write into scratch arrays that swap roles, the Fu-Malik rounds rewrite the soft constraints and answer
literals in place, the hitting-set solver and the bin-cover propagator are classes with the fields of the originals.
Each is proved against functions and predicates on values, and the laws are proved about those.

**Where the code does less than it says**, the code is kept and the exact condition is proved:

- At-most-k is asserted through a bit counter and a comparator that reads the bits of `k` modulo 32.  It means at most
  `k` of `n` if and only if `k >= n`, or `n >= 2` and not both `n > 2^31` and `k` odd (`Cardinality.EnforcedExact`).
  With one literal and `k = 0` nothing is asserted.
- For that reason some run of the linear search ends in its error branch if and only if there is exactly one soft
  constraint, or there are more than 2^31 and their number is even or some soft constraint can be satisfied
  (`SearchRuns.ErrorExact`).  Otherwise it finds the number of constraints that can be satisfied together, and what it
  returns is that number if and only if it is below 2^31, because the unsigned count is returned as an `int`
  (`LinearSearch.NaiveMaxSat`).
- Fu and Malik's procedure asserts at-most-one over the block variables of a core.  Every run, whatever cores the solver
  picks, counts the rounds right if and only if there are at most 2^31 soft constraints or at most one has to be
  falsified (`FuMalikRuns.RoundsExact`): beyond 2^31 a core of all soft constraints ends the search after one round
  (`FuMalikRuns.WideRound`).  Every run returns the right `int` if and only if there are at most 2^31 soft constraints
  and fewer than 2^31 of them can be satisfied together (`FuMalikRuns.ResultExact`).  It never counts too few as
  satisfied (`FuMalikRuns.StopsInTime`).
- The counter's scratch arrays have `n + 1` cells, computed in 32 bits; with 2^32 - 1 literals there would be none, and
  the members about the counter and its callers ask for fewer.
- Branch and bound counts a bin that needs more than all items together as filled when the solver decides so, because
  such a bin is never reported out of reach.  The best score stays within reach of the placements, over all legal runs,
  if and only if there is no such bin (`BinCoverOversize.SoundExactlyWithoutOversize`).
- Bisection adds the two ends of an interval in 32 bits.  Whatever the search returns is right, and with n values up to
  2^31 it ends within 32 n + 1 rounds.  Once its first model is Pareto-minimal the run is determined, and it ends if and
  only if no value of that model exceeds 2^31 (`CheckSmall.CheckSmallModel`, `CheckSmall.BoundsMeetExactly`).  With
  unsatisfiable constraints it never ends.
- The max-resolution step of the hitting-set solver stops with an error when it is to relax cores and has none.  From the
  start this cannot happen as long as the checks of the main loop are decided (`HsMaxSat.HsMaxSat.Run`), and it does
  happen after two of them have run out of time (`HsControl.StuckIsReached`).
- Every model the hitting-set solver is given is recorded, except the one that local search starts from; that one counts
  only through the models that extend it (`HsMaxSat.HsMaxSat.CollectCores`).
- CNF extraction asks of an equality whether its left side is Boolean, by a method that terms do not have.  It raises an
  error if and only if some subterm of the formula is an equality, Boolean or not, also inside atoms and under
  quantifiers (`CnfExtraction.ToCnf`, `CnfExtraction.EqualityRaises`).
- It asserts that the atoms of a formula refute it in a model of its negation.  Without a theory that holds in all such
  models if and only if the formula does not depend on any of its quantified leaves (`CnfExtraction.AssertionExact`); in
  particular it always holds without quantifiers (`CnfExtraction.ToCnf`).
- The bin-cover propagator takes the logarithm of the number of bins for the width of its item variables.  That succeeds
  if and only if there are at least two bins, or one bin and no item (`BinCoverInit.InitExact`).

Two comments in the sources differ from the code, and the code is followed: in `all_interval_series.py` the first index
of a cell is read as the position and the second as the integer, not the other way round; in `bincover.py` the final
callback blocks every assignment that fills no bin beyond the current ones, not only the current assignment.

## Files

- `Formulas`, `Lists`, `IndexSums`, `Oracle`: formulas, lists, sums over index sets, the solver.
- `MachineIntegers`, `AdderCircuits`, `Cardinality`, `MaxSat`, `SearchRuns`, `LinearSearch`, `FuMalik`, `FuMalikWide`,
  `FuMalikRuns`: the C program.
- `MaxResolution`, `HsBounds`, `HsCores`, `HsJournal` (what is learnt from the solver's answers), `HsControl`,
  `HsRewriting`, `HsMaxSat`: the hitting-set solver.
- `BinCover` (callbacks as functions), `BinCoverBins` and `BinCoverMessages` (what placing items keeps and tells),
  `BinCoverRuns` (the undo trail over runs), `BinCoverBound` and `BinCoverOversize` (branch and bound),
  `BinCoverInit` (widths of the item variables), `BinCoverSolver` (the propagator class), `MaximalSubset`.
- `CheckSmall`, `CnfExtraction`, `ExistsForall`, `AllInterval`: the other programs.

## Model

| member | source | states |
|---|---|---|
| AdderCircuits.MkFullAdder | examples/maxsat/maxsat.c:160-164 | under every assignment, out + 2·carry is the sum of the three input bits |
| AdderCircuits.MkAdder | examples/maxsat/maxsat.c:172-183 | the bits written denote the sum of the two numbers under every assignment, and nothing else in the output array changes |
| AdderCircuits.MkAdderPairs | examples/maxsat/maxsat.c:193-212 | half as many numbers, rounded up, one bit wider, with the same total under every assignment |
| AdderCircuits.RoundFits | examples/maxsat/maxsat.c:227-249 | every round of the counter fits the scratch arrays of n + 1 cells |
| AdderCircuits.MkCounterCircuit | examples/maxsat/maxsat.c:219-253 | the output bits denote the number of true literals, on 1 + ceil(log2 n) bits; null exactly when there is nothing to count |
| AdderCircuits.CeilLog2Bounds | examples/maxsat/maxsat.c:229-249 | the number of rounds is the least c with n <= 2^c |
| Cardinality.ReadBitsInWord | examples/maxsat/maxsat.c:258-262 | up to 32 bits, the bits read give k modulo 2^n |
| Cardinality.ReadBitsWrapped | examples/maxsat/maxsat.c:258-262 | bit 32 is read as bit 0: 33 bits give k, plus 2^32 when k is odd |
| Cardinality.AssertLeK | examples/maxsat/maxsat.c:267-290 | the one formula asserted holds exactly when the number in the bits is at most the number the bit reader sees in k |
| Cardinality.AssertAtMostK | examples/maxsat/maxsat.c:299-308 | what is asserted holds exactly when at most Enforced(n, k) of the literals do |
| Cardinality.EnforcedExact | examples/maxsat/maxsat.c:292-308 | at-most-k means what it says if and only if k >= n, or n >= 2 and not both n > 2^31 and k odd |
| Cardinality.AssertAtMostOne | examples/maxsat/maxsat.c:314-317 | what is asserted holds exactly when at most one literal does, for up to 2^31 literals; for more it always holds |
| Cardinality.EncodesBelow | examples/maxsat/maxsat.c:299-308 | the asserted constraint depends on nothing but its literals |
| MaxSat.AssertHardConstraints | examples/maxsat/maxsat.c:131-137 | the assertions grow by exactly the hard constraints, in order |
| MaxSat.MkFreshBoolVarArray | examples/maxsat/maxsat.c:73-81 | a fresh array of distinct fresh names |
| MaxSat.AssertSoftConstraints | examples/maxsat/maxsat.c:144-154 | the clauses C_i or k_i are asserted, and the array of the k_i returned |
| MaxSat.OptimumExists | examples/maxsat/maxsat.c:396-405 | satisfiable hard constraints have a least number of falsified soft constraints |
| MaxSat.AnswerExtension | examples/maxsat/maxsat.c:140-154 | every model of the hard constraints extends to the clauses with exactly as many true answer literals as it falsifies soft constraints |
| LinearSearch.GetNumDisabledSoftConstraints | examples/maxsat/maxsat.c:378-394 | the number of answer literals the model makes true |
| LinearSearch.TightenAndCheck | examples/maxsat/maxsat.c:424-434 | the assertions now bound the disabled constraints by what is enforced and keep every model within k; the answer recorded is a model of them or there is none |
| LinearSearch.UnsatMeansOptimum | examples/maxsat/maxsat.c:430-433 | when at most k has become impossible and k + 1 is possible, k + 1 is the least number of falsified soft constraints |
| LinearSearch.NaiveMaxSat | examples/maxsat/maxsat.c:406-449 | -1 exactly for unsatisfiable hard constraints; any other number is the number of soft constraints that can be satisfied together converted to int, so right if and only if that is below 2^31; the solver's answers are those of a search, and the error branch is taken if and only if the last of them is a model that disables more constraints than were allowed |
| SearchRuns.ErrorExact | examples/maxsat/maxsat.c:422-448 | some run of rounds ends in the error branch if and only if there is one soft constraint, or more than 2^31 and their number is even or some soft constraint can be satisfied |
| SearchRuns.NextRound | examples/maxsat/maxsat.c:434-447 | a model within the bound extends the run, and the next round allows one less than it disables |
| FuMalik.RelaxMember | examples/maxsat/maxsat.c:502-510 | one member of the core is rewritten in place as one turn of the relaxation says |
| FuMalik.RelaxCore | examples/maxsat/maxsat.c:491-512 | soft constraints, answer literals, block variables and asserted clauses are those of the relaxation of the whole core |
| FuMalik.BlockTotal | examples/maxsat/maxsat.c:487-513 | there is exactly one block variable for each member of the core |
| FuMalik.BlockRoom | examples/maxsat/maxsat.c:490-507 | a block variable is never written beyond the array of the size of the core |
| FuMalik.RelaxExcuses | examples/maxsat/maxsat.c:500-511 | an assignment falsifies at most as many more original constraints as it makes block variables true |
| FuMalik.ExcuseWorks | examples/maxsat/maxsat.c:500-513 | excusing one answered member satisfies all new clauses with one block variable and one answer literal less |
| FuMalik.StepLower | examples/maxsat/maxsat.c:486-516 | no model of the next state falsifies fewer than the least cost minus one of its soft constraints |
| FuMalik.StepLaw | examples/maxsat/maxsat.c:466-517 | relaxing a core lowers the least number of falsified soft constraints by exactly one |
| FuMalik.RelaxLinked | examples/maxsat/maxsat.c:477-513 | every soft constraint stays asserted together with its own, distinct answer literal |
| FuMalik.FuMalikMaxSatStep | examples/maxsat/maxsat.c:466-517 | done only when all current soft constraints hold together; otherwise the state makes the step its core determines, one answer literal less is enough, and with at most 2^31 soft constraints the least cost drops by exactly one, whatever it was |
| FuMalikWide.WideCoreEndsSearch | examples/maxsat/maxsat.c:487-513 | after a core of all soft constraints with more than 2^31 members nothing needs to be falsified any more, whatever the least cost was |
| FuMalikRuns.RunKeeps | examples/maxsat/maxsat.c:551-559 | over every run, k rounds leave an attainable cost k lower, and with at most 2^31 soft constraints the least cost is exactly k lower |
| FuMalikRuns.StopsInTime | examples/maxsat/maxsat.c:551-559 | no run stops after more rounds than constraints must be falsified; up to 2^31 soft constraints, or with cost at most one, none stops earlier |
| FuMalikRuns.WideRound | examples/maxsat/maxsat.c:487-516 | with more than 2^31 soft constraints, after a round on the core of all of them the next check succeeds |
| FuMalikRuns.RoundsExact | examples/maxsat/maxsat.c:533-560 | every run stops after as many rounds as constraints must be falsified if and only if there are at most 2^31 soft constraints or that number is at most one |
| FuMalikRuns.ResultExact | examples/maxsat/maxsat.c:533-560 | every run returns, as an int, the number that can be satisfied together if and only if that number is below 2^31 and there are at most 2^31 soft constraints |
| FuMalikRuns.AllHoldLooksUnsatisfiable | examples/maxsat/maxsat.c:554-556 | 2^32 - 1 soft constraints that hold together give the result -1 |
| FuMalikRuns.FuMalikMaxSat | examples/maxsat/maxsat.c:533-560 | ends, with -1 exactly for unsatisfiable hard constraints; otherwise with the result of a run from the problem given, never counting too few as satisfied, and right wherever all runs are |
| MaxResolution.AddDef | examples/python/hs.py:13-18 | a fresh name is asserted equivalent to the formula |
| MaxResolution.RelaxCore | examples/python/hs.py:20-28 | the core is replaced by one name less, with the definitions of max-resolution asserted; an empty core changes nothing |
| MaxResolution.RestrictCs | examples/python/hs.py:30-38 | the same for a correction set with the dual definitions |
| MaxResolution.RewriteCost | examples/python/hs.py:24-38 | under the definitions the new names are falsified once less often than the core, or satisfied once less often than the correction set, but never less than zero times |
| MaxResolution.RewriteSetCost | examples/python/hs.py:20-38 | replacing a falsified core in the soft constraints lowers the cost of every model by exactly one; replacing a correction set some member of which holds keeps it |
| MaxResolution.RewriteExtends | examples/python/hs.py:13-38 | every assignment extends to the definitions without changing older symbols |
| HsBounds.SoundRelax | examples/python/hs.py:176-184 | relaxing a core moves one unit of cost into the offset, lowers the bound on the rest by one and loses no model |
| HsBounds.SoundRestrict | examples/python/hs.py:196-206 | restricting to a correction set keeps cost and lower bound; only models no cheaper than the upper bound are excluded |
| HsBounds.HittingSetLowerBound | examples/python/hs.py:105-112 | a lower bound on the hitting sets of the cores bounds the cost of every model |
| HsBounds.OptimalAtExit | examples/python/hs.py:470-472 | when the bounds meet, the upper bound is the least cost of the problem as posed |
| HsCores.PickHittingSet | examples/python/hs.py:81-88 | the set chosen hits every core, contains only members of cores and at most one for each |
| HsCores.HsPicker.PickHs | examples/python/hs.py:99-125 | a hitting set of all cores; the optimising solver is asked exactly when it is not held off, the lower bound becomes the larger of itself and the bound answered, a smallest hitting set answered is the one returned, and the holding off follows the answer |
| HsCores.InsertBySize | examples/python/hs.py:153-158 | appends sets of the given size, keeping the family pairwise disjoint; every set of that size has been chosen or meets a chosen one |
| HsCores.GetSmallDisjointSets | examples/python/hs.py:149-161 | a non-empty family of pairwise disjoint members, none larger than any given set by more than two, such that every given set of such a size has been chosen or meets a chosen one |
| HsCores.ExpandRefutes | examples/python/hs.py:315-321 | replacing backbone literals by what they follow from gives a core again, over the given formulas only |
| HsCores.LearnCore | examples/python/hs.py:313-325 | the core is the expanded one, non-empty and contradicting the assertions, and the new backbone literal follows from the rest of it, which is stored |
| HsJournal.LearnsTrans | examples/python/hs.py:278-295 | what one stretch of the search has recorded of the models answered stays recorded in the next |
| HsJournal.MaximalReached | examples/python/hs.py:371-394 | when nothing can be added to a satisfiable subset any more, what it leaves out is a minimal correction set and has been recorded |
| HsJournal.SearchEnds | examples/python/hs.py:354-409 | when local search leaves nothing open, it has reached a minimal correction set and added a core for each of its members |
| HsJournal.RotationExplores | examples/python/hs.py:297-326 | a rotation without undecided checks reaches a minimal correction set |
| HsMaxSat.HsMaxSat.constructor | examples/python/hs.py:130-143 | the initial bounds and sets are consistent with the problem, and decided checks will not get the search stuck |
| HsMaxSat.HsMaxSat.Improve | examples/python/hs.py:278-295 | the correction set is recorded, the upper bound becomes the smaller of itself and the cost, the model is kept unless it is worse; true exactly when the bound was lowered |
| HsMaxSat.HsMaxSat.ReduceCore | examples/python/hs.py:252-276 | a part of the core that still contradicts the assertions; every model answered is recorded; a core of more than four members comes back whole only when none of them is redundant or some check was undecided |
| HsMaxSat.HsMaxSat.RotateCore | examples/python/hs.py:313-325 | the expanded core is added exactly when it has fewer than twenty members, and the rest of it is stored with the backbone literal |
| HsMaxSat.HsMaxSat.RotateOne | examples/python/hs.py:304-327 | one check: with a model the formula joins the subset and the model is recorded; with a core it is rotated out; undecided it changes nothing |
| HsMaxSat.HsMaxSat.Rotate | examples/python/hs.py:297-329 | every model answered is recorded; unless a check is undecided, everything outside the subset reached is rotated out by a core, recorded when it is small |
| HsMaxSat.HsMaxSat.TryRotate | examples/python/hs.py:297-332 | reports exactly whether the upper bound was lowered; unless a check is undecided, a maximal satisfiable subset is reached and what it leaves out is recorded; rotates on exactly when the bound was lowered; with MssRotate it terminates |
| HsMaxSat.HsMaxSat.MssRotate | examples/python/hs.py:334-351 | the program's assertion that stored cores lie within the subset holds; every formula that occurs in more than one of them has been left out in turn, until that lowered the bound; terminates |
| HsMaxSat.HsMaxSat.LocalMss | examples/python/hs.py:354-409 | every model answered has its correction set recorded and bounds the upper bound; everything left out has a core added, except what stays open after an undecided check; without one a minimal correction set is reached |
| HsMaxSat.HsMaxSat.LocalCore | examples/python/hs.py:395-405 | the reduced core is added, contains the formula it keeps out, and the rest of it is stored with the backbone literal |
| HsMaxSat.HsMaxSat.LocalModel | examples/python/hs.py:393-394 | the model is recorded, and rotated on exactly when it lowers the upper bound |
| HsMaxSat.HsMaxSat.CollectCores | examples/python/hs.py:423-450 | terminates with true cores of which some hitting set leaves the rest satisfiable, the first being the given one, and with the local search from that model, unless a check is undecided; closes the bounds when the assertions alone are contradictory; every model answered but the one local search starts from is recorded |
| HsMaxSat.HsMaxSat.GetCores | examples/python/hs.py:415-453 | either the bounds are closed, or the cores collected from a part of the given one are added to those found on the way |
| HsMaxSat.HsMaxSat.PickHs | examples/python/hs.py:217-219 | a hitting set of all cores within the soft constraints, empty without cores; the lower bound and the holding off of the optimising solver follow its answer, and the bound stays sound |
| HsMaxSat.HsMaxSat.RelaxCores | examples/python/hs.py:179-181 | the cores are relaxed one after the other, each as specified, and the size limit follows them; this is sound once offset and lower bound are moved by their number |
| HsMaxSat.HsMaxSat.RestrictSets | examples/python/hs.py:199-203 | the correction sets are restricted to one after the other, each as specified; this is sound |
| HsMaxSat.HsMaxSat.ReinitSoft | examples/python/hs.py:163-169 | offset and lower bound move together, cores and correction sets are dropped, and the state is consistent again |
| HsControl.DecidedStepGoesOn | examples/python/hs.py:171-215 | a step whose check is decided is not stuck and leaves a state from which the next one is not either, unless the bounds have met |
| HsControl.StuckIsReached | examples/python/hs.py:152-215 | more than six constraints that cannot all hold: after restricting to a correction set and two undecided checks the program stops with an error, although the least cost is one |
| HsMaxSat.HsMaxSat.Maxres | examples/python/hs.py:171-215 | a small family of cores is relaxed, or one of correction sets is restricted to, or the problem stays as it is, as the choice says; keeps all invariants, the upper bound, the model and the sum of lower bound and offset; stops with an error exactly when cores are to be relaxed and there is none |
| HsMaxSat.HsMaxSat.CheckRest | examples/python/hs.py:457-464 | checks everything outside a hitting set of the cores: a model is recorded, with its correction set and the upper bound at most its cost; a core closes the bounds or adds cores; an undecided check changes nothing |
| HsMaxSat.HsMaxSat.Step | examples/python/hs.py:455-468 | the answer to the step's check determines what is found, and that determines which rewriting follows and what it makes of the problem; a model lowers the upper bound to its cost |
| HsMaxSat.HsMaxSat.Run | examples/python/hs.py:470-472 | when the loop ends on satisfiable hard constraints, the upper bound is the least number of distinct soft constraints that have to be falsified; it runs out of steps only after making all of them with the bounds still apart; from the start it stops with an error only after an undecided check; no model answered to a step is cheaper than the upper bound |
| BinCover.PlaceItemReversible | examples/python/bincover.py:201-245 | the trail entries of placing an item, run newest first, restore the state before |
| BinCoverBins.PlaceItemBinsOk | examples/python/bincover.py:201-245 | after placing an unplaced item every bin's weight is the sum of its items, no item is in two bins, and every slack bounds what the bin can still get, exactly while it is undecided |
| BinCoverBins.ExcludeUpToBin | examples/python/bincover.py:211-245 | excluding an item treats every other bin by itself and leaves its own bin alone |
| BinCoverBins.NotBoth | examples/python/bincover.py:207-224 | no bin is ever both filled and out of reach |
| BinCoverBins.AllPlacedDecides | examples/python/bincover.py:211-224 | once every item is placed, a bin that all items together could fill is filled exactly when it is not out of reach |
| BinCoverMessages.FilledJustified | examples/python/bincover.py:247-252 | every completion that agrees on the justifying items fills the bin |
| BinCoverMessages.NotFilledJustified | examples/python/bincover.py:254-262 | no completion that agrees on the justifying items fills the bin |
| BinCoverMessages.PlaceItemTells | examples/python/bincover.py:201-262 | everything told so far stays justified, and each bin is told filled, or out of reach, exactly once |
| BinCoverRuns.TrailRefinesSnapshots | examples/python/bincover.py:264-272 | over any sequence of callbacks the undo trail agrees with a machine that saves the whole state at every push |
| BinCoverRuns.PopRestores | examples/python/bincover.py:264-272 | a pop that matches a push restores all bins, the value and the slack, whatever happened in between |
| BinCoverRuns.BestMonotone | examples/python/bincover.py:85-98 | the best score never goes down, over any extension of any run |
| BinCoverBound.LegalRunsOk | examples/python/bincover.py:59-98 | in every reachable state weights, slacks, propagations, value and slack of the objective are right, and every conflict blocks only decisions that score at most the best |
| BinCoverBound.PropagationsExact | examples/python/bincover.py:201-272 | in every reachable state each propagation holds in every completion agreeing with its justification, no bin is told both ways or twice, and once all items are placed every bin that could be filled has been told one way |
| BinCoverBound.FixBinConflicts | examples/python/bincover.py:75-78 | the conflict raised on a decision blocks only what cannot beat the best |
| BinCoverBound.ConflictExact | examples/python/bincover.py:69-83 | a conflict is raised if and only if the bin is decided false and without it and the bins recorded false no choice of bins scores as much as the best; otherwise a bin decided false is recorded |
| BinCoverBound.PruningExact | examples/python/bincover.py:69-83 | the same for the conflicts and the record of every legal run |
| BinCoverBound.FinalBlocks | examples/python/bincover.py:85-91 | the conflict of the final callback blocks only what scores at most the value just seen |
| BinCoverBound.BestAttained | examples/python/bincover.py:85-91 | without oversize bins some placement scores at least the best |
| BinCoverBound.PropagationsAdmit | examples/python/bincover.py:247-262 | deciding exactly the bins a placement fills agrees with every propagation made anywhere in a legal run |
| BinCoverBound.BranchAndBoundExact | examples/python/bincover.py:50-98 | when the propagations and conflicts of the whole run have no model left, the best score is the largest score of any placement |
| BinCoverOversize.SoundExactlyWithoutOversize | examples/python/bincover.py:211-224 | the best score is within reach over all legal runs if and only if no bin needs more than all items together |
| BinCoverInit.InitExact | examples/python/bincover.py:124-131 | initialisation succeeds if and only if there are at least two bins, or one bin and no item |
| BinCoverInit.ValuesAreBins | examples/python/bincover.py:129-136 | the values an item variable can take are exactly the indices of bins |
| BinCoverSolver.BranchAndBound.Fixed | examples/python/bincover.py:69-83 | the objective, its undo entry and the conflict are those of the specification |
| BinCoverSolver.BranchAndBound.Final | examples/python/bincover.py:85-91 | the best score becomes the larger of itself and the value, and the conflict names the bins recorded false |
| BinCoverSolver.BinCoverSolver.constructor | examples/python/bincover.py:107-151 | every bin starts empty with the total weight as slack; the state is that of the empty run |
| BinCoverSolver.BinCoverSolver.AddItem2Bin | examples/python/bincover.py:201-208 | bins, trail and propagation are those of the specification of adding an item |
| BinCoverSolver.BinCoverSolver.ExcludeItem2Bin | examples/python/bincover.py:211-224 | the same for excluding an item from one bin |
| BinCoverSolver.BinCoverSolver.OtherBinsItems | examples/python/bincover.py:256-261 | the justification is the items of all other bins in order |
| BinCoverSolver.BinCoverSolver.FixedItem | examples/python/bincover.py:228-245 | the object state follows the run extended by this callback; a number that is no bin changes nothing |
| BinCoverSolver.BinCoverSolver.FixedBin | examples/python/bincover.py:228-231 | the same for a decided bin |
| BinCoverSolver.BinCoverSolver.FinalCheck | examples/python/bincover.py:85-91 | the same for the final callback |
| BinCoverSolver.BinCoverSolver.PushScope | examples/python/bincover.py:264-265 | the same for a push |
| BinCoverSolver.BinCoverSolver.PopScopes | examples/python/bincover.py:267-272 | the trail is run down to the recorded length, every undo is possible, and the object state follows the run |
| MaximalSubset.MaximalSatisfyingSubset.GetMss | examples/python/bincover.py:283-289 | the subset holds in the stored model and no other candidate can be added; unsatisfiable assertions give the empty set |
| MaximalSubset.MaximalSatisfyingSubset.Grow | examples/python/bincover.py:291-303 | grows any satisfied subset to a maximal one |
| CheckSmall.CheckOnce | examples/dotnet/Program.cs:1848-1875 | a model becomes the upper bounds, a failed check sets one lower bound, and no values below the upper bounds undercut the lower ones |
| CheckSmall.Round | examples/dotnet/Program.cs:1843-1892 | scopes are balanced and the bounds stay sound; a round narrows the upper bounds to a model and its lower bounds are those of the first open interval's midpoint; an empty problem never finishes, and with values up to 2^31 the gap shrinks |
| CheckSmall.CheckSmallModel | examples/dotnet/Program.cs:1825-1894 | when it ends, no other model is at most the result in every component; it never ends without a model; with n values up to 2^31 it ends within 32 n + 1 rounds; when the model of the first round is Pareto-minimal, it ends exactly when the bounds of that model meet |
| CheckSmall.BoundsMeetExactly | examples/dotnet/Program.cs:1884 | the bounds of a model of n values ever meet if and only if none of them exceeds 2^31, and then within 32 n + 1 rounds |
| CheckSmall.RoundHalves | examples/dotnet/Program.cs:1884-1886 | with values up to 2^31 every round that leaves work takes a bit off the widths of the intervals |
| CnfExtraction.AtomsRec | examples/python/simplify_formula.py:20-27 | the traversal with a visited set raises an error if and only if some subterm is an equality, and otherwise adds exactly the atoms of the term |
| CnfExtraction.Atoms | examples/python/simplify_formula.py:17-29 | an error exactly when some subterm is an equality, otherwise the set of all atoms among the subterms |
| CnfExtraction.EqualityRaises | examples/python/simplify_formula.py:11-12 | an equality is found alone, negated, inside an atom and under a quantifier |
| CnfExtraction.QuantifierFreeDetermined | examples/python/simplify_formula.py:3-29 | the collected atoms determine every formula without quantifiers in its Boolean structure |
| CnfExtraction.LiteralsHold | examples/python/simplify_formula.py:31-34 | the literals hold exactly in the interpretations that agree with the model on the atoms |
| CnfExtraction.Implicant | examples/python/simplify_formula.py:47-53 | the clause negates the solver's core, so is a disjunction of literals of the atoms; it follows from the formula and the model falsifies it; the assertion fails only when the atoms do not determine the formula |
| CnfExtraction.ToCnf | examples/python/simplify_formula.py:65-75 | raises an error if and only if some subterm is an equality; otherwise ends, with disjunctions of literals of the atoms whose conjunction is equivalent to the formula and none of which follows from those before it, unless the assertion fails, which it never does without quantifiers, nor when the quantified leaves make no difference |
| CnfExtraction.AssertionExact | examples/python/simplify_formula.py:50-51 | without a theory the assertion holds in every model of the negation if and only if switching any quantified leaf never changes the formula |
| CnfExtraction.SwitchLeaves | examples/python/simplify_formula.py:17-34 | interpretations that differ only in leaves that make no difference agree on the formula |
| CnfExtraction.QuantifierFails | examples/python/simplify_formula.py:6-7 | a quantified formula over an atom on its variable makes the assertion fail |
| ExistsForall.Efsmt | examples/python/efsmt.py:9-34 | a value found works against every opponent and "no solution" means that none does; the result is that of the run the two solvers determine: at most as many refuted candidates as loops allowed before an answer, one more before giving up, no two the same |
| ExistsForall.ResultUnique | examples/python/efsmt.py:16-34 | the run and its result are determined by the two solvers and the loop limit |
| AllInterval.DiffMeans | examples/python/all_interval_series.py:13-17 | the difference formula holds exactly when the two entries are that far apart |
| AllInterval.EvalAtMostOne | examples/python/all_interval_series.py:28 | the cardinality constraint holds exactly when at most one member does |
| AllInterval.ModelsAreSeries | examples/python/all_interval_series.py:20-42 | an assignment meets all constraints if and only if it represents a permutation whose neighbours are at pairwise different distances |
| AllInterval.Ais | examples/python/all_interval_series.py:20-42 | the models of what is added are exactly the assignments with one entry in each row, column, difference row and difference column |
| AllInterval.ProcessModel | examples/python/all_interval_series.py:44-63 | the values read are the series the model represents, the assertion on duplicates holds, and the block names its cells |
| AllInterval.BlockingExact | examples/python/all_interval_series.py:71 | the blocking clause excludes the representation of this series and of no other |
| AllInterval.AllModels | examples/python/all_interval_series.py:65-75 | terminates having printed every series exactly once and nothing else, with their number |

## Left out

- The solver's own search; its model, core and optimisation answers are taken to be correct.  "Unknown" is modelled in `hs.py` and, for hitting sets, as running out of time; the C program, `bincover.py`, `simplify_formula.py`, `efsmt.py`, `all_interval_series.py` and `CheckSmall` are modelled with a solver that decides.
- Theories: formulas are propositional.  `CnfExtraction` takes the theory as a formula that interpretations have to satisfy and treats quantified formulas and applications as opaque, so that what a quantifier means is known only through the theory.
- HsMaxSat.HsMaxSat.Run: does not claim that the loop ends; it is cut off after a given number of steps, because with timeouts the program itself may run forever.
- CheckSmall.CheckSmallModel: cut off after a given number of rounds, because the program need not end.  When the first model is not Pareto-minimal and values above 2^31 occur, whether it ends depends on the models the solver picks later.
- ExistsForall.Efsmt: without a loop limit it is stated for finitely many candidates, because otherwise the loop need not end.
- BinCoverSolver.BinCoverSolver.constructor: takes all weights and bounds at once instead of calls that add items and bins; the widths of the item variables and the constraints on them are in `BinCoverInit`, and the constructor does not repeat the errors they lead to.
- BinCoverBound.LegalRunsOk: assumes of the solver that an item or bin is fixed at most once on a branch and that the final callback comes with everything fixed and all propagations respected.
- MaxResolution.AddDef: the new name is taken to be fresh; the program's `def-N` would clash with a symbol of that name in the input.
- HsMaxSat.HsMaxSat.Improve: models are total assignments.  The program also asserts that a model is stored, which fails for a model that interprets nothing, and counts a constraint that a partial model leaves open as falsified.
- Duplicate soft constraints in `hs.py`: the initial upper bound counts them, costs count distinct ones, as in the program.
- The time limits of single checks, recorded patterns, printed statistics and the string names of soft constraints in `hs.py`; random choices become arbitrary ones.
- Timing and solver statistics in `all_interval_series.py`; what is printed is returned as a list.
- Reading problems from files, reference counting and freeing memory, and the driver that selects a MaxSAT procedure.
- The solver's implementation, its language bindings and the other example programs.
