# Saturn and Hookline, verified

Two systems share this repository. Saturn is an equality-saturation optimizer
for a small numeric language: an e-graph with deferred rebuilding, e-matching,
conditional rewriting under a backoff scheduler, an interval analysis, cost
extraction, explanations, a bytecode compiler, a Pratt parser and a printer.
Hookline is a webhook queue: workers claim leased rows, send, and settle with a
compare-and-set while operators cancel, replay, disable and resume. The Dafny
files here model both and prove what they are for.

Objects the source updates in place are classes with the same fields; pure code
is functions. Every method that changes state says its whole new state, and each
class has an abstract value (`View`, `Account`, `Rest`) on which the theorems
are stated and proved as lemmas over plain values. Doubles are their total-order
keys and their arithmetic is abstract, except in `Intervals`, which works over
extended reals with an arbitrary monotone, symmetric rounding.

## How the files hang together

- `Options`, `Powers`: an option type; powers of two.
- `Lang`, `UnionFinds`, `NodeOrders`: nodes, canonical forms, the union-find with
  path halving and union by size, the sort orders.
- `Graphs`, `Congruences`, `Meanings`, `Histories`, `Steps`, `Foldings`,
  `Propagation`, `Reindexing`, `EGraphs`, `ConstantFolding`, `Staleness`: the
  e-graph. `Graphs` holds the invariant of a dirty graph (a node the hashcons does
  not find mentions a pending class) and its survival through `repair`, which
  canonicalizes while its own unions change what is canonical. `Congruences` says
  what the partition is, `Meanings` what it keeps true, `Histories` what the record
  of unions connects; `Steps` joins them for each operation, `Foldings` keeps
  account of known constants that are not yet literals, `Propagation` says where
  recomputing facts comes to rest, and the class `EGraph` runs the operations.
  `ConstantFolding` says what becomes of an operator on constants. `Staleness`
  holds the two graphs in which recomputing stops short.
- `Patterns`, `Enumerations`, `Matching`, `Caps`: what it is for a pattern to name
  a class, the matcher without its limits as a pure function (what it lists, the
  work it does, the room its lists need), the limited matcher proved against it,
  and a graph in which the limits go unreported.
- `Conditions`, `Rewriting`, `Schedulers`, `Closures`, `Turns`, `Runners`,
  `Saturation`: conditions on facts and on the structure of the graph and what
  they say of values, instantiation, rules, the bans of the scheduler, what it is
  to hold every consequence of the rules, the matches applied one after another,
  the run, and the theorem over a whole run.
- `Terms`, `Extraction`, `Prices`: expression trees, shared expressions, cost
  models, the pricing fixpoint and both extractors, and what the latency model
  makes them prefer.
- `Explanations`: breadth-first search over the recorded unions, congruences
  unfolded into derivations of their arguments.
- `Differentiation`: the least fixpoint behind the side conditions of the
  differentiation rules.
- `Expressions`, `Machines`, `Pressures`, `Compilers`: the interpreter, the
  machine, the constants and slots a term needs, and the compiler with constant
  folding, dead-literal removal and recycled slots.
- `Syntax`, `RoundTrips`, `Grouping`, `Parsers`: tokens, printer and parser, and
  how operators group, said by layers of operators instead of binding powers.
- `Intervals`, `Tightness`, `MathFacts`: the interval domain, how little it gives
  away, and the analysis that folds constants and computes ranges with it.
- `Queues`, `Protocols`, `Promises`, `Backoffs`, `WorkerLoop`: the tables and
  transactions, the protocol as a state machine over them, what it promises said
  of the tables alone, the retry schedule, the workers as steps of the protocol.
- `Identifiers`: the base-32 identifiers.

## The main results

1. **Rebuilding restores everything** (`EGraphs.EGraph.Rebuild`). After any `Add`
   and `Union` calls it terminates, each further congruence round paid for with a
   class, and leaves canonical sorted nodes, an exact hashcons, congruence, and
   parent lists equal to the set the classes imply. With the shipped analysis an
   operator on known constants, added and rebuilt, shares its class with the literal
   of its value (`ConstantFolding.AddAndRebuild`).
2. **The partition is the least congruence** of what was added and asserted
   (`Congruences.LeastCongruence`), so two e-graphs given the same nodes and
   equations agree once rebuilt, however adding and asserting were mixed and
   whatever ids came back (`Congruences.OrderDoesNotMatter`,
   `EGraphs.SameInputsAgree`).
3. **A run preserves meaning** (`Saturation.Simplify`). Fix an interpretation
   and a set of operators vouched for: of those, commutative ones commute and
   the analysis computes facts soundly. If the input and the right sides of the
   rules stay within them, and every rule is sound wherever the facts its
   condition reads are true and what the condition grants holds, then the term
   extracted after any run evaluates to the value of the input, however the run
   stopped and even if the analysis was cut off; and it costs no more than the
   input. Conditions may look at the structure of the graph: that a body
   provably cannot vary grants that it is the value of a term without the
   variable (`Conditions.HeldIsGranted`), which is all the rule for such
   derivatives needs (`Rewriting.IndependentRuleIsSound`). The shipped analysis
   can be vouched for on every operator but minimum, maximum and power, whatever
   the facts (`MathFacts.MathRespectsUnconditional`), on minimum and maximum too
   where no NaN can enter (`MathFacts.MathRespectsNumbers`), and in general for
   any operators and facts that keep its operands safe
   (`MathFacts.MathRespects`).
4. **Saturation means closure, and every stop has its cause**
   (`Runners.Runner.Run`). A match whose condition holds in its turn is in place
   from then on (`Rewriting.ApplyMatch`, `Turns.TurnsAreInPlace`), and in a pass that
   is not cut short every match of a rule not held back has its turn
   (`Turns.PassFires`). A run stops at a limit only if that limit is met, and as
   saturated only after a pass that merged nothing and grew nothing, with nothing
   banned. Then, with bans of at least one iteration, and an analysis that had
   nothing left to do before that pass, wherever in the graph the left side of a
   rule is found and its condition holds, the right side is in the class; without
   an analysis so it is for rules without condition in any case. That is for rules
   whose search, in that graph, meets none of its limits, a condition on the graph
   and the pattern alone (`Closures.RuleFits`): no list of the matcher without
   limits outgrows its cap, its work fits the budget, and it finds less than the cap
   of a search before the last class.
5. **E-matching lists exactly the matches** without its limits
   (`Enumerations.TraceIsExact`), commutative swaps and repeated variables
   included. With them, on every graph and pattern, it lists nothing else, does
   no more work, and leaves something undone exactly if its flag is set or a
   list has no room; where all lists have room the flag is set exactly if the
   work or the number of matches exceeds its limit, and where neither does it is
   never set (`Matching.SearchCapped`).
6. **Extraction is optimal and grounded** (`Extraction.PricesAreOptimal`,
   `Extraction.TryFindBest`): a class is priced exactly when it holds a finite
   term, at the least tree cost of any, and what is built costs that.
7. **Explanations are exact and shortest** (`Explanations.Explain`,
   `Explanations.ExplainWithin`).
8. **The compiler agrees with the interpreter** (`Compilers.CompileAndEval`) on
   every expression it accepts with at most 65536 parameters. It refuses every
   reachable derivative, and of the others exactly those that load more than 65536
   distinct constants or compute some value while 65536 others are awaited
   (`Compilers.Compiler.Run`, `Pressures.IsTooLarge`).
9. **`FreeOfVar` computes its least fixpoint** on cyclic graphs too
   (`Differentiation.FreeOfVar`), and a witness means the value cannot depend on
   the variable (`Differentiation.WitnessMeansUnaffected`).
10. **Printing and parsing**: what the parser makes of every printed term, and
    the terms that come back unchanged (`RoundTrips.RoundTripsExactly`). Operators
    group as arithmetic has it: any chain of operands is read as the tree of a
    reference that splits at the loosest layer (`Grouping.ChainIsGrouped`), and
    brackets are printed where leaving them out would change the reading
    (`Grouping.LeftBracketsAreNeeded`, `Grouping.RightBracketsAreNeeded`).
11. **Intervals contain every result** of their operations, NaN included
    (`Intervals.MulIsSound`, `Intervals.DivIsSound`); powers, minima and maxima
    exactly where a condition on the two operand intervals holds
    (`Intervals.PowIsSoundExactly`, `Intervals.MinIsSoundExactly`,
    `Intervals.MaxIsSoundExactly`). So the range computed for a node is right
    exactly there (`MathFacts.RangeIsSoundExactly`), and its fact, folded constant
    included, is true (`MathFacts.MakeIsSound`, `MathFacts.MergeIsSound`). Nor is
    more given away than need be: bounds are results of members up to a step
    outward (`MathFacts.RangeIsTight`), NaN is allowed where it can occur
    (`MathFacts.InvalidExactly`), and a constant is known exactly where the source
    can evaluate it (`MathFacts.ConstantIsExact`).
12. **Leases fence** (`Protocols.LeasesAreFenced`, `Protocols.SettleIsFenced`),
    circuits hold for their cooldown (`Protocols.CircuitHolds`), terminal
    deliveries stay terminal until replayed (`Protocols.TerminalUntilReplayed`)
    and rate limits space claims (`Protocols.ClaimsAreSpaced`,
    `Protocols.WindowIsBounded`), over all interleavings. A claim with room
    left passes over nothing that may be sent (`Promises.NothingIsPassedOver`), and a
    failed attempt is retried exactly if the answer allows it and attempts are left
    (`WorkerLoop.Workers.Deliver`), after a delay that grows to its cap
    (`Backoffs.DelayIsBounded`, `Backoffs.BackoffGrows`).
13. **Identifiers** are ordered as their bytes and give their time back
    (`Identifiers.EncodedIsOrdered`, `Identifiers.TimeReadsBack`).

## Where the code and its promises part

The model follows the code. Each of these has a condition proved exact, or an
input proved to fail.

- Two claims of one delivery at one instant give it two holders, in a run from
  an empty system (`Protocols.OneInstantTwoOwners`): lease times are compared
  for equality, so fencing needs distinct instants
  (`Protocols.ClaimKeepsOneOwner`).
- A replay during an attempt goes unnoticed exactly if the attempt was the first
  and its lease, still held, has not run out (`Protocols.ReplayInFlight`): the
  compare-and-set sees only status, attempts and lease, and a replay resets the
  attempts and clears a lease only once it has run out.
- `rebuild` is said to run the analysis to a fixpoint. With fuel to spare,
  recomputing any class leaves its fact unchanged, except in a class that uses
  itself, which is not queued again, and in one whose fact was not up to date
  and that no pending id concerns (`EGraphs.EGraph.PropagateAnalysis`). Both
  happen: a union that leaves the survivor's fact as it was tells nobody, though
  what used the class absorbed may now know more (`Staleness.NobodyIsTold`), and
  a class that is its own negation would move again
  (`Staleness.LoopsAreNotRevisited`). Every fact is true all the same. The rounds of
  a rebuild are limited too: after a hundred of them, or where the fuel runs out,
  facts and constants may be left for another rebuild (`EGraphs.EGraph.Rebuild`).
- The compiler casts the parameter index to sixteen bits unchecked; it finds every
  parameter exactly when there are at most 65536
  (`Machines.ParameterIndexIsExact`).
- That whatever is printed parses back, as a test puts it, is not true of every
  tree: `neg(3)` prints as `-3`, a power of negative zero loses its bracket, NaN
  prints as a variable name, and a derivative whose first argument is no longer
  a variable is rejected (`Syntax.SurvivesExactly`). A sign to the right of a power is
  bracketed though it need not be (`Grouping.SignBracketsAreNeeded`).
- The flag of a capped search is meant to say that the search was cut short. It
  does if every list has room, and where no limit is exceeded only then
  (`Matching.SearchCapped`): the caps on one class and on the lists kept on the
  way are not reported. Only inputs that exceed a limit and lack room as well
  are left open, the flag being right for them if it is set. A rebuilt graph
  with one class of 513 negations shows it: the search for a negation comes back
  with the flag unset and a match missing (`Caps.CapsAreSilent`).
- An interval power with a negative exponent misses a reciprocal whose power
  overflowed, in every format in which one over the overflowed square is more
  than next to zero (`Intervals.SquareEscapes`; with doubles, 2^512 to the -2),
  and the fallback for bases not below zero misses minus infinity from a
  negative zero (`Intervals.NegativeZeroEscapes`). `Intervals.PowIsSafe` is the
  exact condition on the operands.
- Interval `min` and `max` clear the NaN flag unless both operands have it, though
  the other operand then comes through whole: a NaN literal beside any number
  escapes (`Intervals.NaNLiteralEscapes`). `Intervals.MinIsSafe` and
  `Intervals.MaxIsSafe` are the exact conditions.
- An id keeps the low 48 bits of its time, so later times come back reduced
  (`Identifiers.TimeReadsBack`).

## Model

| member | source | states |
|---|---|---|
| `Lang.CanonDecidesCongruence` | src/egraph.rs:8-9 | two nodes have one canonical form exactly when they have the same operator and pairwise equivalent children, commutative swaps included |
| `Lang.CanonOfCanon` | src/egraph.rs:255-259 | canonicalizing by a finer partition first changes nothing |
| `UnionFinds.DepthIsLogarithmic` | src/unionfind.rs:36-56 | the stored size at least doubles along every parent link, so a chain of n ids has at most log2(n) links |
| `UnionFinds.RootsAreUnique` | src/unionfind.rs:36-56 | the representative of an id is determined by the parent links alone |
| `UnionFinds.MergedSizes` | src/unionfind.rs:59-76 | merging adds the true sizes of the two sets and leaves every other set alone |
| `UnionFinds.UnionFind.Find` | src/unionfind.rs:36-45 | path halving returns the representative in at most log2(n) steps and changes no root |
| `UnionFinds.UnionFind.Union` | src/unionfind.rs:59-76 | the larger set keeps its representative, the partition becomes exactly the merged one, stored sizes stay exact |
| `UnionFinds.UnionFind.CompressAll` | src/unionfind.rs:79-84 | every id points at its representative, which is unchanged |
| `Graphs.JoinKeeps` | src/egraph.rs:364-397 | uniting two classes keeps the invariant of the dirty graph once the survivor is pending |
| `Graphs.AddKeeps` | src/egraph.rs:276-315 | adding a node that the hashcons misses keeps the invariant of the dirty graph |
| `Graphs.TakeKeeps` | src/egraph.rs:568-577 | taking the parent list of a class under repair opens a repair in which nothing is lost |
| `Graphs.DropKeeps` | src/egraph.rs:578-582 | dropping a stale hashcons key keeps every node listed, filed or about to be filed |
| `Graphs.SeeNext` | src/egraph.rs:583-606 | re-filing the next parent under its new canonical form keeps the repair going, though the unions it makes change what is canonical |
| `Graphs.JoinRepairing` | src/egraph.rs:590-600 | a union in the middle of a repair keeps it sound |
| `Graphs.ReleaseKeeps` | src/egraph.rs:607-620 | returning the deduplicated parents ends the repair: the class is no longer pending |
| `Graphs.DormantIsCongruent` | src/egraph.rs:6-9 | with nothing pending, congruent nodes share a class |
| `Graphs.IndexedIsDormant` | src/egraph.rs:792-887 | the conditions of `check_invariants` imply the invariant kept between operations, with nothing pending |
| `Congruences.RootIsCongruence` | src/egraph.rs:364-397 | after a rebuild the partition satisfies every equation asserted and is closed under congruence |
| `Congruences.LeastCongruence` | src/egraph.rs:551-621 | two ids share a class exactly when every congruence of what was added and asserted relates them |
| `Congruences.OrderDoesNotMatter` | tests/egraph.rs:121-158 | two graphs given the same nodes and equations, adding and asserting mixed and ordered in any way, have the same partition under the renaming of their ids |
| `EGraphs.SameInputsAgree` | tests/egraph.rs:121-158 | two rebuilt e-graphs given the same nodes and equations merge the same ids |
| `Meanings.CongruentDenotes` | src/egraph.rs:255-259 | congruent nodes of an operator vouched for, swaps included, denote one value |
| `Meanings.OwnerDenotes` | src/egraph.rs:262-266 | the class a node is looked up in denotes the value of the node |
| `Meanings.JoinMeaningful` | src/egraph.rs:364-397 | merging two classes of one value keeps every node evaluating to its class's value |
| `NodeOrders.SortNodes` | src/egraph.rs:742-743 | the same nodes, strictly increasing: sorted and without repeats |
| `NodeOrders.NodeOrderIsTotal` | src/lang.rs:470-476 | any two different nodes are ordered, operator first |
| `Histories.TracksUnion` | src/egraph.rs:390-395 | recording each union keeps the record complete: its connected components are the classes |
| `Histories.TracksConnectivity` | src/egraph.rs:401-409 | two ids are connected in the record exactly when find agrees on them |
| `Histories.RecountedUnion` | src/egraph.rs:390-395 | every union recorded stays one of equal ids, and every congruence cited stays one of congruent nodes |
| `Steps.HitStep` | src/egraph.rs:276-283 | adding a node the graph has returns the class that owns it and changes nothing else |
| `Steps.MissStep` | src/egraph.rs:284-315 | adding a new node keeps the invariant, the least-congruence property, the interpretation and the facts |
| `Steps.UnionStep` | src/egraph.rs:364-397 | asserting an equation keeps all of them, the equation included in what the partition is least for |
| `Steps.CongruenceStep` | src/egraph.rs:590-600 | a union forced by congruence merges nothing some congruence keeps apart, and only equal values |
| `Steps.ReindexStep` | src/egraph.rs:733-786 | rebuilding the indices establishes every condition of `check_invariants` and keeps partition, record and values |
| `Reindexing.IndexClasses` | src/egraph.rs:751-779 | the hashcons files exactly the nodes of the classes, the operator index lists exactly the classes holding each operator, ascending |
| `Reindexing.LinkParents` | src/egraph.rs:780-785 | each class gets exactly the parents the links name |
| `EGraphs.EGraph.constructor` | src/egraph.rs:117-133 | an empty, clean graph |
| `EGraphs.EGraph.EnableExplanations` | src/egraph.rs:138-142 | starts an empty record, complete if the graph is empty |
| `EGraphs.EGraph.Justify` | src/egraph.rs:154-156 | unions made from here on record this reason, and nothing else changes |
| `EGraphs.EGraph.UnionBecause` | src/egraph.rs:159-164 | unites for one reason and restores the previous one |
| `EGraphs.EGraph.Canonicalize` | src/egraph.rs:255-259 | returns the canonical form |
| `EGraphs.EGraph.Lookup` | src/egraph.rs:262-266 | on a clean graph finds a class exactly when one holds a congruent node |
| `EGraphs.EGraph.Add` | src/egraph.rs:276-315 | the id returned owns the node; a congruent node already present is found and nothing else changes, otherwise one class and one node are new; the value and the record are exact; whatever was in the graph is still where it was; in a graph with nothing left to do, a node found to be constant is left for the rebuild to fold |
| `EGraphs.EGraph.Union` | src/egraph.rs:364-397 | the two ids become equal, nothing known equal is separated, the result says whether they differed |
| `EGraphs.EGraph.Repair` | src/egraph.rs:568-620 | the class repaired is no longer pending; every union is paid for with a class; congruence and values are kept |
| `EGraphs.EGraph.MergeCongruent` | src/egraph.rs:583-606 | every parent taken is re-filed under its canonical form, owners of equal forms united |
| `EGraphs.EGraph.RestoreCongruence` | src/egraph.rs:551-565 | terminates, since each further round spends a class, with nothing pending |
| `Propagation.PropagateStep` | src/egraph.rs:684-719 | recomputing one class keeps every class stable, queued, using itself, about to hear of one whose fact moved, or stale before with nobody to tell it |
| `Propagation.PropagateEnds` | src/egraph.rs:656-662 | with nothing queued any more only classes that use themselves, and stale ones no pending id concerned, can still change |
| `Propagation.OthersAreKept` | src/egraph.rs:656-658 | a class not among those returned has the fact it had |
| `EGraphs.EGraph.PropagateAnalysis` | src/egraph.rs:663-723 | terminates by its fuel; the facts are those recomputed class after class along the order visited, true and with the partition unchanged; returns exactly the classes visited whose fact moved on the way or that were pending; with fuel to spare that is every class pending, and recomputing any class changes nothing, but for classes that use themselves and those stale before that no pending id concerned; no class whose constant is known but not held is forgotten unless the fuel runs out |
| `Staleness.NobodyIsTold` | src/egraph.rs:376-397 | a graph of up-to-date facts and a union after which a class that does not use itself has an outdated fact, though the survivor's fact did not move and so nothing is queued |
| `Staleness.LoopsAreNotRevisited` | src/egraph.rs:710-718 | a class that is its own negation, whose fact would move again after being recomputed once |
| `EGraphs.EGraph.Recompute` | src/egraph.rs:698-707 | the new fact of a class is the combination of the facts of its nodes, nothing else changes, and it says whether the fact moved |
| `EGraphs.EGraph.Modify` | src/analysis.rs:212-226 | a class proven constant ends up holding that literal, which it denotes, and need not wait for it any longer; without a proven constant nothing changes |
| `EGraphs.EGraph.Rebuild` | src/egraph.rs:514-549 | terminates and leaves every condition of `check_invariants` true, and whatever was in the graph where it was; no fact is left to propagate and no constant left to fold, unless the analysis was cut off after a hundred rounds or a thousand recomputations; a node just added and known to be constant is folded even then; a clean graph whose analysis has nothing to do stays as it is; nothing false is declared; without an analysis nothing is added or asserted, and nothing merged if nothing was pending |
| `Foldings.UnionFolds` | src/analysis.rs:212-226 | uniting a class with its literal folds it, and whatever else awaits folding still waits or is folded |
| `ConstantFolding.NoConstantIsForgotten` | src/analysis.rs:212-226 | with nothing left to do, every class known to be constant holds its literal |
| `ConstantFolding.OwnerIsConstant` | src/analysis.rs:122-144 | an up-to-date class one of whose nodes is known to be constant is |
| `ConstantFolding.AddAndRebuild` | src/egraph.rs:514-549 | an operator on known constants with a finite value, added to a graph with nothing left to do and rebuilt, is in one class with the literal of its value; if it was there already, its class, if up to date, holds the literal of the constant known of it |
| `EGraphs.EGraph.Reindex` | src/egraph.rs:733-786 | canonical nodes sorted and deduplicated, exact hashcons, operator index and parent lists |
| `Expressions.Reachable` | src/lang.rs:611-625 | exactly the ids reachable, ascending, the root last |
| `Expressions.EvalAt` | src/eval.rs:53-70 | returns the value of the term, or the fault of a reachable node exactly when there is no value |
| `Machines.EvalWith` | src/vm.rs:87-125 | runs the code on a caller's slots, grown if too small, and touches no slot beyond its own |
| `Machines.FoldIsVal` | src/vm.rs:260-272 | a folded node has its compile-time value in every environment |
| `Machines.SlotsHoldValues` | src/vm.rs:104-124 | whatever was in the slots before, after each instruction every slot holds the value of the node it was written for |
| `Machines.RunIsVal` | src/vm.rs:87-125 | a compiled program run on any slot array computes what the interpreter computes, given at most 65536 parameters |
| `Machines.EvalEnv` | src/vm.rs:128-134 | runs with variables looked up by name; an error names a parameter that is not bound |
| `Machines.ParameterIndexIsExact` | src/vm.rs:456-463 | the unchecked sixteen-bit cast finds every parameter exactly when there are at most 65536 |
| `Compilers.EmitKeeps` | src/vm.rs:398-407 | writing a fresh slot disturbs no value still to be read |
| `Compilers.FreeKeeps` | src/vm.rs:409-428 | a slot whose value is read no more may be freed, once |
| `Compilers.DeadIsHeld` | src/vm.rs:409-428 | an operand read for the last time is still in its slot, which is neither free nor the one just written |
| `Compilers.LastUses` | src/vm.rs:380-394 | a last use is a use, and no operand is read after its last use |
| `Compilers.Compiler.InternConst` | src/vm.rs:312-326 | the index of a constant in the pool, which holds it once; fails exactly when the pool is full and does not hold it |
| `Compilers.Compiler.Alloc` | src/vm.rs:328-338 | a slot no value still to be read is in, one more slot being in use; fails only when none is free and no number is left |
| `Compilers.Compiler.FoldAll` | src/vm.rs:340-362 | folds exactly the nodes that have a compile-time value; fails exactly on a derivative |
| `Compilers.Compiler.Emitted` | src/vm.rs:364-379 | in order, exactly the root, what is computed when the program runs, and what that reads |
| `Compilers.Compiler.Emit` | src/vm.rs:440-496 | the instruction computes its node from slots still holding its operands, all indices in range |
| `Compilers.Compiler.Run` | src/vm.rs:340-438 | the program computes the term; it is refused for a reachable derivative, exactly then with that error, and otherwise exactly if the term loads more than 65536 distinct constants or some value is computed while 65536 others are awaited; its parameters are exactly the variables read |
| `Compilers.AliveIsAwaited` | src/vm.rs:380-428 | the values still to be read before an instruction are those the term awaits there |
| `Compilers.AliveNext` | src/vm.rs:409-428 | an instruction brings one value to life and ends those it reads last, counted |
| `Compilers.StuckIsTooLarge` | src/vm.rs:312-338 | where the pool or the slots run out, the term itself needs too many |
| `Compilers.FitsIsNotTooLarge` | src/vm.rs:312-338 | where they never run out, it does not |
| `Pressures.KeptIsRead` | src/vm.rs:364-379 | whatever takes an instruction, but for the root, is read by a node computed when the program runs |
| `Compilers.CompileAndEval` | src/vm.rs:51-134 | compiling and running agrees with the interpreter on the value, and on whether there is one |
| `Terms.OpCostIsFair` | src/extract.rs:56-88 | the latency model costs more than its parts, grows with them and ignores commutative order |
| `Terms.SizeAndDepthAreFair` | src/extract.rs:24-46 | so do tree size and tree depth |
| `Prices.KindsArePriced` | src/extract.rs:56-78 | an operator costs its number of adds beside its arguments, from 1 to 1000000000; a literal or a variable something, but less than any |
| `Prices.SharingPays` | src/extract.rs:47-52 | twice a quotient is cheaper than its sum with itself, and the exponential of a sum than a product of exponentials |
| `Prices.DerivativesAreLast` | src/extract.rs:74-76 | a term with a derivative in it is extracted only if every term of its class costs a thousand million adds |
| `Terms.EqualTermsAreShared` | src/lang.rs:499-506 | in a hashconsed expression equal subterms are one node, commutative order aside |
| `Terms.RecExpr.Add` | src/lang.rs:525-541 | appends the normalized node unless it is there, keeping the expression maximally shared |
| `Terms.RecExpr.Compact` | src/lang.rs:685-699 | keeps exactly what the root reaches, the root last, the same tree |
| `Terms.TreeCost` | src/extract.rs:427-434 | the cost of the tree the expression expands to |
| `Extraction.RepresentsDenotes` | src/extract.rs:166-191 | every term of a class denotes what the class does |
| `Extraction.Solve` | src/extract.rs:109-156 | terminates; every price is supported by a node of its class and no node is cheaper |
| `Extraction.PricesAreOptimal` | src/extract.rs:98-108 | a class is priced exactly when it holds a finite term, at the least cost of any term in it |
| `Extraction.SolvedDescends` | src/extract.rs:158-165 | the choices form no cycle: children are strictly cheaper, and each price is its own formula |
| `Extraction.BuildInto` | src/extract.rs:166-191 | what is built is a term of the class, made of the choices; under the optimal selection it always is built and costs the price; nothing is built exactly when the choices from the class on make no finite term |
| `Extraction.TryFindBest` | src/extract.rs:285-299 | a term is returned exactly when the class holds a finite one, and it is a cheapest |
| `Extraction.Materialized` | src/extract.rs:232-247 | the least set of classes holding the root and the children of every choice in it |
| `Extraction.DagCost` | src/extract.rs:414-424 | each reachable node counted once |
| `Extraction.TryFindBestShared` | src/extract.rs:386-411 | a term of the class exactly when it holds a finite one, found by such a chain of attempts from the cheapest tree, and never worse than it in shared cost |
| `Patterns.NamesDenotes` | src/pattern.rs:232-240 | a class a pattern names denotes what the pattern does under the substitution |
| `Patterns.SplitMatch` | src/pattern.rs:373-404 | every match of some children extends a match of those before |
| `Patterns.NamesTransfers` | src/runner.rs:345-348 | what a pattern names depends only on the forms the classes own |
| `Patterns.NamesLasts` | src/rewrite.rs:47-99 | a class a pattern names it still names in every later graph |
| `Enumerations.TraceIsExact` | src/pattern.rs:298-404 | without limits the matcher lists exactly the substitutions under which the pattern names the class |
| `Enumerations.OutcomeOfBoth` | src/pattern.rs:298-371 | one part of the matcher after another: cut short exactly if one of them has no room or the budget does not last for both |
| `Enumerations.OutcomeOfKid` | src/pattern.rs:384-401 | a child matched from a list that may have been cut lists nothing else, with no more work, and is cut exactly if a list so far had no room or the budget did not last |
| `Enumerations.FrontThins` | src/pattern.rs:384-396 | from a frontier with some substitutions left out less is listed, with less work |
| `Matching.Run` | src/pattern.rs:330-337 | the nodes of a sorted class with one operator are exactly one contiguous run |
| `Matching.MatchNode` | src/pattern.rs:298-371 | lists what the matcher without limits does with some left out, and spends no more; leaves something undone exactly if a list has no room or the work exceeds the budget, and otherwise lists everything at exactly its work |
| `Matching.MatchChildren` | src/pattern.rs:373-404 | the same for children left to right, repeated variables included |
| `Matching.SearchCapped` | src/pattern.rs:264-296 | every substitution found names its class; if the flag is unset none is missing in any class whose lists have room; something is left undone exactly if the flag is set or some list has no room; where all lists have room the flag says so, being set exactly if work or count exceed their limits, and where they do not it says so exactly if all lists have room |
| `Caps.SomeMatchIsMissed` | src/pattern.rs:114-119 | a class with more than 512 matches misses one, whatever was found |
| `Caps.CapsAreSilent` | src/pattern.rs:268-269 | in a rebuilt graph the flag stays unset though a match is missing |
| `Rewriting.NamesUnique` | src/pattern.rs:410-428 | a pattern under a substitution names at most one class of a clean graph |
| `Rewriting.Instantiate` | src/pattern.rs:410-428 | the pattern names the id returned from then on; adds nothing exactly where it is present, and otherwise one class per new node; the root denotes the pattern's value |
| `Conditions.Test` | src/rules/mod.rs:118-143 | the answer a condition gives about a match: on facts, on independence, on two classes being different, and conjunctions of these |
| `Conditions.HeldIsGranted` | src/rules/diff.rs:158-184 | whatever a condition answers in a graph of equal values is true of the values: a body found independent is the value of a term without the variable |
| `Rewriting.Check` | src/rewrite.rs:78-85 | fires exactly if the condition holds of the match in the graph as it stands, and then a sound rule adds an equal term, within the operators vouched for |
| `Rewriting.IndependentRuleIsSound` | src/rules/diff.rs:229-230 | the rule that drops the derivative of what cannot vary is sound wherever such derivatives are zero |
| `Rewriting.ApplyMatch` | src/rewrite.rs:47-99 | if the condition holds now, or there is none, the class holds the right side from then on; if it does not, nothing at all changes; a clean graph in which no union is made is as it was; whatever was in the graph is still where it was |
| `Schedulers.BansDouble` | src/runner.rs:190-198 | up to the seventeenth ban, each doubles the threshold of the rule and the length of its next ban |
| `Schedulers.BansLevelOff` | src/runner.rs:191-193 | from then on both stay as they are |
| `Schedulers.BackoffScheduler.Begin` | src/runner.rs:173-185 | the rule has statistics, new ones if it was not searched before, and is held back exactly if banned |
| `Schedulers.BackoffScheduler.Record` | src/runner.rs:190-200 | more matches than the threshold ban the rule until the length of its ban has passed, and no fewer do; otherwise they are added to its count |
| `Schedulers.BackoffScheduler.Search` | src/runner.rs:167-201 | a banned rule finds nothing; the matches of another are counted and recorded, and handed out exactly if they are no more than its threshold; if the search meets none of its limits they are all there are |
| `Schedulers.BackoffScheduler.CanStop` | src/runner.rs:210-228 | true exactly when nothing is banned; otherwise every ban is lifted, and nothing else changes |
| `Schedulers.NotHeldBack` | src/runner.rs:210-228 | if nothing is banned when the searches of a pass are over, and bans last at least one iteration, no rule's matches were held back in it |
| `Runners.Runner.SearchPhase` | src/runner.rs:386-408 | the searches of the rules one after another on the graph as it stands, each exactly what the scheduler makes of it; all of them unless the budget of the run ran out, which it then had |
| `Runners.Runner.ApplyPhase` | src/runner.rs:421-472 | the matches found have their turns in order, all of them unless the budget ran out, which it then had: the node limit is reported only of a graph that exceeds it; asserts only true equations if the rules are sound; merging nothing means every turn left the graph as it was |
| `Runners.Runner.Iterate` | src/runner.rs:366-505 | one pass keeps the graph clean and its ledger growing (only true equations if the rules are sound) and is recorded; it starts only within the limits, and ends the run exactly if it was cut short, for the reason that cut it short, or got nowhere with nothing banned; then, unless it was cut short, the graph is closed |
| `Runners.Runner.Run` | src/runner.rs:349-511 | every pass starts where the one before ended and was not to be the last; the reason given is the one there was: a limit exceeded, or a last pass that got nowhere with nothing banned; a saturated graph is closed under every rule, conditions included, whose search fits its limits in it, if the analysis had nothing left to do before the last pass, and without an analysis under those without condition in any case; whatever stops the run, the interpretation is kept if the rules are sound |
| `Closures.FittingIsClosed` | src/runner.rs:349-511 | if every search fits its limits, a closed graph holds every consequence of all its rules: wherever a condition holds in it, the right side is there |
| `Closures.SameTables` | src/runner.rs:345-348 | a rebuild that changes nothing known leaves the node lists of the classes as they were, so what fits a search is unchanged |
| `Closures.ClosedStays` | src/runner.rs:345-348 | a graph that keeps its classes, their nodes and their facts stays closed, under rules with conditions too |
| `Turns.TurnsAreInPlace` | src/rewrite.rs:78-85 | every match whose condition held in its turn is in place once all turns are over |
| `Turns.PassFires` | src/runner.rs:421-472 | in a pass that was not cut short every match of a rule not held back, whose search fits its limits, had its turn, and is in place afterwards if its condition held then |
| `Turns.IdleMeansClosed` | src/runner.rs:24-26 | a pass whose turns changed nothing, with nothing banned, shows the graph closed under all rules whose search fits |
| `Saturation.AddExpr` | src/egraph.rs:327-339 | children first, every node of the expression is added and its class denotes its subterm's value, if all its operators are vouched for |
| `Saturation.Simplify` | src/runner.rs:349-511 | the term extracted after a run evaluates to the value of the input, if rules and input stay within the operators vouched for, and costs no more |
| `Explanations.FindPath` | src/egraph.rs:440-463 | breadth-first search finds a shortest chain of recorded unions if there is any |
| `Explanations.PairsAgree` | src/egraph.rs:630-653 | the arguments of a recorded congruence are equal as they are paired up |
| `Explanations.ExplainWithin` | src/egraph.rs:415-501 | the steps chain from the first id to the second along recorded unions, shortest; at each congruence exactly the argument pairs that differ, are joined, are not being explained already and have depth left are explained |
| `Explanations.Explain` | src/egraph.rs:401-411 | answers only for equal ids, and for all of them if the record was kept from the start |
| `Queues.CooldownGrows` | hookline/src/breaker.rs:77-85 | a further failure never shortens the cooldown, which never exceeds its cap |
| `Promises.CooldownDoubles` | hookline/src/breaker.rs:73-85 | the first cooldown is the policy's, each further failure doubles it up to its cap, and it is constant from the thirty-third on |
| `Promises.SpacingIsLongest` | hookline/src/queue.rs:191-205 | so many claims a minute are spaced as far apart as leaves room for all of them, and by a millisecond at least |
| `Queues.Database.ClaimUnlimited` | hookline/src/queue.rs:102-131 | the first due deliveries in queue order, up to the limit, and no other, are leased |
| `Queues.Database.ClaimLimited` | hookline/src/queue.rs:134-209 | the first limited endpoints that are allowed one give their earliest due delivery each, and are spaced |
| `Queues.Database.Claim` | hookline/src/queue.rs:68-99 | the two passes share one limit, touch disjoint rows, lease exactly what they return, and hand out each row's attempts and lease as claimed |
| `Queues.Database.Settle` | hookline/src/queue.rs:244-359 | the whole state afterwards is the settled state (row rewritten only if status, attempts and lease are as claimed, lease returned otherwise, health and endpoint updated by the breaker) and the answer is the one that state deserves |
| `Queues.Database.Superseded` | hookline/src/queue.rs:369-380 | gives back the lease only if it is still this job's |
| `Queues.Database.Apply` | hookline/src/queue.rs:382-405 | opening sets the circuit only where health is recorded; disabling switches the endpoint off and cancels its pending rows; continuing changes nothing |
| `Queues.Database.Replay` | hookline/src/api/deliveries.rs:147-161 | the transaction: pending again with no attempts, a live lease left alone (the row update at hookline/src/store.rs:563-575), the endpoint's circuit closed |
| `Queues.Database.Cancel` | hookline/src/store.rs:578-592 | cancelled and unleased, unless over already |
| `Queues.Database.Disable` | hookline/src/store.rs:210-229 | the endpoint is off and its pending deliveries cancelled |
| `Queues.Database.Enable` | hookline/src/store.rs:231-242 | the endpoint is on with a clean breaker |
| `Queues.Database.Resume` | hookline/src/store.rs:269-277 | the circuit is closed and what is pending becomes due, counted |
| `Queues.Database.ReclaimLeases` | hookline/src/worker.rs:246-255 | after a restart no pending delivery is leased, and nothing else changed |
| `Protocols.StepKeeps` | hookline/src/queue.rs:244-359 | in every reachable state a pending delivery has attempts left, jobs match their rows, an open circuit ends within its cooldown |
| `Protocols.ClaimKeepsOneOwner` | hookline/src/queue.rs:38-56 | after a claim every lease still has one holder exactly when no delivery was claimed twice at one instant |
| `Protocols.LeasesAreFenced` | hookline/src/queue.rs:38-56 | in a run whose claims of one delivery happen at distinct instants, no two jobs in flight hold one row's lease |
| `Protocols.OneInstantTwoOwners` | hookline/src/store.rs:563-592 | a run from an empty system in which a delivery claimed, cancelled, replayed and claimed within one millisecond has two holders |
| `Protocols.SettleIsFenced` | hookline/src/queue.rs:361-380 | a settle that finds the row changed leaves status, attempts and next time alone, save the cancellation of a disabled endpoint's rows |
| `Protocols.SettleIsExact` | hookline/src/queue.rs:272-359 | a settle that finds the row as claimed counts the attempt; the delivery succeeds exactly on success, fails exactly if it may not be retried or no attempt is left, is cancelled exactly if otherwise its endpoint is given up, and is pending otherwise, due when the retry is, or when the circuit closes if that is later |
| `Protocols.ReplayInFlight` | hookline/src/store.rs:549-575 | a replay during an attempt leaves the job the row's lease exactly if it has it and it has not run out, and goes unnoticed exactly if moreover the attempt was the first |
| `Protocols.TerminalUntilReplayed` | hookline/src/store.rs:563-592 | a terminal delivery stays terminal until it is replayed |
| `Protocols.CircuitHolds` | hookline/src/queue.rs:117-122 | once a circuit is open nothing is claimed for the endpoint before it ends, unless a success, replay, resume or enable closes it |
| `Protocols.SettleOpens` | hookline/src/breaker.rs:59-75 | the circuit opens for exactly the cooldown the failures have earned, at most the cap |
| `Protocols.ClaimsAreSpaced` | hookline/src/queue.rs:191-205 | two claims serving a limited endpoint are at least its spacing apart |
| `Protocols.WindowIsBounded` | hookline/src/queue.rs:191-205 | a window of w ms serves a limited endpoint at most (w - 1) / spacing + 1 times |
| `Promises.ClaimedMayBeSent` | hookline/src/queue.rs:102-209 | what is claimed was pending, due, held by nobody, at an endpoint switched on, its circuit not open, and in its turn if limited; it is leased for the lease time and otherwise as it was |
| `Promises.NothingIsPassedOver` | hookline/src/queue.rs:68-99 | a claim with room left takes every unlimited delivery that may be sent, and one of every limited endpoint that has one and whose turn it is |
| `Promises.EarlierIsTakenFirst` | hookline/src/queue.rs:102-209 | what is taken precedes what is left, by time and then by id: among the unlimited, and within a limited endpoint |
| `Promises.DisabledGetsNothing` | hookline/src/store.rs:210-242 | in every run, from when an endpoint is switched off until it is enabled nothing is claimed for it |
| `Promises.FailureDecides` | hookline/src/breaker.rs:59-71 | a failure counts; the one that reaches the limit switches the endpoint off and leaves nothing of it pending; short of that each from the threshold on opens the circuit for the cooldown earned, and no other does |
| `Promises.SuccessForgives` | hookline/src/store.rs:701-713 | a success forgets the failures and closes the circuit |
| `Promises.OperatorsAreObeyed` | hookline/src/store.rs:210-592 | what each action of an operator leaves behind |
| `Promises.OthersAreLeftAlone` | hookline/src/store.rs:477-592 | an event about one delivery or endpoint leaves the rows of the others alone |
| `Backoffs.DelayIsBounded` | hookline/src/backoff.rs:60-80 | there is no delay exactly when the attempts are used up; one there is lies between the undrawn part and the whole of the backoff, which never exceeds its cap |
| `Backoffs.BackoffGrows` | hookline/src/backoff.rs:67-68 | the first backoff is the base and each further one is `factor` times as long, up to the cap |
| `Backoffs.JitterIsTheDrawnPart` | hookline/src/backoff.rs:69-78 | without jitter the delay is the backoff, with full jitter anything from zero to it |
| `WorkerLoop.WhatIsRetried` | hookline/src/sender.rs:167-178 | exactly the answers 200 to 299 are successes; no answer is retried, and of answers exactly 408, 429 and those that do not blame the request |
| `WorkerLoop.Workers.Claim` | hookline/src/worker.rs:124-133 | claiming a batch is a step of the protocol from any reachable state, keeps its invariant and launches at most a batch |
| `WorkerLoop.Workers.Deliver` | hookline/src/worker.rs:136-171 | recording a result is a step of the protocol and keeps its invariant; a retry is scheduled exactly if the answer allows one and attempts are left, after the delay of the schedule; then a delivery whose row is still as claimed is pending with one attempt more, unless its endpoint is given up, and one not to be retried is over; the result says which |
| `UnionFinds.UnionFind.MakeSet` | src/unionfind.rs:18-24 | a new set of size one; every other set is as it was |
| `UnionFinds.UnionFind.FindImmutable` | src/unionfind.rs:47-55 | the representative, found without moving any link |
| `Extraction.BuildFrom` | src/extract.rs:193-206 | a fresh maximally shared expression whose root is a term of the class, at the price of the class if the selection is optimal; none exactly if the choices from the class on make no finite term |
| `Extraction.StackedIsCyclic` | src/extract.rs:166-191 | running into a class being built means that the choices from it on make no finite term |
| `Extraction.Refine` | src/extract.rs:386-411 | a chain of attempts, each pricing at zero just the classes the selection so far materializes, but for the root; every attempt before the last was an improvement and was kept, and the last one is kept exactly if it is one; they end early only at one that is not, or at none |
| `Matching.SearchEClass` | src/pattern.rs:243-260 | the matches of one class, each once: only matches in any case, all of them exactly counted if nothing was cut, which a list without room or too much work alone causes |
| `Matching.Candidates` | src/pattern.rs:270-296 | exactly the classes holding the operator of the root, ascending, where the index can be used, otherwise all; no other can match |
| `Machines.Eval` | src/vm.rs:80-85 | runs on slots of its own |
| `Runners.Runner.CheckLimits` | src/runner.rs:329-341 | the iteration limit exactly when reached, else the node limit exactly when the nodes exceed it, else the time limit only if it has passed; nothing only if none is met |
| `Queues.Database.RecordSuccess` | hookline/src/store.rs:701-713 | no failures, circuit closed, the spacing of the endpoint kept |
| `Queues.Database.RecordFailure` | hookline/src/store.rs:715-725 | one failure more, and the count returned |
| `Queues.Database.OpenCircuit` | hookline/src/store.rs:727-738 | the circuit is open until the time given, where health is recorded at all |
| `Queues.Database.CloseCircuit` | hookline/src/store.rs:742-750 | the circuit is closed and the failures forgotten |
| `Queues.Database.Enqueue` | hookline/src/store.rs:477-492 | a pending delivery without attempts, due at once |
| `WorkerLoop.Workers.ReclaimLeases` | hookline/src/worker.rs:246-255 | a restart is a step of the protocol |
| `Differentiation.WitnessMeansUnaffected` | src/rules/diff.rs:84-101 | a class holding a term without the variable denotes one value under any two interpretations that differ in the variable alone |
| `Differentiation.AdmitKeeps` | src/rules/diff.rs:128-132 | admitting a class with a node whose children are admitted admits only classes with a witness |
| `Differentiation.FixpointIsComplete` | src/rules/diff.rs:134-154 | once nothing in the cone is ready any more, every class with a witness has been admitted |
| `Differentiation.PopVisits` | src/rules/diff.rs:143-152 | taking a class off the queue concerns none but its users |
| `Differentiation.Cone` | src/rules/diff.rs:105-126 | terminates on cyclic graphs with a set closed under children in which every child lists the classes that refer to it |
| `Differentiation.FreeOfVar` | src/rules/diff.rs:102-155 | terminates, and answers yes exactly when the class holds a finite term without the variable |
| `Differentiation.DifferentiationVars` | src/rules/diff.rs:67-72 | exactly the variables in the class, ascending, each once |
| `Differentiation.IndependentOf` | src/rules/diff.rs:158-167 | holds exactly when the class has a variable and the body has a witness against each of them |
| `Differentiation.DependsOn` | src/rules/diff.rs:175-184 | holds exactly when the body lacks a witness against some variable of the class |
| `Differentiation.ConditionsAreComplementary` | src/rules/diff.rs:169-174 | the two conditions never both hold, and one does exactly when there is a variable to differentiate by |
| `Syntax.FnNameReadsBack` | src/lang.rs:206-228 | the printed name of a call is read back as its operator and is no keyword |
| `Grouping.ChainIsGrouped` | src/parser.rs:140-156 | any number of operands and infix operators is read as the tree a reference grouping gives, which splits at the loosest level, from the right or, for powers, the left, signs in between |
| `Grouping.SymbolIsOperator` | src/parser.rs:119-136 | each infix symbol between two operands is its operator on them, in that order, and so it is printed |
| `Grouping.LooserIsLast` | src/lang.rs:246-260 | of two operators of different levels (or, and, equality, comparison, sum, product, power) the looser is applied last, whichever is written first |
| `Grouping.AlikeFromTheLeft` | src/lang.rs:262-265 | operators of one level, powers excepted, are applied from the left |
| `Grouping.PowersFromTheRight` | src/lang.rs:262-265 | powers are applied from the right |
| `Grouping.SignsBindInBetween` | src/parser.rs:158-182 | a minus or not before an operator applies to the left operand alone, but to the whole of a power; after one, to the right operand |
| `Grouping.BracketsAreOperand` | src/parser.rs:183-188 | in brackets a chain is one operand |
| `Grouping.CallIsOperand` | src/lang.rs:206-228 | each name of a function, aliases included, applies the operator of that name to as many arguments in brackets as it takes |
| `Grouping.ConstantIsOperand` | src/parser.rs:270-272 | each name of a constant stands for it |
| `Grouping.LeftBracketsAreNeeded` | src/lang.rs:773-857 | an operation to the left of another is printed without brackets exactly if it would be read back as it stands |
| `Grouping.RightBracketsAreNeeded` | src/lang.rs:773-857 | so is one to the right |
| `Grouping.SignBracketsAreNeeded` | src/lang.rs:788-799 | so are a sign to the left of an operator and an operator under a sign; a sign to its right is bracketed exactly under a power, where it need not be |
| `Syntax.SurvivesExactly` | src/lang.rs:773-857 | the parser's reading of a printed term is the term itself exactly when it is printable: no NaN, no reserved name, no minus on a literal, no negative zero under a power, derivatives by variables only |
| `RoundTrips.InfixReads` | src/parser.rs:140-156 | an operation is read as one exactly because what may follow it binds no tighter than its right side asks |
| `RoundTrips.NegativeZeroReads` | src/lang.rs:788-799 | an unbracketed negative zero under a power is read as the negation of the power |
| `RoundTrips.PrintedReads` | src/parser.rs:140-205 | every printed term reads back as its reading wherever an operand of its precedence may stand, brackets included |
| `RoundTrips.PrintThenParse` | tests/parser.rs:163-197 | what parsing a printed term gives, for every term |
| `RoundTrips.RoundTripsExactly` | tests/parser.rs:163-197 | printing and parsing gives the same tree if and only if the tree is printable |
| `RoundTrips.NegativeZeroUnderPower` | src/lang.rs:788-799 | a power of negative zero comes back as a negated power of zero |
| `Parsers.Parser.ParseExpr` | src/parser.rs:140-156 | on every token stream builds, maximally shared, the term the grammar gives, which groups operators as `Grouping` says, or reports its error; names in scope stand for their nodes |
| `Parsers.Parser.ParsePrefix` | src/parser.rs:158-205 | the same for prefixes, a minus folded into a literal |
| `Parsers.Parser.ParseIdent` | src/parser.rs:207-275 | the same for names: binding, call, bound name, constant or variable, in that order |
| `Parsers.Parser.ParseLet` | src/parser.rs:277-294 | the body with the name standing for the bound node, and the scope as before afterwards |
| `Parsers.Parse` | src/parser.rs:35-40 | the term of the whole input and nothing unreachable, or the error |
| `Parsers.WriteInfix` | src/lang.rs:773-857 | appends exactly the tokens of the node in its position |
| `Parsers.Pretty` | src/lang.rs:731-735 | the tokens of the tree the expression expands to |
| `Parsers.PrintAndParse` | tests/parser.rs:163-197 | a printable expression comes back with the same tree, the order of commutative arguments aside |
| `Identifiers.NumeralsAreOrdered` | hookline/src/ids.rs:10-13 | numerals of one length are ordered as their numbers, and distinct ones spell distinct numbers |
| `Identifiers.AlphabetIsUnambiguous` | hookline/src/ids.rs:17-19 | digits and capitals, but none of I, L, O and U |
| `Identifiers.WriteKeeps` | hookline/src/ids.rs:96-99 | writing five bits loses none of the number read so far |
| `Identifiers.TakeKeeps` | hookline/src/ids.rs:94-95 | taking in a byte loses none either, in a word of thirty-two bits |
| `Identifiers.EncodeInto` | hookline/src/ids.rs:90-104 | appends twenty-six letters spelling the bytes as one number with two zero bits at its end |
| `Identifiers.EncodedIsOrdered` | hookline/src/ids.rs:8-13 | always twenty-six letters, ordered as text exactly as the bytes are, and different for different bytes |
| `Identifiers.NewAt` | hookline/src/ids.rs:76-87 | prefix, underscore and the encoded stamp |
| `Identifiers.KindIsExact` | hookline/src/ids.rs:110-125 | the kind found in a text is the one kind it is a well-formed id of |
| `Identifiers.NewIsWellFormed` | hookline/src/ids.rs:76-87 | an id made for a kind is a well-formed id of that kind |
| `Identifiers.TimeOf` | hookline/src/ids.rs:128-140 | the number of the first ten letters after the underscore without its last two bits, or nothing if the text, taken as bytes, is not such |
| `Identifiers.TenLettersHoldSixBytes` | hookline/src/ids.rs:138-139 | the ten letters hold exactly the six bytes of the timestamp |
| `Identifiers.TimeReadsBack` | hookline/src/ids.rs:195-201 | the time comes back modulo 2^48, negatives as zero, so unchanged exactly when it is from 0 to 2^48 - 1 |
| `Identifiers.IdsSortByTime` | hookline/src/ids.rs:172-186 | an id stamped later sorts after, whatever the random bytes |
| `Intervals.MeetIsSound` | src/interval.rs:183-208 | two true facts about a value combine into a true one, or into no information |
| `Intervals.JoinIsSound` | src/interval.rs:211-218 | covers both possibilities |
| `Intervals.NegIsSound` | src/interval.rs:259-270 | contains the negation of every member, NaN and non-zero included |
| `Intervals.AbsIsSound` | src/interval.rs:340-356 | contains the magnitude of every member |
| `Intervals.AddIsSound` | src/interval.rs:229-251 | contains the rounded sum of any two members, and NaN whenever opposite infinities can meet |
| `Intervals.SubIsSound` | src/interval.rs:254-256 | contains every rounded difference |
| `Intervals.LowCorner` | src/interval.rs:283-296 | a valid exact product is no less than some valid product of bounds, unless none is valid |
| `Intervals.MulIsSound` | src/interval.rs:273-302 | contains the rounded product of any two members, and NaN whenever zero can meet an infinity |
| `Intervals.DivIsSound` | src/interval.rs:305-338 | contains every quotient, of either sign over zero, and NaN whenever 0/0 or inf/inf can arise |
| `Tightness.NegIsExact` | src/interval.rs:259-270 | contains nothing else |
| `Tightness.AbsIsExact` | src/interval.rs:340-356 | contains nothing but magnitudes of members |
| `Tightness.MeetIsExact` | src/interval.rs:183-208 | facts that do not exclude each other combine into exactly what both say |
| `Tightness.JoinIsTight` | src/interval.rs:211-218 | the bounds are bounds of one of the two, and NaN and zero are excluded where both exclude them |
| `Tightness.AddIsTight` | src/interval.rs:229-251 | the bounds are sums of members, a step outward, where the bounds have sums; NaN is allowed exactly if some members have no valid sum |
| `Tightness.SubIsTight` | src/interval.rs:254-256 | the same for differences |
| `Tightness.MulIsTight` | src/interval.rs:273-302 | the bounds are products of members, a step outward, unless no product of bounds is valid |
| `Tightness.MulInvalidExactly` | src/interval.rs:273-302 | NaN is allowed exactly if some numbers within the bounds have no valid product |
| `Tightness.DivIsTight` | src/interval.rs:305-338 | the bounds are quotients of members, a step outward, if the divisor excludes zero and some quotient of bounds is valid |
| `Tightness.DivInvalidExactly` | src/interval.rs:305-338 | NaN is allowed exactly if some numbers within the bounds have no valid quotient |
| `Intervals.PowersBound` | src/interval.rs:515-518 | repeated outward multiplication bounds the exact power, or has overflowed together with it |
| `Intervals.Pow` | src/interval.rs:491-535 | the interval the code computes, loops and fallbacks included |
| `Intervals.PositivePowIsSound` | src/interval.rs:504-514 | contains every rounded positive integer power |
| `Intervals.NegativePowIsExact` | src/interval.rs:515-524 | contains a given negative integer power exactly when the power itself did not overflow, or its reciprocal is next to zero |
| `Intervals.PowIsExact` | src/interval.rs:491-535 | a given power of a member is in the interval exactly when it is not one of two escapes: a reciprocal whose power overflowed, and minus infinity in the fallback |
| `Intervals.PowIsSoundExactly` | src/interval.rs:491-535 | every power of members is in the interval if and only if the operands are safe: no overflow of the bounds with a reciprocal, at the bound nearest zero, that is more than next to it, and no odd exponent below -64 over a non-negative base that may be zero |
| `Intervals.SquareEscapes` | src/interval.rs:515-524 | in every format, a number whose square overflows while one over the square is more than next to zero is missed by the power -2 of its own point |
| `Intervals.ReciprocalEscapes` | src/interval.rs:515-524 | there is such a format: sixteenths up to three, where the power -2 of two is missed |
| `Intervals.NegativeZeroEscapes` | src/interval.rs:526-533 | in every format, negative zero to the power -65 is missed |
| `Intervals.MinIsSoundExactly` | src/interval.rs:426-437 | for any two intervals, every minimum of members is in the interval computed if and only if no operand that may be NaN ends below a number of the other |
| `Intervals.MaxIsSoundExactly` | src/interval.rs:439-446 | for any two intervals, every maximum of members is in the interval computed if and only if no operand that may be NaN starts above a number of the other |
| `Intervals.NaNLiteralEscapes` | src/interval.rs:426-446 | beside a NaN literal the minimum misses every literal but minus infinity, and the maximum every one but infinity |
| `Intervals.ConditionsAreTrue` | src/interval.rs:137-176 | what a side condition reads off an interval is true of every member |
| `Tightness.ConditionsAreExact` | src/interval.rs:137-176 | and holds of the interval if it is true of every member |
| `MathFacts.SqrtIsSound` | src/interval.rs:358-374 | contains the root of every member, NaN below zero, non-zero kept |
| `MathFacts.ExpIsSound` | src/interval.rs:376-388 | contains the exponential of every member |
| `MathFacts.LnIsSound` | src/interval.rs:390-411 | contains the logarithm of every member, minus infinity at zero and NaN below |
| `MathFacts.CommutativeExactly` | src/lang.rs:230-235 | the operators whose arguments are sorted are exactly those whose results do not depend on their order |
| `MathFacts.RangeIsSound` | src/analysis.rs:152-190 | the range of a node contains whatever it can evaluate to, where its operands are safe |
| `MathFacts.RangeIsSoundExactly` | src/analysis.rs:152-190 | and only there: unsafe operands have members with a result outside the range |
| `MathFacts.RangeIsTight` | src/analysis.rs:152-190 | the range of an arithmetic operation is no wider than its results ask for, up to a step; that of a negation, a magnitude or a literal holds nothing else; that of a choice ends where a branch does |
| `MathFacts.RangeEndsAtResults` | src/analysis.rs:152-190 | the ranges of roundings, signs, roots, exponentials and logarithms end at the results for the bounds, exactly or a step outward; those of minimum and maximum at bounds of the operands |
| `MathFacts.InvalidExactly` | src/analysis.rs:152-190 | the range of an operator of one argument allows NaN exactly if some member has that result |
| `MathFacts.RangeIsBounded` | src/analysis.rs:152-190 | truth values are between zero and one, sines and cosines between one and its negation, angles within half a turn, variables within what is assumed of them |
| `MathFacts.MergeIsSound` | src/analysis.rs:199-220 | two facts about one value combine into a fact about it |
| `MathFacts.ConstantIsExact` | src/analysis.rs:122-144 | the constant of a node is known to be c exactly if it is the literal c, or an operator the source folds (a transcendental one only if allowed) on children all known, with c its value and finite |
| `MathFacts.KnownIsPinned` | src/analysis.rs:187-191 | a known constant the range allows is all the fact allows |
| `MathFacts.MakeIsSound` | src/analysis.rs:117-197 | the fact of a node, folded constant included, is true of its value if its children's are of theirs and its operands are safe |
| `MathFacts.MathRespects` | src/analysis.rs:116-210 | the shipped analysis meets what a run asks of one, for any set of operators and of facts that keeps its operands safe |
| `MathFacts.MathRespectsUnconditional` | src/analysis.rs:116-210 | it does for all operators but minimum, maximum and power, whatever the facts |
| `MathFacts.MathRespectsNumbers` | src/analysis.rs:116-210 | it does with minimum and maximum where neither literals, variables nor operators make a NaN |

## Left out

Members stated more weakly than the code computes:

- Matching.SearchCapped: says which substitutions are found, not their order in the result; substitutions are maps, so their sorted association lists are not modelled. Where a list has no room, which of its matches survive is not said, nor, where a limit is exceeded as well, whether the flag is set.
- Runners.Runner.Run: where the analysis still had something to do before the last pass, closure is stated only without an analysis and for rules without condition, since the rebuild after that pass may then change what the classes hold; the time limit is a clock that may expire at any check; the timings of an iteration are not recorded.
- EGraphs.EGraph.PropagateAnalysis: where the fuel runs out, says every fact stays true, not which facts are left unrefined; nor is the order in which classes are visited fixed.
- EGraphs.EGraph.Rebuild: where the fuel or the rounds run out, says that nothing false is known and what was just added is folded, not what is left to do.
- EGraphs.EGraph.Modify: models the constant folding of the mathematical analysis; an analysis without it is the case in which no fact is a constant.
- Explanations.ExplainWithin: a step by a rule names the rule, without its substitution and rendering.
- Extraction.TryFindBestShared: says which attempts are made and which is kept, and that it is never worse than the cheapest tree in shared cost; the refinement is a heuristic and is not claimed optimal.
- Protocols.StepKeeps: the time of a retry is any time; `WorkerLoop.Workers.Deliver` fixes it, up to the number drawn for its jitter. The backoff is computed in reals, not in floating point.
- WorkerLoop.Workers.Deliver: sending is outside the model; its outcome is a parameter.
- Intervals.PowIsSoundExactly: integer powers are the rounded exact power; powers by other exponents are known by sign only, which is all the fallbacks rely on. Members of an interval are extended reals, not only the floats among them.

Choices of representation:

- Vectors, hash maps and hash sets are fields of type `seq`, `map` and `set`; iteration over a hash map is in an arbitrary order where the code's result does not depend on it.
- Sorting with deduplication is `NodeOrders.SortNodes` and `NodeOrders.SortIds`, insertion sorts with the library routine's result.
- Widths of ids, sizes, counters, fuel and ban shifts are unbounded, except the sixteen-bit indices of the machine, the thirty-two-bit word of the id encoder and the forty-eight-bit timestamp.
- The memo table `seen` of an explanation is split into the pairs explained and the pairs in progress.
- `repair` is split into `TakeParents`, `DropKeys`, `MergeCongruent`, `FileForm` and `ReturnParents`. Its early return for a class that is gone is dead, since the id was just replaced by its representative, and is not modelled; nor is the dead branch of the rate-limited claim for an endpoint without due rows, nor the constant arm of the instruction emitter.
- Facts compare zeros of either sign as equal where the source's floats do.
- An operator's value is an abstract function; doubles differ only in NaN payload. Rule soundness is a hypothesis of a run (`Rewriting.SoundRule`), and of the rule tables only one rule is shown to meet it (`Rewriting.IndependentRuleIsSound`). Soundness of the analysis is proved (`MathFacts.MathRespects`) from hypotheses on the operators: that they round as the floats do, fold as they evaluate, and commute where they are called commutative. The bounds of a range are extended reals, which do not tell the zeros apart, and neither does the source's comparison of two ranges.
- Costs are exact naturals (latencies in eighths); rounding of floating-point costs is not modelled.
- Parameter names are ordered by an abstract ranking of symbols.
- Tokens stand for text: the lexer, number formatting and error positions are not modelled, and a literal token carries its value.
- The explanation record is complete only if explanations were enabled while the graph was empty, as the ghost field `traced` records.

Not modelled:

- `find_best_many`, `compact_many`, `build_many`, `union_exprs`, `eval_batch`: the same results for several roots.
- `pretty_shared`, whose generated names can capture a variable of the same name, S-expressions, `parse_rule` and `substitute`.
- Appliers given as closures, and the scheduler without backoff.
- The display of intervals, and how assumptions about variables are written; library functions are any that keep order where they are defined.
- Code generation for C, Rust and Python, DOT output, reports, the command line, the REPL, random generation and differential checking.
- Hookline's endpoint updates and deletion, tenants, messages, secrets, the log of attempts, error texts and timestamps of rows, bulk replay, `release`, signatures, address checks, the HTTP layer and SQLite itself: a transaction is one atomic step.
