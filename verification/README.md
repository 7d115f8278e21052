# Verified models of the repository's core algorithms

This project models the algorithms with a theorem behind them in the repository: the
Ackermannization engine of the vendored Z3 tree, its MaxSAT examples (adder circuits, linear
search, Fu and Malik, RC2, hitting sets with MaxRes), the property-directed reachability
example, the model minimisation of the .NET example, and the ring of runtime monitors that
is the repository's own program.  It proves what each is for.

Verify with `dafny verify dfyconfig.toml`.

| file | models |
|---|---|
| `Prop.dfy`, `Solver.dfy`, `Sets.dfy`, `Words.dfy` | propositional formulas, the solver as an oracle behind an incremental store of assertions, finite sets, 32-bit words |
| `Circuits.dfy`, `MaxSat.dfy` | `maxsat.c`: counter circuits, linear search, Fu and Malik |
| `Rc2.dfy` | `rc2.py`: weighted core-guided MaxSAT |
| `HsMaxSat.dfy` | `hs.py`: MaxRes and its dual, core resolution, bounds |
| `Ic3.dfy`, `WrongInvariant.dfy` | `mini_ic3.py`: frames, obligations, invariants and counterexamples; a run that accepts an unsafe system |
| `CheckSmall.dfy` | `CheckSmall` of `Program.cs` |
| `Terms.dfy`, `Ackr.dfy`, `AckrHelper.dfy`, `ModelConverter.dfy`, `Lackr.dfy` | terms, the Ackermann transformation and its soundness, occurrence tables and the lemma bound, the model converter, the engine |
| `RingMonitor.dfy` | `monitor.cpp`: evaluation and dissemination of verdicts |

The solver is a function from the number of earlier calls, the assertions and the assumptions
to an answer; its answers may differ from call to call, and only their soundness is known: a
model satisfies everything asked, a core is drawn without repetition from the assumptions and
cannot be satisfied together with the assertions.  Every result holds for all such oracles,
and every choice a program leaves to a hash table, a heap or a random generator is arbitrary.
SMT atoms are propositional variables; the valuations a theory admits are one more hard
constraint.

## What was found

- `assert_at_most_k` asserts nothing for a single literal, so linear search with one soft
  constraint ends in the program's BUG exit exactly when the model uses the answer literal;
  from 2^31 + 1 literals on, a 33rd counter bit is compared with bit 0 of k.
- `n_choose_2_chk` bounds the number of pairs exactly when n is below 2^17 or has bit 16 set.
  The lemma bound is one exactly when some group has bit 16 of its size set, which makes it
  infinite, or every group fits.
- `generalize` of `mini_ic3.py` accepts a core exactly when it meets the initial states.  Every
  accepted core removes an initial state from all frames up to its level, and the first to be
  removed is always removed by one.  The returned invariant holds the initial states if and only
  if no cube that meets them was blocked at its level or above.  On a two-variable system with a
  bad state two steps away the engine can return the empty set of states.  Consecution and the
  exclusion of bad states hold in any case, and a returned counterexample is always a real path
  to a bad state.
- `CheckSmall` stops if and only if some round ends with upper bounds that are a model with
  values of at most 2^31, and then within 32 rounds for every expression and one.  A first model
  with such values is enough; that there is one is not: with the values 2^31 and 2^32 - 1 and a solver
  that prefers the larger, the midpoints wrap around and it never stops.
- `maxres` of `hs.py` fails on an empty list of cores under an exact condition, which a step of
  the main loop never meets while the bounds are apart.  With exact hitting sets the main loop
  terminates.

## Model

| member | source | states |
|---|---|---|
| Circuits.AdderAdds | z3-master/examples/maxsat/maxsat.c:172-183 | for all inputs and assignments the adder's n + 1 output bits denote the sum of the two numbers |
| Circuits.MkAdder | z3-master/examples/maxsat/maxsat.c:172-183 | the loop writes exactly the adder circuit at the result's offset and nothing else |
| Circuits.PairUpKeepsSum | z3-master/examples/maxsat/maxsat.c:193-212 | adding numbers in pairs, the odd one extended by a zero bit, keeps the total |
| Circuits.MkAdderPairs | z3-master/examples/maxsat/maxsat.c:193-212 | the buffer ends up holding the pairwise sums; all accesses stay within the two buffers |
| Circuits.CounterCounts | z3-master/examples/maxsat/maxsat.c:219-253 | the counter's output bits denote the number of true literals, for every n >= 1 |
| Circuits.RoundFits | z3-master/examples/maxsat/maxsat.c:227-234 | a round's output needs at most the cells its input had, but for the first round, which may need one more |
| Circuits.MkCounterCircuit | z3-master/examples/maxsat/maxsat.c:219-253 | with the two (n + 1)-cell buffers swapped each round, the result is the counter circuit, and counts |
| Circuits.LeBitsCompares | z3-master/examples/maxsat/maxsat.c:267-287 | the comparator circuit is true exactly when the number denoted is at most the constant read |
| Circuits.ReadBitsOfK | z3-master/examples/maxsat/maxsat.c:258-262 | what the comparator reads of k: k itself, until a 33rd bit makes it read bit 0 again |
| Circuits.AssertLeK | z3-master/examples/maxsat/maxsat.c:267-290 | asserts the comparator and nothing else |
| Circuits.AtMostKExact | z3-master/examples/maxsat/maxsat.c:299-308 | the constraint holds if and only if at most k literals are true, or there is one literal, or more than 2^31 and k is odd |
| Circuits.SingleLiteralUnconstrained | z3-master/examples/maxsat/maxsat.c:303-304 | a concrete assignment that meets the constraint for one literal and k = 0 while the literal is true |
| Circuits.AssertAtMostK | z3-master/examples/maxsat/maxsat.c:299-308 | asserts exactly the at-most-k constraint, for all n and k |
| MaxSat.AssertHardConstraints | z3-master/examples/maxsat/maxsat.c:131-137 | asserts the hard constraints in order |
| MaxSat.AssertSoftConstraints | z3-master/examples/maxsat/maxsat.c:144-154 | guards every soft constraint with its own fresh answer literal |
| MaxSat.GetNumDisabled | z3-master/examples/maxsat/maxsat.c:378-394 | counts the answer literals that are true in the model |
| MaxSat.SingleSoft | z3-master/examples/maxsat/maxsat.c:422-440 | with one soft constraint that cannot be met every model uses the answer literal, which the BUG exit takes for an error |
| MaxSat.TryBound | z3-master/examples/maxsat/maxsat.c:423-448 | one bound of the search: unsatisfiable means the optimum is just above it, a model gives a smaller number of disabled constraints |
| MaxSat.LinearSearch | z3-master/examples/maxsat/maxsat.c:422-448 | for two or more soft constraints the search ends with the optimum although at-most-k constraints accumulate |
| MaxSat.NaiveMaxsat | z3-master/examples/maxsat/maxsat.c:406-449 | terminates with the largest number of satisfiable soft constraints, or with -1 exactly when the hard ones are unsatisfiable; the BUG exit only for one soft constraint, and exactly when its model uses the answer literal |
| MaxSat.ConservedMinimum | z3-master/examples/maxsat/maxsat.c:533-560 | under the conservation law the current minimum of falsified constraints is the original one less k, in both directions |
| MaxSat.RelaxLower | z3-master/examples/maxsat/maxsat.c:493-513 | no assignment of the relaxed problem falsifies fewer than one less than its original did, at most one blocking variable being true |
| MaxSat.RelaxUpper | z3-master/examples/maxsat/maxsat.c:493-513 | every assignment has an extension that falsifies exactly one fewer, by blocking a falsified member of the core |
| MaxSat.RelaxConserves | z3-master/examples/maxsat/maxsat.c:486-515 | relaxing any non-empty core keeps the conservation law for k + 1, minimal core or not |
| MaxSat.RelaxEach | z3-master/examples/maxsat/maxsat.c:493-512 | the loop relaxes exactly the constraints of the core, each with fresh blocking and answer literals |
| MaxSat.RelaxCore | z3-master/examples/maxsat/maxsat.c:486-515 | one unsatisfiable step as a whole keeps the law for k + 1 |
| MaxSat.FuMalikStep | z3-master/examples/maxsat/maxsat.c:466-517 | stops only when all current soft constraints can be met; otherwise the law holds for one more unit |
| MaxSat.FuMalikLoop | z3-master/examples/maxsat/maxsat.c:552-559 | as many unsatisfiable steps as constraints must be falsified, counted in solver calls, and then the optimum |
| MaxSat.FuMalikMaxsat | z3-master/examples/maxsat/maxsat.c:533-560 | terminates with the optimum, after one solver call more than hard check and falsified constraints, or with -1 exactly when the hard constraints are unsatisfiable |
| Rc2.AddedCost | z3-master/examples/python/rc2.py:14-15 | adding weight w to a constraint raises the cost of every assignment by w times its penalty |
| Rc2.SubtractedCost | z3-master/examples/python/rc2.py:17-22 | subtracting w, or deleting the entry, lowers the cost of every assignment by w times its penalty |
| Rc2.Dict.Add | z3-master/examples/python/rc2.py:14-15 | the dictionary after an addition in place |
| Rc2.Dict.Sub | z3-master/examples/python/rc2.py:17-22 | the dictionary after a subtraction in place |
| Rc2.SubtractCost | z3-master/examples/python/rc2.py:83-85 | taking a whole core out moves its cost, w per unit of penalty |
| Rc2.TakeCore | z3-master/examples/python/rc2.py:78-86 | the conservation law after a core was taken out and is pending |
| Rc2.CorePays | z3-master/examples/python/rc2.py:99-105 | for every assignment that refutes the core, its penalty is one plus the penalties of the weakened members and of the new bound |
| Rc2.RepayOne | z3-master/examples/python/rc2.py:100-104 | one member weakened: its share of the weakened sum reappears in the weights |
| Rc2.PayCore | z3-master/examples/python/rc2.py:122-125 | the law after a core was paid: min_cost grown by w, its replacements in the weights |
| Rc2.CanonIsCanonical | z3-master/examples/python/rc2.py:34-42 | the extension satisfies every definition, in any order of names |
| Rc2.NewName | z3-master/examples/python/rc2.py:34-42 | a name asserted to imply its bound keeps the solver faithful to all feasible assignments |
| Rc2.LowerBound | z3-master/examples/python/rc2.py:112-126 | min_cost never exceeds the cost of any assignment of the hard constraints |
| Rc2.ModelIsOptimal | z3-master/examples/python/rc2.py:116-126 | a model of the remaining soft constraints falsifies input weight exactly min_cost |
| Rc2.RC2.AtMostName | z3-master/examples/python/rc2.py:34-42 | the name the constraint has already, with nothing added, or a new one, asserted to imply it and recorded |
| Rc2.OneName | z3-master/examples/python/rc2.py:34-42 | no two names stand for the same constraint |
| Rc2.RC2.GetCores | z3-master/examples/python/rc2.py:76-88 | terminates; cores leave the weights and are pending under the law; unsat only if the hard constraints are |
| Rc2.RC2.Subtract | z3-master/examples/python/rc2.py:81-86 | one core leaves the weights with its least weight, so that a constraint disappears |
| Rc2.RC2.WeakenMember | z3-master/examples/python/rc2.py:100-104 | weakens a member that is a bound by one, unless that is no constraint any more |
| Rc2.RC2.UpdateBounds | z3-master/examples/python/rc2.py:99-105 | the weights after a core's replacements keep the law with the core paid |
| Rc2.RC2.PayCores | z3-master/examples/python/rc2.py:122-125 | all pending cores are paid, each adding its positive weight to min_cost |
| Rc2.RC2.MaxSat | z3-master/examples/python/rc2.py:112-126 | terminates with the least falsified weight over all assignments of the hard constraints and a set that attains it, or unsat exactly when there is none |
| HsMaxSat.AddDef | z3-master/examples/python/hs.py:13-18 | a definition under a fresh name loses no model |
| HsMaxSat.RelaxStep | z3-master/examples/python/hs.py:26-28 | one round of core relaxation, for one assignment: the new constraints falsify one fewer than the core's prefix, if that has a falsified member |
| HsMaxSat.RestrictStep | z3-master/examples/python/hs.py:36-38 | the dual round: as many falsified as in the prefix, once it has a true member |
| HsMaxSat.RelaxCore | z3-master/examples/python/hs.py:20-28 | in every model the number of falsified soft constraints drops by one if the core has a falsified member, and stays otherwise; every old model extends |
| HsMaxSat.RestrictCs | z3-master/examples/python/hs.py:30-38 | the number of falsified soft constraints stays in every model in which the set has a true member |
| HsMaxSat.RelaxKeeps | z3-master/examples/python/hs.py:179-182 | original cost = offset + falsified now, after a core moved one unit to the offset; the lower bound moves along |
| HsMaxSat.RestrictKeeps | z3-master/examples/python/hs.py:199-204 | the same equation after a restriction and its asserted disjunction, which excludes only assignments no better than the upper bound |
| HsMaxSat.BetterSurvives | z3-master/examples/python/hs.py:203 | every assignment cheaper than the upper bound still extends to a model |
| HsMaxSat.GetSmallDisjointSets | z3-master/examples/python/hs.py:149-161 | pairwise disjoint sets of the three smallest sizes, such that every other of these sizes meets a chosen one; an error exactly on an empty list |
| HsMaxSat.InsertSized | z3-master/examples/python/hs.py:153-158 | one size: the choice stays disjoint and becomes maximal for it |
| HsMaxSat.ImproveKeeps | z3-master/examples/python/hs.py:278-295 | the constraints a model falsifies are a correction set no better than the new upper bound |
| HsMaxSat.HittingBound | z3-master/examples/python/hs.py:99-112 | a bound on all hitting sets of the cores bounds the falsified constraints of every model |
| HsMaxSat.ResolvedIsCore | z3-master/examples/python/hs.py:317-322 | a core with its backbone literals replaced by the sets that entail them is still unsatisfiable with the assertions |
| HsMaxSat.RotationCore | z3-master/examples/python/hs.py:315-324 | the resolved core is a non-empty core of the soft constraints, within the satisfied set and the new constraint |
| HsMaxSat.RotationBackbone | z3-master/examples/python/hs.py:325 | the new entry entails the negation of its constraint and lies within the satisfied set |
| HsMaxSat.CountOccurrences | z3-master/examples/python/hs.py:335-344 | the counts are the numbers of sets each member occurs in; every member is counted, so the program's assertion holds |
| HsMaxSat.HsMaxSAT.Improve | z3-master/examples/python/hs.py:278-295 | the upper bound becomes the least cost seen, with a model that has it; true exactly when it fell |
| HsMaxSat.HsMaxSAT.ReduceCore | z3-master/examples/python/hs.py:252-276 | the result is part of the core and still one; above four members each one left was tried, and every check dropped a member or recorded a model |
| HsMaxSat.HsMaxSAT.Resolve | z3-master/examples/python/hs.py:317-322 | the resolved core: the members of the core that are no backbones, and for the backbones the sets recorded for them |
| HsMaxSat.HsMaxSAT.TryRotate | z3-master/examples/python/hs.py:297-332 | terminates through its mutual recursion; the set reached is a maximal satisfiable subset, and unless it is the start its correction set was added and the upper bound is no more than its cost; each constraint left out has a core that keeps it out, added unless it has 20 members or more; improved exactly if the upper bound fell |
| HsMaxSat.HsMaxSAT.MssRotate | z3-master/examples/python/hs.py:334-351 | terminates; unless the upper bound fell, every member of more than one core was given up and the search from the rest is on record |
| HsMaxSat.HsMaxSAT.LocalMss | z3-master/examples/python/hs.py:354-409 | the set reached extends the model's and is a maximal satisfiable subset; unless it is the model's its correction set was added and the upper bound is no more than its cost; each constraint left out has a new core within the set and itself |
| HsMaxSat.HsMaxSAT.Join | z3-master/examples/python/hs.py:380-394 | a constraint that joins: its model is recorded, and if it is the best one every member of more than one core is tried |
| HsMaxSat.HsMaxSAT.KeepCore | z3-master/examples/python/hs.py:396-404 | adds one core, resolved and reduced, within the satisfied set and the new constraint, and keeps the rotation's invariant |
| HsMaxSat.HsMaxSAT.GetCores | z3-master/examples/python/hs.py:415-453 | terminates; closes the bounds, or adds cores, the first within the constraints the hitting set left, that are all hit by a larger set whose complement can be satisfied, and explores a maximal satisfiable subset from there |
| HsMaxSat.HsMaxSAT.PickHs | z3-master/examples/python/hs.py:99-125 | what the picker gives for all cores, or nothing without cores; the lower bound rises to the picker's and stays one; an exact picker's set is no larger than it |
| HsMaxSat.HsMaxSAT.ReinitSoft | z3-master/examples/python/hs.py:163-168 | offset plus lower bound is unchanged while the offset absorbs the relaxed cores |
| HsMaxSat.HsMaxSAT.MaxRes | z3-master/examples/python/hs.py:171-215 | relaxes cores, leaving fewer constraints, and shrinks the size that counts as small by the smallest core; or restricts correction sets, leaving no more constraints and demanding a member of a smallest one; or counts a failure, the fourth raising that size by 100; fails exactly without cores when correction sets are disabled, none is small and a failure was counted |
| HsMaxSat.HsMaxSAT.Probe | z3-master/examples/python/hs.py:455-462 | a model of what the hitting set leaves is recorded, at a cost within what was given up; otherwise cores are gathered or the bounds close |
| HsMaxSat.StillFalsified | z3-master/examples/python/hs.py:196-206 | after a restriction every model falsifies some constraint, if there was a core, or the empty correction set was among those restricted |
| HsMaxSat.CoreIsNew | z3-master/examples/python/hs.py:415-453 | a core of what a hitting set of all cores left over is none of them |
| HsMaxSat.HsMaxSAT.Step | z3-master/examples/python/hs.py:455-468 | all invariants are kept; no error while the bounds are apart; no small core stays; with exact hitting sets the bounds meet, or there are fewer constraints, or correction sets are disabled, or there is a new core |
| HsMaxSat.BoundsMeet | z3-master/examples/python/hs.py:470-472 | when the bounds meet, no assignment of the hard constraints costs less than the upper bound, and some assignment attains it unless there is none |
| HsMaxSat.HsMaxSAT.Run | z3-master/examples/python/hs.py:470-472 | with exact hitting sets and solver answers the loop terminates, without the error, at the optimum |
| HsMaxSat.HsMaxSAT.Steps | z3-master/examples/python/hs.py:470-472 | for any hitting sets, after any number of steps: no error ended them, and if the bounds meet the upper bound is the optimum |
| HsMaxSat.UnseenLess | z3-master/examples/python/hs.py:451 | a new core leaves fewer sets of constraints unseen, which bounds the steps without relaxation |
| HsMaxSat.ExactPickerExists | z3-master/examples/python/hs.py:99-121 | a smallest hitting set and its size can always be picked |
| Ic3.ClauseMeaning | z3-master/examples/python/mini_ic3.py:146-147 | the clause of a cube holds exactly outside the cube |
| Ic3.BlockKeepsFrames | z3-master/examples/python/mini_ic3.py:281-287 | blocking any relatively inductive cube keeps frames monotone, consecutive and, but for the last, free of bad states |
| Ic3.ChildOk | z3-master/examples/python/mini_ic3.py:319-321 | a predecessor's obligation is unreachable below its level, or meets the first frame at level 0, and all its states step into the parent's cube, to a bad state if that is the root |
| Ic3.CounterexampleIsReal | z3-master/examples/python/mini_ic3.py:375-385 | a returned goal is a path, one step per parent, from an initial state to a bad state |
| Ic3.BlockObligation | z3-master/examples/python/mini_ic3.py:335-337 | while no core was accepted, an obligation that is blocked meets no initial state |
| Ic3.BlockCore | z3-master/examples/python/mini_ic3.py:334-336 | blocking a cube that meets the initial states makes exactly the frames up to its level lose one, those above keep what they had |
| Ic3.BlockDisjointCore | z3-master/examples/python/mini_ic3.py:334-336 | blocking a cube disjoint from the initial states leaves them in the same frames |
| Ic3.RepeatedFrame | z3-master/examples/python/mini_ic3.py:229-235 | a frame whose clauses all recur in the next is closed under transitions and free of bad states |
| Ic3.InvariantHolds | z3-master/examples/python/mini_ic3.py:354-361 | with the initial states inside, no path of any length reaches a bad state |
| Ic3.FramesBounded | z3-master/examples/python/mini_ic3.py:358-367 | while no frame repeats, there are at most as many frames as clauses, and two |
| Ic3.WeightLess | z3-master/examples/python/mini_ic3.py:281-287 | excluding a state from a frame lowers the number of states in all frames together |
| Ic3.CoreInductive | z3-master/examples/python/mini_ic3.py:331-336 | any core of the primed cube is a part of it that no state of the frame steps into, is relatively inductive and covers the cube |
| Ic3.MinimizedSteps | z3-master/examples/python/mini_ic3.py:291-296 | every state of the minimised cube steps, with the model's inputs, where the model steps |
| Ic3.RootOk | z3-master/examples/python/mini_ic3.py:260-278 | the unfolded cube holds the model, and its states in the frame are bad with the inputs of the model |
| Ic3.ChildKeepsLoop | z3-master/examples/python/mini_ic3.py:306-321 | the obligation loop's invariant after a predecessor, whichever lowest obligation was taken |
| Ic3.BlockKeepsLoop | z3-master/examples/python/mini_ic3.py:306-318 | the invariant after a block and the re-enqueued obligation; exactly the frames up to the highest level at which a cube meeting the initial states was blocked lack one |
| Ic3.BlockProgress | z3-master/examples/python/mini_ic3.py:304-325 | each block loses a state or moves an obligation up, so the loop ends |
| Ic3.State.Add | z3-master/examples/python/mini_ic3.py:149-157 | a clause is added once, to the set and to the solver |
| Ic3.MiniIC3.constructor | z3-master/examples/python/mini_ic3.py:191-208 | one frame, holding the initial states |
| Ic3.MiniIC3.AddSolver | z3-master/examples/python/mini_ic3.py:220-223 | a new empty last frame keeps the invariant once the old last one is safe |
| Ic3.MiniIC3.AssertClause | z3-master/examples/python/mini_ic3.py:285-287 | the clause is in frames 0 to i and nowhere else is anything changed |
| Ic3.MiniIC3.Prune | z3-master/examples/python/mini_ic3.py:177-188 | the clauses left mean the same as all, and none of them is implied by the others |
| Ic3.MiniIC3.IsValid | z3-master/examples/python/mini_ic3.py:229-235 | what is returned has the states of the first repeated frame, is closed and safe, and holds the initial states if and only if its level is not below those lost; otherwise no frame repeats |
| Ic3.MiniIC3.Unfold | z3-master/examples/python/mini_ic3.py:260-278 | unsat exactly certifies the last frame; otherwise the model's state literals that are in the second solver's core, a cube of bad states that holds the model |
| Ic3.MiniIC3.MinimizeCube | z3-master/examples/python/mini_ic3.py:291-296 | the model's state literals that are in the solver's core, a cube of states that all step like the model; the assertion fails exactly on an empty core, and only if the transition relation is valid |
| Ic3.MiniIC3.Generalize | z3-master/examples/python/mini_ic3.py:331-337 | the core's literals exactly when they meet the initial states, the cube otherwise; relatively inductive in both cases |
| Ic3.MiniIC3.IsInductive | z3-master/examples/python/mini_ic3.py:340-352 | a relatively inductive cube covering the obligation, or a predecessor from the frame below, as the two solver answers call for |
| Ic3.MiniIC3.PopHeap | z3-master/examples/python/mini_ic3.py:306-307 | some obligation of the lowest level is taken |
| Ic3.MiniIC3.Handle | z3-master/examples/python/mini_ic3.py:306-321 | the solver answers decide: the predecessor cut down to its core joins the heap and the frames stay, or the cube or its accepted core is blocked and the obligation is raised |
| Ic3.MiniIC3.Ic3Blocked | z3-master/examples/python/mini_ic3.py:304-325 | terminates; the root is excluded from the last frame, or a real counterexample is returned; frames only grow stronger |
| Ic3.MiniIC3.Advance | z3-master/examples/python/mini_ic3.py:362-371 | one round of the main loop: a new frame if the last one is safe, otherwise the cube unfolded is excluded from it, or a counterexample |
| Ic3.MiniIC3.Run | z3-master/examples/python/mini_ic3.py:354-373 | terminates with a safe inductive invariant, which holds the initial states if and only if no cube meeting them was blocked at its level or above, the first such cube being an accepted core; or with a real counterexample, or with an initial state that is bad |
| WrongInvariant.RunReached | z3-master/examples/python/mini_ic3.py:304-373 | nine decisions, each for sound solver answers, of the engine on a two-variable system |
| WrongInvariant.UnsafeSystemAccepted | z3-master/examples/python/mini_ic3.py:331-337 | they end in a repeated frame without the initial state, which the engine returns, although a bad state is two steps away |
| CheckSmall.Solver.Pop | z3-master/examples/dotnet/Program.cs:1892 | the bounds of the scope are gone, those before it remain |
| CheckSmall.Mid | z3-master/examples/dotnet/Program.cs:1884 | half the sum of the bounds if that fits 32 bits, 2^31 less if not, and so below 2^31 |
| CheckSmall.MidBetween | z3-master/examples/dotnet/Program.cs:1882-1884 | the midpoint is below the upper bound, and not below the lower one if the upper is at most 2^31 |
| CheckSmall.LowerRises | z3-master/examples/dotnet/Program.cs:1855-1860 | after an unsatisfiable midpoint every model below the upper bounds is above the new lower ones |
| CheckSmall.GapClosed | z3-master/examples/dotnet/Program.cs:1877-1890 | with no gap left, no model is pointwise below the upper bounds |
| CheckSmall.ModelInside | z3-master/examples/dotnet/Program.cs:1854-1890 | a model becomes the upper bounds, which are then attained, and lowers their total |
| CheckSmall.NoModelInside | z3-master/examples/dotnet/Program.cs:1855-1862 | an unsatisfiable check raises the lower bound of the last index, or there was never a model |
| CheckSmall.HalvesGap | z3-master/examples/dotnet/Program.cs:1848-1884 | from small bounds a check with a pending midpoint leaves at most half of its gap, whatever the answer |
| CheckSmall.Narrow | z3-master/examples/dotnet/Program.cs:1866-1873 | the upper bounds become the model's values |
| CheckSmall.FindGap | z3-master/examples/dotnet/Program.cs:1878-1890 | the first expression with a gap, if there is one |
| CheckSmall.Bisect | z3-master/examples/dotnet/Program.cs:1848-1890 | one check: with a model its values become the upper bounds, and the midpoint of the first gap is asserted; the bounds stay otherwise; from small bounds the pending gap is halved |
| CheckSmall.SearchResult | z3-master/examples/dotnet/Program.cs:1846-1891 | what a round achieves for any sound solver: the bounds come down to a model, the binary digits of the gaps become fewer while they are small, and it stops only at a minimal model with values of at most 2^31 |
| CheckSmall.Round | z3-master/examples/dotnet/Program.cs:1843-1892 | one push and pop: terminates, with the bounds, index and midpoint of the search specified, and the solver as before |
| CheckSmall.Rounds | z3-master/examples/dotnet/Program.cs:1841-1893 | any number of rounds follows the search; no more work is left only at a minimal model with values of at most 2^31 |
| CheckSmall.RoundShrinks | z3-master/examples/dotnet/Program.cs:1843-1892 | a round keeps small bounds small, and takes a binary digit off the gaps if work is left |
| CheckSmall.SmallStops | z3-master/examples/dotnet/Program.cs:1841-1893 | after small bounds the search stops within n * 32 rounds, and one |
| CheckSmall.StopsExactly | z3-master/examples/dotnet/Program.cs:1841-1893 | the search stops if and only if some round ends with upper bounds that are a model with values of at most 2^31 |
| CheckSmall.FirstModelSmall | z3-master/examples/dotnet/Program.cs:1841-1893 | a first model with such values is enough, and that there is such a model is necessary |
| CheckSmall.NeverStops | z3-master/examples/dotnet/Program.cs:1882-1884 | with values 2^31 and 2^32 - 1 and a solver that prefers the larger it never stops, although a model with such values exists |
| CheckSmall.CheckSmall | z3-master/examples/dotnet/Program.cs:1825-1894 | whenever the search stops, that is, gets to small bounds, it terminates at a model no other is pointwise below |
| Ackr.EquationsHold | z3-master/src/ackermannization/lackr.cpp:107-117 | the equations kept, identical arguments skipped, hold exactly when all argument values agree |
| Ackr.EquationsListed | z3-master/src/ackermannization/lackr.cpp:107-117 | the equations kept are exactly those between arguments that differ |
| Ackr.AckLemmaMeaning | z3-master/src/ackermannization/lackr.cpp:103-125 | an abstracted lemma, nested applications included, holds exactly when its two terms are congruent |
| Ackr.DistinctArguments | z3-master/src/ackermannization/lackr.cpp:112-115 | terms with provably distinct arguments are congruent without a lemma |
| Ackr.LiteralsCongruent | z3-master/src/ackermannization/lackr.cpp:156-172 | two terms with literal arguments only need no lemma either |
| Ackr.EvalAbstract | z3-master/src/ackermannization/ackr_info.h:61-66 | in the extended model an abstracted term has the original's value |
| Ackr.ForwardSound | z3-master/src/ackermannization/lackr.h:57 | every model of the originals extends to one of the abstraction in which all terms of a group are congruent |
| Ackr.RebuiltEval | z3-master/src/ackermannization/ackr_model_converter.cpp:93-126 | in a rebuilt model every original term, nested or not, has its abstraction's value |
| Ackr.BackwardSound | z3-master/src/ackermannization/lackr.h:57 | a rebuilt model satisfies the original formulas |
| AckrHelper.InsertedGroups | z3-master/src/ackermannization/ackr_helper.h:114-147 | inserting a term keeps the tables exact: every group, split by literal arguments |
| AckrHelper.NChoose2Modular | z3-master/src/ackermannization/ackr_helper.h:106 | the 32-bit n choose 2 is n (n - 1) / 2 modulo 2^32 |
| AckrHelper.NChoose2ChkExact | z3-master/src/ackermannization/ackr_helper.h:109-112 | the guarded count is infinite exactly if bit 16 is set, n (n - 1) / 2 modulo 2^32 otherwise, and exact below 2^16 |
| AckrHelper.GroupPairsCount | z3-master/src/ackermannization/ackr_helper.cpp:21-24 | n choose 2 plus the product is the number of unordered pairs of different terms of a group, one at least with variable arguments |
| AckrHelper.NChoose2ChkBounds | z3-master/src/ackermannization/ackr_helper.h:109-112 | the guarded count bounds the pairs if and only if n is below 2^17 or has bit 16 set |
| AckrHelper.NChoose2ChkTooSmall | z3-master/src/ackermannization/ackr_helper.h:109-112 | at n = 2^17 the guarded count is finite and too small by 2^32 |
| AckrHelper.AddBounds | z3-master/src/ackermannization/ackr_helper.cpp:21-24 | one loop adds exactly what the groups count, or infinity if one is guarded |
| AckrHelper.CalculateLemmaBound | z3-master/src/ackermannization/ackr_helper.cpp:19-30 | the bound, whatever the order of the groups: infinite if some group has bit 16 of its size set, the sum of what the groups count otherwise; the number of pairs if all groups have fewer than 2^16 terms with variable arguments and a 32-bit product |
| AckrHelper.LemmaBoundInfinite | z3-master/src/ackermannization/ackr_helper.cpp:19-30 | the bound is infinite if and only if the guarded count of some group is |
| AckrHelper.LemmaBoundExact | z3-master/src/ackermannization/ackr_helper.cpp:19-30 | the bound is no less than the lemmas there can be if and only if it is infinite or every group fits |
| ModelConverter.LookupDenotes | z3-master/src/ackermannization/ackr_model_converter.cpp:128-156 | selecting from the array built finds its last store at the index, or the default |
| ModelConverter.FunEntryOk | z3-master/src/ackermannization/ackr_model_converter.cpp:158-191 | after an entry, kept if present, every term seen has its value in the table |
| ModelConverter.ArrayEntryOk | z3-master/src/ackermannization/ackr_model_converter.cpp:128-156 | after a store, or its omission for a value equal to the default, every term seen reads its value |
| ModelConverter.ConvertedRebuilds | z3-master/src/ackermannization/ackr_model_converter.cpp:93-126 | the assembled model gives every abstracted term its constant's value and leaves the rest alone |
| ModelConverter.Converter.AddFunEntry | z3-master/src/ackermannization/ackr_model_converter.cpp:158-191 | the table after an entry under the evaluated arguments |
| ModelConverter.Converter.AddArrayEntry | z3-master/src/ackermannization/ackr_model_converter.cpp:128-156 | the array after a store, the default found behind all stores |
| ModelConverter.Converter.ConvertConstant | z3-master/src/ackermannization/ackr_model_converter.cpp:101-115 | one constant of the source, kept, stored or entered |
| ModelConverter.Converter.ConvertConstants | z3-master/src/ackermannization/ackr_model_converter.cpp:93-126 | from any congruent model that interprets all abstraction constants, in any order, the new model rebuilds the originals |
| ModelConverter.ConversionExists | z3-master/src/ackermannization/ackr_model_converter.cpp:87-126 | every congruent model has a conversion |
| Lackr.Visit | z3-master/src/ackermannization/lackr.cpp:288-298 | visiting a term whose arguments are visited keeps the traversal's invariant |
| Lackr.ChosenSeparated | z3-master/src/ackermannization/lackr.cpp:308-309 | after pruning, abstracting the chosen terms is sound: functions used as arrays and arrays used outside selects stay |
| Lackr.CollectedTerms | z3-master/src/ackermannization/ackr_helper.h:114-147 | which terms the tables hold, told by the terms alone |
| Lackr.NothingLeft | z3-master/src/ackermannization/lackr.cpp:205-214 | the abstraction has no application but of functions also used as arrays, and no select from an array constant that occurs only in selects |
| Lackr.PairCovered | z3-master/src/ackermannization/lackr.cpp:103-139 | after a pair is handled, with a lemma or without, its terms are congruent in every model of the lemmas, and congruent models satisfy them |
| Lackr.CoveredCongruent | z3-master/src/ackermannization/lackr.cpp:144-172 | with all groups handled, models of the lemmas are congruent throughout |
| Lackr.AckrInfo.SetAbstr | z3-master/src/ackermannization/ackr_info.h:51-59 | both maps record the pair |
| Lackr.AckrInfo.FindTerm | z3-master/src/ackermannization/ackr_info.h:68-72 | the constant's term, of which it is the constant |
| Lackr.AckrInfo.GetAbstr | z3-master/src/ackermannization/ackr_info.h:74-76 | the term's constant, of which it is the term |
| Lackr.ReducedToOriginal | z3-master/src/ackermannization/lackr.h:57 | a congruent model of the abstraction yields a model of the originals |
| Lackr.OriginalToReduced | z3-master/src/ackermannization/lackr.h:57 | a model of the originals yields one of abstraction and lemmas |
| Lackr.Equisatisfiable | z3-master/src/ackermannization/lackr.h:57 | originals and reduced formulas are equisatisfiable |
| Lackr.Lackr.Insert | z3-master/src/ackermannization/ackr_helper.h:114-147 | the tables after classifying a term |
| Lackr.Lackr.MarkNonSelect | z3-master/src/ackermannization/ackr_helper.h:56-71 | marks exactly the arguments in a position other than the array of a select |
| Lackr.Lackr.PushArgs | z3-master/src/ackermannization/lackr.cpp:290 | pushes the arguments not visited; says whether there were none |
| Lackr.Lackr.CollectTerms | z3-master/src/ackermannization/lackr.cpp:272-313 | terminates; false exactly on a quantifier; otherwise the tables list exactly the applications of functions not used as arrays and the selects from array constants that occur nowhere else, split by literal arguments |
| Lackr.Lackr.Prune | z3-master/src/ackermannization/ackr_helper.h:73-96 | drops exactly the groups of arrays used elsewhere and of functions used as arrays |
| Lackr.Lackr.AbstractSet | z3-master/src/ackermannization/lackr.cpp:174-203 | a fresh constant for each term; the maps stay inverse to each other |
| Lackr.Lackr.AbstractTerms | z3-master/src/ackermannization/lackr.cpp:205-214 | exactly the chosen terms get constants, and all formulas are abstracted |
| Lackr.Lackr.Init | z3-master/src/ackermannization/lackr.cpp:87-98 | collects and abstracts, failing on quantifiers only |
| Lackr.Lackr.AckrPair | z3-master/src/ackermannization/lackr.cpp:103-139 | adds exactly the pair's lemma, unless two arguments are different literals or it simplifies to true |
| Lackr.Lackr.AckrGroup | z3-master/src/ackermannization/lackr.cpp:156-172 | handles every pair of the group that may need a lemma, adding no more lemmas than pairs |
| Lackr.Lackr.EagerEnc | z3-master/src/ackermannization/lackr.cpp:144-154 | the lemmas force congruence and nothing more, and are no more than the pairs of all groups |
| Lackr.Lackr.MkAckermann | z3-master/src/ackermannization/lackr.cpp:70-85 | succeeds exactly without quantifiers and with a positive limit that the lemma bound does not exceed, so always if the pairs of groups of ordinary size are within the limit; the goal is then satisfiable if and only if the input is, its abstraction is free of what was to be eliminated, and its lemmas do not exceed the limit where all groups fit |
| Lackr.Lackr.EncodeGoal | z3-master/src/ackermannization/lackr.cpp:80-84 | the abstraction, free of what was to be eliminated, with lemmas that force congruence, as satisfiable as the input, with no more lemmas than pairs |
| Lackr.Lackr.ConvertModel | z3-master/src/ackermannization/ackr_model_converter.cpp:47-55 | from any model of the result that interprets all abstraction constants the converter builds a model of the input |
| Lackr.Lackr.Eager | z3-master/src/ackermannization/lackr.cpp:226-240 | true if and only if the originals are satisfiable |
| Lackr.ViolatedPairIsNew | z3-master/src/ackermannization/lackr.cpp:259-265 | a pair that a model of the lemmas violates was not handled before and needs a lemma |
| Lackr.RoundProgress | z3-master/src/ackermannization/lackr.cpp:259-265 | each failing round settles one more pair, and its lemmas fail in the refused model |
| Lackr.Lackr.Refine | z3-master/src/ackermannization/lackr.cpp:259-262 | handles all reported pairs; without any it changes nothing, so the same round repeats |
| Lackr.Lackr.Lazy | z3-master/src/ackermannization/lackr.cpp:242-267 | for a model checker that reports a violated pair whenever it refuses: terminates after at most one round more than there are pairs, with the answer of the originals, hence the eager one |
| Lackr.Lackr.Solve | z3-master/src/ackermannization/lackr.cpp:58-68 | either strategy, the lazy one for such a checker, decides the originals, and gives up exactly on quantifiers |
| RingMonitor.FoldMeaning | monitor.cpp:49-75 | a verdict is true if and only if some observation starts an alternative that no later conjunct refutes |
| RingMonitor.RunHonest | monitor.cpp:34-48 | after any schedule of evaluations and sharing, every known verdict is its owner's and every other entry is false |
| RingMonitor.OverallVerdict | monitor.cpp:76-86 | a positive overall verdict is right at any point of any run; with everything known a negative one is too |
| RingMonitor.RoundReaches | monitor.cpp:40-48 | a round in which every monitor shares, in any order, moves every verdict one monitor further |
| RingMonitor.RoundsSuffice | monitor.cpp:142-148 | n - 1 rounds in any order give every monitor all n verdicts |
| RingMonitor.TwoSweepsSuffice | monitor.cpp:142-148 | two sweeps in index order do, for a ring of any size |
| RingMonitor.ScheduleSuffices | monitor.cpp:132-148 | the program's schedule, evaluations and n sweeps, does |
| RingMonitor.Monitor.GetVerdict | monitor.cpp:34-39 | the verdict adopted |
| RingMonitor.Monitor.ShareVerdict | monitor.cpp:40-48 | the next monitor takes over every known verdict, also when it is the monitor itself |
| RingMonitor.Monitor.Evaluate | monitor.cpp:49-75 | the own verdict is the value of the subformula, and known |
| RingMonitor.Monitor.EvaluateAll | monitor.cpp:76-86 | the conjunction of all verdicts held |
| RingMonitor.Execute | monitor.cpp:132-148 | any schedule on the monitors, through their pointers, is the run of the values they hold |
| RingMonitor.Disseminate | monitor.cpp:132-155 | after the program's schedule every monitor's overall verdict is the conjunction of all subformulas |

## Left out

- The solver, the simplifier, the AST manager, the model evaluator and reference counting: the solver is an oracle, simplification is any function that preserves meaning, and evaluation is recursive.
- Answers of `unknown`, timeouts, cancellation, statistics, printing and files.
- Partial models: a model gives every variable a value, so a projection in `mini_ic3.py` never skips one and an evaluated bit-vector in `Program.cs` is always a numeral.
- `lackr_model_constructor`: not modelled; `Lackr.Lazy` uses only that it accepts congruent models and otherwise reports pairs of which one is not congruent.  The constructor in the repository fails on selects without a conflict.
- Sorts: terms are untyped, and formulas are assumed not to be array constants and to use every function with one arity.
- Lackr.Lackr.MkAckermann: the number of subterms is assumed to fit a 32-bit word.
- Doubles: lemma bounds are exact integers or infinite, so rounding above 2^53 is not modelled.
- Rc2.RC2.MaxSat: the stratified `check` is one solver call on all weights.  The program's makes no call on an empty list of weights and then reads a model that may not exist, and it can index past the end of its list.  `max_cost` is not kept; weights are positive integers.
- Rc2.RC2.AtMostName: constraints are looked up as written; the program simplifies them first, so that it may give two ways of writing one constraint the same name.
- MaxSat.NaiveMaxsat: constraint counts are assumed to fit the 32-bit return value.
- The heap of `mini_ic3.py` compares goals when levels tie, which fails on Python 3; any lowest goal may come next here.
- WrongInvariant.RunReached: each decision is one that some sound answers lead to; a single solver giving all of them is not written out.
- HsMaxSat.HsMaxSAT.Run: needs a hitting set optimiser that always finishes; with timeouts hitting sets are arbitrary, and `HsMaxSat.HsMaxSAT.Steps` takes the number of steps as a parameter.  Patterns and back-off counters are left out.
- RingMonitor.Monitor.Evaluate: needs more than one observation; with none or one the program calls `back()` on an empty vector.
- `mini_quip.py`, the Horn clause parser of `mini_ic3.py`, `main.cpp`, `get_data.cpp`, the Java copies of `CheckSmall`, the rest of `Program.cs`, and the smaller examples.
