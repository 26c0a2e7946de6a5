# A Dafny model of quod's passes

quod is a small compiler toolchain over typed trees. This project models the passes
that decide or rewrite something about those trees, and three state cores of its
terminal client, and proves what they are for.

| part | files |
|---|---|
| shared | `Wrappers`, `QuodTree` (layers B and C), `CTree` (layer A), `Arithmetic` (C11 and quod integer operators), `Runs`, `QuodRun` (runs of quod programs), `CRun` (runs of C functions), `FirstWins`, `Dictionary`, `Relations`, `Jumps`, `Untouched` |
| lift checker | `LiftCheck`, `Lifting`, `LiftExact` and `CTypeNames` (what it accepts), `LiftSound`, `LiftGaps` (what acceptance means), `ProveLifts`; c-family lowering in `CFamily`, both together in `CToCore` |
| validator | `DefiniteInit`, `InitSound`, `InitLocals`, `InitPaths`, `InitRuns`, `InitGaps`, `ControlCheck`, `ControlExact`, `ControlSound` |
| imports | `Substitution`, `Wires`, `Rewiring`, `Imports`, `ImportSafety`, `ImportKeeps` |
| whole-program passes | `LiteralRange`, `RangeRuns`, `Rename`, `RenameRuns`, `Merkle`, `Merge`, `MergeLaws`, `MergeFates`, `MergeExact` |
| client | `Picker`, `Recents`, `Scroll` |

**Runs.** `QuodRun` is one fuel-bounded big-step interpreter with normal, break,
continue and return outcomes and a log of calls; every claim about runs uses it.
Fuel is spent by loop turns and by entering a function. Calls outside the program,
memory, floats, sizes and field access are answered by `world`, an arbitrary
function of the whole history of questions, so a claim about runs holds for every
behaviour of them. `CRun` does the same for C, after ISO C11 (sections 5.1.2.2.3,
6.5.3.3, 6.5.15, 6.5.16.2, 6.8.4.2, 6.8.5.3, 6.8.6.2 and 6.9.1); undefined behaviour is an
outcome of its own, against which nothing is promised.

**Imperative parts.** The validator's context and its walks, the worklist of the
resolver, the buckets of the range analysis, the merge loops, the two lift-check
loops, the picker and the recents store are methods with loops, some on classes.
Each is tied by its postcondition to a function of the same inputs, and the laws are
lemmas about that function.

**Fragments.** Several passes are right only on part of the tree language. The part
is a predicate in each theorem, and `...Gap` lemmas give, for a clause of it, a pair
or program outside that the pass accepts and that behaves differently, with the
exact condition under which it still behaves where there is one. Four of these
disagree with what the source says of itself: a `continue` inside an arena or a
match arm is not rewritten by the c-family lowering and skips the step of its loop
(`CFamily.ReachesEveryContinueExactly`, against the docstring at
src/quod/lower/c_family.py:225-231); a wire that binds to a type with a free name
inside a type argument is not reported (`Wires.OpenWiresPassExactly`, against
src/quod/resolve.py:180-187); a do-while whose body never falls through
is treated as if control could go on behind it (`InitPaths.DoWhileExactly`, against
src/quod/validate.py:534-539); and a binding of a match arm counts as a write of the
local whose name it carries (`InitGaps.ArmBindingGap`, against
src/quod/validate.py:633-635).

## Model

| member | source | states |
|---|---|---|
| QuodRun.Eval | src/quod/lower/expr.py:94-190 | runs of expressions never write a variable of their own frame and never leave a break or continue pending |
| QuodRun.FindArm | src/quod/lower/stmt.py:421-452 | the arm found for a variant has its name, and none is found only if none has |
| CRun.EvalC | src/quod/lift_check.py:995-1294 | C expressions of the fragment write no variable of their caller and fail only by undefined behaviour or for want of fuel |
| LiftCheck.PopStubs | src/quod/lift_check.py:495-504 | the loop that strips synthesized fall-through statements keeps exactly the length given by `KeptLength` |
| LiftCheck.CheckDecls | src/quod/lift_check.py:513-531 | the expansion of one multi-declaration into consecutive lets decides the declarative relation |
| LiftCheck.CheckBody | src/quod/lift_check.py:465-549 | the cursor walk over both statement lists decides `AcceptsBody` after stripping |
| LiftCheck.CheckSwitchChain | src/quod/lift_check.py:552-620 | the walk down the chain of ifs decides `AcceptsChain`, and how many cases it looks at before an empty else stops it |
| Lifting.LiftExpr | src/quod/lift_check.py:995-1294 | the lifting of a C expression with a choice: one quod expression, or none if they do not fit; stated without the walk |
| LiftExact.OperatorsArePairedBySpelling | src/quod/lift_check.py:170-230 | the three operator tables pair a C operator with a quod operator if and only if it is how C spells it, whatever the family |
| LiftExact.UpdatesArePairedBySpelling | src/quod/lift_check.py:156-167 | the compound-assignment table holds exactly the ten operators that C can update with, in their signed form |
| LiftExact.TruthValuesExactly | src/quod/lift_check.py:976-992 | an expression counts as a truth value if and only if it is `&&`, `\|\|` or an operator whose value C always makes 0 or 1 |
| CTypeNames.TypeTableExactly | src/quod/lift_check.py:235-291 | the type table knows exactly the names that C composes from `signed`, `unsigned`, a rank and `int`, the fixed-width names and eight typedefs and other types, each with its width |
| LiftExact.AcceptsExprExactly | src/quod/lift_check.py:995-1294 | an expression pair is accepted if and only if the quod side is a lifting of the C side under some choice of casts, variable kinds, families, scales and widenings |
| LiftExact.AcceptsBodyExactly | src/quod/lift_check.py:465-549 | the same for bodies, with multi-declarations, updates, loops and switches as chains of ifs over any tree of `\|\|` |
| LiftExact.LiftingIsAccepted | src/quod/lift_check.py:420-549 | complete: every C function and every one of its liftings is accepted |
| LiftExact.AcceptsLiftingsExactly | src/quod/lift_check.py:420-549 | a pair of functions is accepted if and only if the quod function is a lifting of the C function, with any stubs behind it |
| LiftSound.OperatorTable | src/quod/lift_check.py:170-190 | every row of the signed operator table pairs operators with the same result wherever C defines one |
| LiftSound.UnaryTable | src/quod/lift_check.py:1241-1294 | negation, logical and bitwise not equal the binary forms they are paired with |
| LiftSound.ExprAgrees | src/quod/lift_check.py:995-1294 | accepted expressions give the same value, the same calls and the same store for every fuel |
| LiftSound.CallAgrees | src/quod/lift_check.py:995-1294 | a call of a function of the two programs agrees: the callees run alike whatever the frames around them |
| LiftSound.TestAgrees | src/quod/lift_check.py:983-992 | accepted controlling expressions have the same truth value |
| LiftSound.CaseTreeAgrees | src/quod/lift_check.py:623-667 | any shape of the tree of `\|\|` over stacked labels computes whether one of the labels is hit |
| LiftSound.NeverBreaks | src/quod/lift_check.py:552-620 | C bodies without a break of their own switch never end with one |
| LiftSound.ChainAgrees | src/quod/lift_check.py:552-620 | an accepted chain reaches, with the store as it was, the branch paired with the first case that holds the value, or with the default when none does |
| LiftSound.SwitchAgrees | src/quod/lift_check.py:552-620 | an accepted switch and its chain run alike: the first case that holds the value, else the default |
| LiftSound.ForTurnsAgree | src/quod/lift_check.py:837-856 | accepted for loops run alike turn by turn, a continue included |
| LiftSound.UpdateAgrees | src/quod/lift_check.py:729-806 | compound assignment and increment run as the update they are paired with |
| LiftSound.StmtAgrees | src/quod/lift_check.py:688-980 | accepted statements end alike, with the same calls and the same variables in scope |
| LiftSound.BodyAgrees | src/quod/lift_check.py:465-549 | so do accepted bodies, multi-declarations included |
| LiftSound.AcceptedFunctionsAgree | src/quod/lift_check.py:316-379 | in two programs whose functions are all accepted pairs and call each other, both runs from the same arguments give the same return value, variables, outcome and call trace for every fuel, and a fall off the end in C meets only stripped stubs in quod |
| LiftSound.MainFallingOff | src/quod/lift_check.py:670-685 | falling off `main` returns 0 in quod if and only if the first stripped stub is a `return 0` |
| LiftGaps.CastGap | src/quod/lift_check.py:1002-1022 | an implicit cast is accepted and agrees if and only if the value fits |
| LiftGaps.UnsignedGap | src/quod/lift_check.py:193-230 | an unsigned comparison is accepted for a signed one and agrees if and only if the operand is non-negative |
| LiftGaps.ReturnIfGap | src/quod/lift_check.py:826-832 | an `If` for `return cond` is accepted whatever its branches return; it agrees if and only if they are not reached or return the truth value |
| LiftGaps.ShortChainGap | src/quod/lift_check.py:587-589 | an empty else mid-chain ends the walk, so the cases behind it are paired with nothing; for any list of them the pair agrees if and only if none of them is the first to hold the value |
| LiftGaps.OwnBreakGap | src/quod/lift_check.py:552-620 | a break of the switch is paired with a break of the loop around; they agree if and only if the case is not taken |
| LiftGaps.NoCaseGap | src/quod/lift_check.py:597-609 | without a case the test of the if is not inspected; the pair agrees if and only if the test fails |
| LiftGaps.ScrutineeCallGap | src/quod/lift_check.py:623-667 | a call in the scrutinee is made once in C and once per label test in quod; the traces agree if and only if the first label is hit |
| LiftGaps.ShadowGap | src/quod/lift_check.py:465-549 | an inner declaration of the same name is accepted and overwrites the outer variable; the pair agrees if and only if it writes the value that was there |
| CFamily.ContinueWithRuns | src/quod/lower/c_family.py:225-254 | replacing each continue by step and continue makes a body that continues run the step first |
| CFamily.LowerStmtRuns | src/quod/lower/c_family.py:257-333 | a lowered statement has exactly the run of the structured one, whatever statement the step is, if the step does not jump and no continue of a loop with a step is hidden in an arena or a match arm |
| CFamily.LowerBodyRuns | src/quod/lower/c_family.py:213-222 | so does a lowered block, for every fuel and state |
| CFamily.LoweringPreservesCalls | src/quod/lower/c_family.py:115-170 | in a program whose functions are all lowered, every call has the same result, store and trace |
| CFamily.LoweredIsCore | src/quod/lower/c_family.py:257-333 | the result is free of C-style loops if and only if none sits under a do-while, which the lowering does not enter |
| CFamily.ContinueEverywhereRuns | src/quod/lower/c_family.py:225-254 | the rewrite that also enters arenas and match arms runs the step before every continue of any body, where no arm around a continue binds a name of the step |
| Untouched.ExecAllVeils | src/quod/lower/stmt.py:488-520 | slots of names that a list does not mention neither matter to its run nor are changed by it, for all statements: exchanging them before or after a run is the same |
| CFamily.ReachesEveryContinueExactly | src/quod/lower/c_family.py:225-254 | the source's rewrite equals that one if and only if no continue of the body is hidden in an arena or a match arm |
| CFamily.HiddenContinueGap | src/quod/lower/c_family.py:225-254 | with any arena or match in it that continues, a loop ends after one turn and its lowering never does |
| CFamily.ArenaHides | src/quod/lower/c_family.py:225-254 | an arena is such a statement |
| CFamily.ArmHides | src/quod/lower/c_family.py:225-254 | so is a match with a continuing arm |
| CToCore.AcceptedIsLowerable | src/quod/lift_check.py:688-980 | accepted bodies are in the fragment that the lowering preserves |
| CToCore.CRunsAsCore | src/quod/lower/c_family.py:115-170 | lift check and lowering together: the C program and the lowered quod program run alike through all their calls; the lowered function is core if and only if no C-style loop sits under a do-while |
| CToCore.WitnessedProgramsRunAlike | src/quod/lift_check.py:1547-1650 | once the lift claims of a program were proved, two programs whose functions are all witnessed pairs in the fragment run alike from any function, from C down to lowered quod |
| ProveLifts.ProveAll | src/quod/lift_check.py:1583-1650 | the two passes over the equivalences compute `Proved` |
| ProveLifts.PinPairs | src/quod/lift_check.py:1611-1645 | the second pass pins pair by pair and stops at the first rejected one |
| ProveLifts.WitnessIsPreferred | src/quod/lift_check.py:1583-1605 | the claim chosen for a pair is one of its claims, and a witness whenever it has one |
| ProveLifts.ProvedIs | src/quod/lift_check.py:1547-1650 | unrelated equivalences stay in order, each pair that had a claim has exactly one, and every pair with both ends present was accepted by the walk and is pinned to its current hash |
| ProveLifts.ProvedExactly | src/quod/lift_check.py:1583-1650 | the whole result by position and justification: first every equivalence that is neither a lift record nor signed by the ingester, in order; then one proof per pair in the order of first claims, made from the first claim with a record or else the first, kept if its hash is current and otherwise a new witness with the current hash and path |
| ProveLifts.ProvingAgainChangesNothing | src/quod/lift_check.py:1562-1571 | proving is idempotent |
| ProveLifts.FailsExactly | src/quod/lift_check.py:1566-1571 | it fails if and only if a lift record or a claim signed by the ingester joins two present functions that the walk rejects, and it names the first such claim |
| DefiniteInit.Context.constructor | src/quod/validate.py:309-328 | the context starts with the collected locals that are not parameters and no diagnostics |
| InitLocals.LocalsExactly | src/quod/validate.py:343-385 | a name is watched if and only if it is no parameter and some let, for or arena of it occurs in the body outside do-while and C-style loops, at any depth |
| DefiniteInit.Context.CheckExprReads | src/quod/validate.py:644-696 | appends exactly the reported reads of an expression, in order |
| DefiniteInit.Context.WalkDefiniteInit | src/quod/validate.py:534-545 | returns the definitely written names where control falls through and appends exactly the reports of the list |
| DefiniteInit.Context.CheckStmtInit | src/quod/validate.py:548-641 | the same for one statement |
| DefiniteInit.Context.CheckCompoundInit | src/quod/validate.py:570-641 | the same for statements with bodies |
| DefiniteInit.Context.CheckIfInit | src/quod/validate.py:570-586 | branches are intersected, one that does not fall through is ignored |
| DefiniteInit.Context.CheckDoWhileInit | src/quod/validate.py:589-600 | the condition is looked at behind a body that falls through, otherwise not at all |
| DefiniteInit.Context.CheckForInit | src/quod/validate.py:601-607 | the body sees the loop variable |
| DefiniteInit.Context.CheckArms | src/quod/validate.py:623-636 | arms are intersected over those that fall through, each entered with its bindings |
| InitSound.EvalClean | src/quod/validate.py:644-696 | an expression without reports reads no name whose slot was not written, its declaration executed or not |
| InitSound.ExecAllClean | src/quod/validate.py:534-545 | a list without reports reads no name before a write to its slot however it ends, keeps written slots written, and where it falls through every claimed local is written |
| InitSound.DoWhileClean | src/quod/validate.py:593-605 | the same through any number of turns of a do-while |
| InitSound.MatchClean | src/quod/validate.py:616-636 | the same through the arm that a value selects |
| InitSound.BodyClean | src/quod/validate.py:521-531 | in a program whose functions report nothing no call, at any depth and for any arguments, reads a name before a write to its slot, also where its declaration lies on a branch not taken |
| InitPaths.EveryPathWrites | src/quod/validate.py:534-641 | every path that falls through has written what the walk claims |
| InitPaths.AvoidingPath | src/quod/validate.py:534-641 | for a name not claimed there is a path that falls through without writing it |
| InitPaths.FallsThroughExactly | src/quod/validate.py:534-545 | the walk says that control falls through if and only if some path does |
| InitPaths.WrittenExactly | src/quod/validate.py:534-641 | a name is in the result if and only if every path that falls through writes it |
| InitPaths.ReportedExactly | src/quod/validate.py:644-654 | a local is reported if and only if some path reads it while it is not written |
| InitLocals.FunctionReportsExactly | src/quod/validate.py:521-531 | for a whole function: a name is reported if and only if it is so declared, no parameter, and some path reads it unwritten |
| InitRuns.EveryRunIsAPath | src/quod/validate.py:548-641 | every run that falls through, breaks or continues follows some path that ends alike and has written no more, bindings aside |
| InitRuns.ClaimedNamesAreSet | src/quod/validate.py:534-545 | so what the walk claims, bindings aside, is set wherever a run falls through, by way of the paths |
| InitPaths.ForVariableGap | src/quod/validate.py:606-612 | after a for loop its variable is written on every path, and the walk does not claim it |
| InitPaths.DoWhileGap | src/quod/validate.py:600-603 | a do-while whose body never falls through never does either, and the walk goes on |
| InitPaths.DoWhileExactly | src/quod/validate.py:593-605 | for a do-while without jumps of its own the walk is right about whether control gets behind it if and only if its body can fall through |
| InitGaps.NotGap | src/quod/validate.py:644-696 | reads below a `Not` are not looked at |
| InitGaps.DoWhileDeclarationGap | src/quod/validate.py:343-373 | locals declared in a do-while are not collected: the walk reports none of their reads, and it is the check for undeclared names that rejects every reference to them |
| InitGaps.DoWhileBreakGap | src/quod/validate.py:593-605 | a write behind a break of a do-while counts; the read behind the loop is unset if and only if the break is taken |
| InitGaps.ArmBindingGap | src/quod/validate.py:616-636 | a binding of a named arm counts as a write of the local of that name, which has another slot (src/quod/lower/stmt.py:82-89); the read behind the match is unset if and only if that arm is taken |
| Jumps.NoJumpLeft | src/quod/validate.py:502-507 | a list with no break or continue of its own never ends a run with one pending |
| ControlCheck.FindVariant | src/quod/validate.py:728-732 | finds a variant by name if and only if one is declared |
| ControlCheck.Context.CheckStmts | src/quod/validate.py:409-513 | appends exactly the findings of a list and leaves loop depth and arm scopes as they were |
| ControlCheck.Context.CheckStmt | src/quod/validate.py:471-513 | the same for one statement |
| ControlCheck.Context.CheckLoopBody | src/quod/validate.py:476-501 | a loop body is checked one level deeper, and the depth is restored |
| ControlCheck.Context.CheckMatch | src/quod/validate.py:699-778 | appends exactly the findings of a match |
| ControlCheck.Context.CheckArms | src/quod/validate.py:709-752 | the arm loop, with the variants seen and the wildcards counted |
| ControlCheck.Context.CheckArm | src/quod/validate.py:712-751 | one arm: its bindings, its body inside their scope, its variant seen before |
| ControlCheck.Context.CheckBindings | src/quod/validate.py:717-722 | each binding that repeats an earlier one of its arm is reported once |
| ControlCheck.Context.BuildScope | src/quod/validate.py:724-739 | the scope of an arm: payload types where known, an untyped entry for every other binding |
| ControlCheck.Context.CheckCoverage | src/quod/validate.py:754-778 | wildcard count, missing and unknown variants, and payload arity |
| ControlSound.StrayJumpsExactly | src/quod/validate.py:502-507 | a stray break or continue is reported if and only if one belongs to no loop of the list |
| ControlSound.CoverageExactly | src/quod/validate.py:760-771 | the coverage check passes if and only if every declared variant picks an arm and every named arm is declared |
| ControlExact.ScrutineeEnumExactly | src/quod/validate.py:701-705 | the enum of a scrutinee is known if and only if its type is inferred to be a declared enum |
| ControlExact.ScopeExactly | src/quod/validate.py:722-739 | every binding of an arm is in scope, and has a type if and only if a payload field stands at its last place |
| ControlExact.FindingsExactly | src/quod/validate.py:409-519 | each of the nine findings is reported if and only if some statement of the body, inside its loops and arms, is a reason for it: jumps without a loop, binding wildcards, repeated bindings, arms and wildcards, missing and unknown variants with their exact sets, wrong arities |
| ControlSound.ArmFits | src/quod/validate.py:699-778 | after a clean check every value of the enum inferred at a match finds an arm with the right number of bindings |
| ControlSound.BodyArmed | src/quod/validate.py:309-340 | in a program without findings, each function inferred in its own environment, no run at any call depth ends with a pending jump or meets a match with no arm or a wrong binding count for a value of the inferred enum |
| ControlSound.TwoEnumsAreChecked | src/quod/validate.py:309-340 | two functions that match on a parameter of one name with different enums are both checked |
| ControlSound.CStyleForGap | src/quod/validate.py:508-513 | the checks skip a C-style for: a match without arms inside one is accepted and fails when it runs |
| Substitution.Substitutes | src/quod/traversal.py:172-251 | substitution succeeds if and only if the tree has no node without a case (`IfExpr`, C-style for) |
| Substitution.Identity | src/quod/traversal.py:75-251 | the identity changes nothing |
| Substitution.Composition | src/quod/traversal.py:75-251 | two substitutions in a row are the substitution of the composed function |
| Substitution.TypesAreMapped | src/quod/traversal.py:75-251 | the types at rewritten positions become exactly their images, in order |
| Substitution.Extensionality | src/quod/traversal.py:75-251 | only the types at rewritten positions matter |
| Wires.SubTypeNames | src/quod/resolve.py:232-243 | for any wires, the names of a rewritten type are its unwired or shielded names and the names that the images bring in |
| Wires.Shielded | src/quod/resolve.py:225-232 | a type whose wired names are all shielded is unchanged |
| Wires.WiresCommute | src/quod/resolve.py:232-243 | two closed wire maps over disjoint names commute in a type |
| Wires.WiresCommuteInBody | src/quod/resolve.py:271-288 | and in a body |
| Wires.StructIsWired | src/quod/resolve.py:250-257 | for any wires, the free names of a rewritten struct are its unwired free names and those that the wires it uses bring in and its own type parameters do not bind |
| Wires.EnumIsWired | src/quod/resolve.py:259-272 | the same for an enum |
| Wires.FunctionIsWired | src/quod/resolve.py:274-288 | the same for a function or a method, whose own and enclosing type parameters shield |
| Wires.ImplIsWired | src/quod/resolve.py:290-314 | the same for an impl, at its type and in its methods |
| Wires.ExternIsWired | src/quod/resolve.py:316-321 | the same for an extern |
| Wires.ImportsAreForwarded | src/quod/resolve.py:323-339 | imports that mention only closed wired names are closed after the rewrite |
| Wires.ClosedWiresApply | src/quod/resolve.py:172-213 | closed wires never hit the unresolved-wire error, and what they yield has no free wirable and only closed imports |
| Wires.OpenWiresPassExactly | src/quod/resolve.py:189-213 | wires that match the wirables and still mention a name are applied without an error if and only if none is a bare name and some type holds one |
| Wires.MergedClosedExactly | src/quod/resolve.py:220-349 | a well-scoped module comes out closed if and only if no wire brings a foreign name into a definition that does not bind it |
| Wires.NestedWireGap | src/quod/resolve.py:189-198 | the smallest input: a free name inside a type argument of a wire is not reported and stays free in the merged struct |
| Wires.SubstituteWirables | src/quod/resolve.py:220-349 | the loops over the collections compute `Rewired` |
| Rewiring.RewiredKeeps | src/quod/resolve.py:220-349 | a rewritten module has the same constants and traits, and the same definitions in the same order with the same names, ids, claims and trees; each type at a rewritten position has exactly its unshielded wired names replaced |
| Wires.RewriteFunctions | src/quod/resolve.py:274-288 | the function loop rewrites each function or none |
| Wires.RewriteImpls | src/quod/resolve.py:290-314 | the impl loop likewise, methods under the type parameters of their impl |
| Wires.ApplyWires | src/quod/resolve.py:172-213 | right sides checked first, then missing, then unknown wirables, then the rewrite; a repeated binding wins |
| Rewiring.WireMapExactly | src/quod/resolve.py:188-198 | a name gets a type if and only if its last binding has that type |
| FirstWins.AddAll | src/quod/resolve.py:127-154 | the seen-set loop appends exactly the items with a new key |
| FirstWins.AddNewKeys | src/quod/resolve.py:127-154 | the old list is a prefix, every key is there, added ones were not |
| Imports.MergeModule | src/quod/resolve.py:127-154 | all seven collections of one module |
| Imports.LoadModule | src/quod/resolve.py:104-122 | tier, existence and wires of one import, with their errors |
| ImportKeeps.TierExactly | src/quod/resolve.py:43-54 | a module is in the tier `alloc` or `std` if and only if its dotted name lies there, and otherwise in `core` |
| ImportKeeps.FetchFailsExactly | src/quod/resolve.py:104-213 | an import fails with an error if and only if that is the first obstacle: disabled tier, unknown module, unexpected wires, the first bare wire, the exact set of missing and then of unknown wires, a node the walker cannot handle |
| Imports.Enqueue | src/quod/resolve.py:123-126 | appends the nested imports that are not visited yet |
| Imports.ResolveImports | src/quod/resolve.py:57-169 | the worklist ends on every input, cyclic imports included, with the result of `Work` |
| Imports.LoadShrinks | src/quod/resolve.py:99-106 | the measure: each load leaves fewer unvisited modules |
| Imports.MergeIsFirstWins | src/quod/resolve.py:127-154 | the user's definitions are an unchanged prefix, each added key occurs once and comes from the first loaded module that declares it, and no key is lost |
| ImportSafety.WorkLoads | src/quod/resolve.py:99-126 | throughout the loop the loaded modules are distinct, exist and are in no disabled tier |
| ImportSafety.WorkCovers | src/quod/resolve.py:99-126 | throughout the loop everything imported is loaded or queued |
| ImportSafety.WorkStaysReachable | src/quod/resolve.py:99-126 | and nothing unreachable ever is |
| ImportSafety.LoadsTheReachable | src/quod/resolve.py:57-169 | on success the loaded modules are exactly the reachable ones, each once, none in a disabled tier |
| ImportSafety.SucceedsWhenAllFit | src/quod/resolve.py:99-122 | resolution succeeds when every import of the program and of a reachable module fits (the module exists in an enabled tier, has no unhandled node and is wired exactly), and on success every reachable module has an import that fits |
| ImportSafety.SucceedsExactly | src/quod/resolve.py:99-122 | when the imports of one module agree on whether they fit, it succeeds if and only if all of them fit |
| ImportSafety.LaterWiresAreIgnored | src/quod/resolve.py:99-103 | a later import of a loaded module is skipped whatever it wires |
| ImportSafety.ResultIsFirstWins | src/quod/resolve.py:156-169 | every collection of the result is the user's plus the first-wins merge of the loaded modules |
| ImportKeeps.WorkKeepsForms | src/quod/resolve.py:104-122 | throughout the loop every loaded module is the declared one, or that with wires that bind exactly its wirables applied |
| ImportKeeps.DefinitionsArrive | src/quod/resolve.py:104-160 | every constant, struct, enum, extern, function and trait of a reachable module is in the result under its name |
| ImportKeeps.ImplsArrive | src/quod/resolve.py:104-160 | so is every impl, for the type that its own becomes |
| ImportKeeps.ConstantsAreDeclared | src/quod/resolve.py:127-160 | the added constants and traits are those of reachable modules, unchanged |
| ImportSafety.WorkIsWired | src/quod/resolve.py:99-126 | throughout the loop every queued import is closed |
| ImportSafety.WiresAreClosed | src/quod/resolve.py:172-213 | the unresolved-wire error is unreachable, and every added struct, enum, extern, function and impl has none of its module's wirables free |
| LiteralRange.FeedCall | src/quod/analysis.py:67-83 | one call feeds or poisons exactly the buckets of its callee's parameters |
| LiteralRange.FeedCaller | src/quod/analysis.py:67-70 | the loop over one caller |
| LiteralRange.CollectClaims | src/quod/analysis.py:85-107 | a function has an entry if and only if some parameter got a range |
| LiteralRange.DeriveLatticeClaims | src/quod/analysis.py:57-107 | the nested loops record for each function exactly the ranges derived from all calls of the program |
| LiteralRange.DerivedExactly | src/quod/analysis.py:85-107 | a range is derived if and only if every call passes a literal within it and both bounds are passed by some call |
| LiteralRange.OrderDoesNotMatter | src/quod/analysis.py:67-70 | ranges depend neither on the order of the callers nor on the hash |
| RangeRuns.WalkIsComplete | src/quod/analysis.py:121-188 | the walkers find every call, in order, if and only if no call is below a node they do not look into |
| RangeRuns.CallFits | src/quod/analysis.py:57-107 | a call that the analysis saw enters a frame within the ranges |
| RangeRuns.EnteredFramesFit | src/quod/analysis.py:57-107 | in every run of the program every frame entered by an internal call has each claimed parameter within its range |
| RangeRuns.StoreFieldGap | src/quod/analysis.py:121-154 | a call under a field store is missed; a run enters a frame outside the derived range if and only if that call passes another literal |
| Rename.RenameFunction | src/quod/editor.py:70-110 | the loop over the functions, with its two errors |
| Rename.RenamingIsUndone | src/quod/editor.py:70-110 | no function, call or claim uses the old name afterwards, and renaming back restores the functions if and only if none used the new name before |
| RenameRuns.EvalMoves | src/quod/editor.py:84-99 | a renamed expression has the run of the original, with frames renamed |
| RenameRuns.ExecAllMoves | src/quod/editor.py:84-99 | so has a renamed body |
| RenameRuns.RenamingPreservesCalls | src/quod/editor.py:70-110 | every call in the renamed program has the same outcome, store and interaction, and corresponding frames |
| RenameRuns.RenamedProgram | src/quod/editor.py:101-106 | the renamed machine is the one of the rewritten function list |
| RenameRuns.CaptureGap | src/quod/editor.py:80-85 | only function names are compared with the new name: a call that already used it, of an extern, enters the renamed function afterwards, and gives the same value if and only if the extern answers what the function returns |
| Merkle.FindByPrefix | src/quod/hashing.py:62-77 | finds a node if and only if exactly one hash matches, for any hash; no match and ambiguity are the other two outcomes |
| Merkle.ReplaceNode | src/quod/hashing.py:80-107 | succeeds if and only if the reference is unambiguous, for any hash, and then replaces every outermost node with the found hash |
| Merkle.ReplacesContentExactly | src/quod/hashing.py:80-107 | replacing by hash is replacing the outermost copies of the target by content if and only if no visited node collides with the target |
| Merkle.FullHashFinds | src/quod/hashing.py:62-77 | a full hash of a node in the tree is unambiguous when the hashes of the tree have one length, collisions or not |
| Merkle.ReplaceIsUndone | src/quod/hashing.py:80-107 | replacing by a node that did not occur, then that node by the old one, is the identity, if neither is mistaken for another visited node |
| Merkle.TargetIsGone | src/quod/hashing.py:80-107 | in between the target occurs only inside the inserted copies |
| Merkle.ReplacementRoundTrip | src/quod/hashing.py:80-107 | both by reference, and the root has another hash in between, for every hash without collisions among the nodes looked at |
| Merkle.SomeHashTells | src/quod/hashing.py:31-35 | a hash without collisions and of one length exists for any finite list of nodes, so the premises of the round trip can be met |
| Dictionary.CollectByName | src/quod/merge.py:64-71 | the dictionary built in a loop |
| Dictionary.ByNameOrder | src/quod/merge.py:64-71 | its keys are those of the list, each once, in order of first occurrence |
| Dictionary.ByNameTakesLast | src/quod/merge.py:64-71 | each entry is the last item of its key |
| Merge.ClaimParam | src/quod/model/claims.py:82-95 | the sole parameter of a predicate, if and only if it has one and no return reference |
| Merge.ReconcileFunctionClaims | src/quod/merge.py:74-132 | the claim loop keeps, skips or drops with a warning as `FunctionFate` says |
| Merge.ReconcileExternClaims | src/quod/merge.py:135-156 | the same for externs |
| Merge.MergeNamedCollection | src/quod/merge.py:159-187 | the two loops of a keyed merge and their warnings |
| Merge.MergeProgram | src/quod/merge.py:190-314 | all twelve collections and the warnings in order |
| MergeLaws.MergedKeyOrder | src/quod/merge.py:159-187 | keys in order: existing first, then those only the new side has |
| MergeLaws.MergedEntry | src/quod/merge.py:174-182 | an entry present in both sides is the reconciled pair and its warnings are reported; one only the existing side has is unchanged |
| MergeLaws.FunctionClaimsAreAccounted | src/quod/merge.py:74-132 | every existing claim is kept, subsumed by an equal predicate, or named by exactly one warning; the rest of the function is the new one |
| MergeLaws.ExternClaimsAreAccounted | src/quod/merge.py:135-156 | the same for externs |
| MergeFates.AboutExactly | src/quod/model/claims.py:82-95 | a claim is about a parameter if and only if it mentions that one, no other and no return value |
| MergeFates.FunctionClaimsExactly | src/quod/merge.py:74-132 | the merged claims are the new ones and then, in order, exactly the existing ones that the new side does not carry and whose one parameter, or else the return value, is still an int; each other one has the warning that explains it |
| MergeFates.ExternClaimsExactly | src/quod/merge.py:135-158 | the same for externs, by the return type |
| MergeExact.ProgramExactly | src/quod/merge.py:190-314 | what each of the twelve collections holds: reconciled functions and externs, the newest version of everything else with a name, existing imports before new ones, every relation once |
| MergeExact.ProgramWarningsExactly | src/quod/merge.py:190-314 | the warnings are exactly those of the reconciled pairs |
| MergeExact.CallableNamesAreUnique | src/quod/merge.py:161-188 | no name occurs twice among functions, structured functions or externs |
| MergeExact.OtherNamesAreUnique | src/quod/merge.py:161-188 | nor among constants, structs and enums, nor a path among units |
| MergeExact.RelationsAreKept | src/quod/merge.py:251-310 | edges of both sides are kept whole, and each signature binding up to its functions and interface |
| MergeExact.SameEquivalenceExactly | src/quod/merge.py:273-298 | two equivalences are merged if and only if they join the same nodes in the same regime on the same ground, notes and rationales aside (the docstring at src/quod/merge.py:206-208 speaks of full equality) |
| MergeLaws.CollectionSettles | src/quod/merge.py:159-187 | merging a collection with the same new side again changes nothing and warns of nothing |
| MergeLaws.SecondMergeChangesNothing | src/quod/merge.py:190-314 | the same for the whole program |
| Picker.RowsAreShown | qui/src/picker.rs:193-239 | the filtered rows are exactly the shown ones |
| Picker.RowsAreOrdered | qui/src/picker.rs:193-239 | in list order |
| Picker.HeaderKeptExactly | qui/src/picker.rs:213-238 | under a filter a header is kept if and only if a selectable of its group matches; placeholders are hidden |
| Picker.LongerTextShowsLess | qui/src/picker.rs:193-239 | a longer filter text never brings a row back |
| Picker.Forward | qui/src/picker.rs:260-269 | the first selectable position from a start on |
| Picker.Backward | qui/src/picker.rs:260-269 | the last selectable position up to a start |
| Picker.Picker.Filtered | qui/src/picker.rs:193-239 | the loops over the items compute the rows |
| Picker.Picker.FilteredGroups | qui/src/picker.rs:213-238 | the nested case, by the set of matching groups |
| Picker.Picker.SnapCursorToSelectable | qui/src/picker.rs:244-274 | the nearest selectable in the direction, else in the other, else the top; nothing else changes |
| Picker.Picker.SeekRow | qui/src/picker.rs:150-154 | moves to the active row if and only if it is shown |
| Picker.Picker.WithItems | qui/src/picker.rs:159-163 | new items leave the cursor on a selectable if there is one |
| Picker.Picker.WithActive | qui/src/picker.rs:148-157 | so does setting an active selectable |
| Picker.Picker.Refresh | qui/src/picker.rs:174-191 | and a refresh, which goes to the active row when it is shown |
| Picker.Picker.HandleKey | qui/src/picker.rs:276-334 | every key changes items, filter text and cursor as `Pressed` says and answers as `OutcomeOf` says |
| Picker.AlwaysOnSelectable | qui/src/picker.rs:276-334 | over every key sequence the cursor is on a selectable row whenever the list has one, and Enter then picks a selectable |
| Picker.UpAndDownStep | qui/src/picker.rs:280-292 | Down goes to the next selectable and stays on the last, Up to the previous and stays on the first |
| Picker.DownVisitsAll | qui/src/picker.rs:286-292 | from the first selectable, `n` times Down reaches the one numbered `n` and then stays on the last |
| Picker.StartsAtFirst | qui/src/picker.rs:159-163 | a fresh list starts at its first selectable |
| Picker.TypingSpells | qui/src/picker.rs:293-334 | typing a text appends it to the filter |
| Picker.EditingKeys | qui/src/picker.rs:293-334 | Backspace takes back a character, ctrl-u clears the filter, and every change of it starts over at the first selectable row |
| Picker.OtherKeys | qui/src/picker.rs:276-334 | Esc, Enter and other control characters change nothing, Up and Down only the cursor |
| Picker.OutcomesExactly | qui/src/picker.rs:276-334 | only Esc cancels, only Enter chooses and only ctrl-x removes, each the selectable row under the cursor |
| Recents.Recents.Note | qui/src/recents.rs:75-96 | moves the anchor to the front, carries the last program, cuts the list off |
| Recents.Replay | qui/src/recents.rs:66-96 | a history of notes from an empty store gives `Stored` |
| Recents.StoredIsCutOfFull | qui/src/recents.rs:75-96 | the truncated store shows the first 20 of the untruncated list, with their times, and that list has no duplicates |
| Recents.StoredIsFull | qui/src/recents.rs:75-96 | while nothing was cut off, the carried programs agree too |
| Recents.StoredKeys | qui/src/recents.rs:75-96 | the keys are exactly the first 20 distinct keys of the history read newest first |
| Recents.StoredLength | qui/src/recents.rs:75-96 | the store holds at most 20 anchors, and all of them while there are no more |
| Recents.FullRemembers | qui/src/recents.rs:75-96 | an entry has the time of its last visit and the program that was named last, none if none ever was |
| Scroll.NearestWithMargin | qui/src/scroll.rs:10-31 | the offset keeps the margin except at the list ends and is the one nearest to the current offset that does |
| Scroll.MarginIsLargest | qui/src/scroll.rs:1-31 | the margin is the largest of at most 3 that fits on both sides of the cursor |
| Scroll.CursorIsVisible | qui/src/scroll.rs:10-31 | the cursor is visible and the offset within bounds |
| Scroll.Settled | qui/src/scroll.rs:10-31 | computing the offset again changes nothing |
| Scroll.OneStepScrollsOne | qui/src/scroll.rs:10-31 | a settled list moves by at most one row, in the direction of the cursor, when the cursor moves by one |

## Left out

- Lift theorem: every integer has the meaning of one signed 32-bit type, with `i1` as 0 and 1: the declared width of a literal or a variable is compared by the walk but ignored by the runs of both sides. Operands go left to right; casts, floats, unsigned families, memory access and pointer conditions are accepted or rejected as in the source but have no C meaning here (undefined behaviour). A call of a function that ends without a value is undefined unless the function is void, also where the caller ignores the value.
- Lift theorem: names are not shadowed, steps of a for are expressions, a widened `return` is an if that returns 1 and 0, and a switch has at least one case, one if per case, call-free values and no break of its own; `LiftGaps` shows why. Between linked programs the stub behind a void function is a bare return.
- Lift record: the JSON record of a walk and its hash bytes are one hash function of the pair; files are not written.
- c-family lowering: block ids, the `CScopedBlock` wrapper (it only drops a tag), provenance edges, used rules and proof artifacts.
- CFamily.LowerStmtRuns: requires each continue of a C-style loop with a step to be visible to the rewrite, because the source does not enter arenas and match arms.
- InitSound.BodyClean: fragment without `Not`, with no arm binding that names a local, and no break or continue of its own loop in a do-while; `InitGaps` shows why. References are in scope and a wildcard binds nothing, as other checks of the validator demand. A binding that carries the name of a parameter hides it from references to the parameter too.
- InitPaths.WrittenExactly: without arenas, C-style loops and do-while bodies that never fall through, and for names that are no loop variable. On a path a binding counts as a write of its name, as in the walk; `InitGaps.ArmBindingGap` says what that misses.
- Validator: duplicate declarations, undeclared names, types, fields, floats, casts, calls and `?` checks; type inference is a parameter of the control checks.
- ControlSound.BodyArmed: a match records the enum inferred for its scrutinee at its place, and a value of another enum that no arm handles counts as undefined behaviour; C-style loops are outside.
- Import resolution: JSON loading is a finite map of modules, the program-level validation of the merged result is not part of this model, and an impl is keyed by its type itself instead of its printed form. Trait bodies, claims, constants and the type of a `for` are not rewritten, as in the source.
- Range analysis: the canonical predicate of a claim is a pair of bounds, the elaboration that appends claims is not modelled, and function names are unique.
- RangeRuns.EnteredFramesFit: for programs without a call below a node that the call walkers skip; a call with a wrong number of arguments enters no frame.
- Rename: impl methods and other collections of the program, which the source does not rewrite either, and the renames of structs, enums, constants and variants.
- Hashing: the hash is any function of nodes; that it does not collide on the nodes looked at, and has results of one length on them, is a premise where a result needs it. Fields are scalars, nodes or tuples.
- Merge: warnings are records instead of text, and traits, impls, wirables and the version stamp are not carried by the source's merge.
- Picker: rendering, title, footer, details, indentation and caller data; lower-casing is a function of one character.
- Recents.StoredIsCutOfFull: says nothing of the carried program once an anchor was cut off, because the store has forgotten it.
- Recents: loading, saving and the clock; the time is an argument.
- Scroll: unbounded numbers; wrap-around of sums near the largest machine word.
- Command line, configuration, completion, language server, runtime build, templates, ingester, monomorphisation, LLVM lowering, SMT proofs, drawing and path classification.
