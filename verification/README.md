# deadcond, modelled in Dafny

This project models `deadcond`, a Go static analyzer. Over the SSA form of each
function, it reports `if` conditions whose outcome is already decided by the
branches taken to reach them ("Condition is always true/false").

The model follows the code in `deadcond/deadcond.go` in four parts.

- **SSA values** (`ssa.dfy`, module `Ssa`). A value is `Value(id, kind)`.
  - The node identity of the Go pointer becomes equality on the value.
  - The closed set of node kinds the analyzer distinguishes is a datatype.
  - Blocks carry the indices of their predecessors and their instructions. The last instruction may be `If(cond)`.
- **Condition relation** (`conditions.dfy`, module `Conditions`). A condition is `Cond(value, truth value)`.
  - `Converse`, `EqualValue`, `Equal`, `EqualUnOp` and `EqualBinOp` mirror the Go functions of the same names, branch for branch.
  - Recursion between the three `Equal*` predicates is shown to terminate by the number of operation nodes on both sides.
  - `condition_laws.dfy` (module `ConditionLaws`) states what the relation decides against a flat reference table (`Entails`), and the laws that follow from it.
- **Path variance** (`path_variance.dfy`, module `PathVariance`). `HasPhi` is the classifier, one case per node kind.
  - It is proved equal to a reference definition: "some walk along operand edges reaches a variant kind".
- **Precondition store** (`precond.dfy`, module `Store`).
  - `PreCond` holds the fact map, the conflict map and the provenance map.
  - It also has `Lookup`/`LookupKey`, `Conflicted`, `Put` and `NewPreCond`.
- **Driver** (`driver.dfy`, module `Driver`).
  - Phase one builds one store per block, in function and block order, and seeds it with the predecessors' branch conditions.
  - Phase two checks each block's own branch condition and produces reports as `(block, truth value)`.
  - `scenarios.dfy` (module `Scenarios`) states the verdict of the whole analyzer on small concrete programs.

## Model

| member | source | states |
|---|---|---|
| Ssa.Negated | deadcond/deadcond.go:211-235 | the converse operator of a comparison is again a comparison, differs from it, and is an equality operator exactly when the original is |
| Conditions.Converse | deadcond/deadcond.go:204-239 | a converse exists exactly for `!` and the six comparisons; it inverts the truth value; `!x` keeps its node; a comparison becomes a fresh node (not the original, not a source node) with the same operands and the negated comparison operator |
| Conditions.EqualValue | deadcond/deadcond.go:302-316 | the same node is always an equal value; otherwise a constant equals only constants, and a non-constant only itself |
| Conditions.Equal | deadcond/deadcond.go:241-254 | a match never relates two different truth values: whenever the query is settled by a stored condition, both have the same truth value |
| Conditions.EqualUnOp | deadcond/deadcond.go:256-261 | looking through a stored unary operation matches only under the stored truth value |
| Conditions.EqualBinOp | deadcond/deadcond.go:263-300 | matching against a stored binary operation, including after stripping a queried unary operation or taking the converse, matches only under the stored truth value |
| ConditionLaws.ConverseTwice | deadcond/deadcond.go:204-239 | the converse of the converse exists and restores the kind (operator and operands) and the truth value |
| ConditionLaws.NegatedPairs | deadcond/deadcond.go:211-235 | converse operators pair up `==`/`!=`, `<`/`>=` and `>`/`<=` and are an involution |
| ConditionLaws.EqualBetweenBinOps | deadcond/deadcond.go:263-300 | between two binary operations the relation holds exactly when the pair is identical, or the truth values agree and the query, or failing that its converse operator, entails the stored operation in the reference table |
| ConditionLaws.EqualityCommutes | deadcond/deadcond.go:269-273 | `==` and `!=` match with operands in either order |
| ConditionLaws.OrderingDoesNotCommute | deadcond/deadcond.go:274-275 | `<`, `>`, `<=`, `>=` do not match their mirror image unless the operands are equal values |
| ConditionLaws.ImplicationIsOneWay | deadcond/deadcond.go:280-291 | a query `x==y` is settled by a stored `x<=y` or `x>=y`, `x>y` by `x>=y`, and `x<y` by `x<=y`, but not the other way round |
| ConditionLaws.ConverseKeepsPolarity | deadcond/deadcond.go:293-297 | the single converse step matches a comparison with its converse operator under the same truth value, never under the inverted one |
| ConditionLaws.StoredNotIsStripped | deadcond/deadcond.go:241-261 | a stored `!x` matches exactly when the pair is identical or `x` matches under the same truth value |
| ConditionLaws.StoredOtherUnOpIsOpaque | deadcond/deadcond.go:256-261 | a stored unary operation other than `!` matches only the identical pair |
| ConditionLaws.StoredOpaqueMatchesOnlyItself | deadcond/deadcond.go:241-254 | a stored value that is no unary or binary operation matches only the identical pair |
| ConditionLaws.QueriedUnOpIsStripped | deadcond/deadcond.go:264-267 | against a stored binary operation, a queried unary operation of any operator is stripped and the sides change places |
| ConditionLaws.QueriedOpaqueMissesBinOp | deadcond/deadcond.go:263-300 | against a stored binary operation, a query that is no unary or binary operation never matches |
| ConditionLaws.NotKeepsTruthValue | deadcond/deadcond.go:256-259 | every condition matches the stored negation of its own value under the same truth value |
| ConditionLaws.NotDoesNotInvert | deadcond/deadcond.go:256-259 | a plain value does not match its stored negation under the inverted truth value |
| ConditionLaws.EqualValueIsEquivalence | deadcond/deadcond.go:302-316 | operand comparison is an equivalence relation: reflexive, symmetric and transitive |
| ConditionLaws.EqualityMatchIsSymmetric | deadcond/deadcond.go:269-273 | two `==` (or two `!=`) comparisons under the same truth value match regardless of which one is stored |
| ConditionLaws.StringConstants | deadcond/deadcond.go:310-311 | two empty string constants are equal values, while two non-empty string constants with the same contents in different allocations are not |
| PathVariance.HasPhi | deadcond/deadcond.go:69-144 | the variant kinds are flagged, and constants, functions, globals, free variables, builtins and every kind the classifier does not name (`Other`) never are |
| PathVariance.HasPhiStep | deadcond/deadcond.go:69-144 | a value is flagged exactly when its kind is variant or one of the operands followed for its kind is flagged |
| PathVariance.HasPhiIffReachesVariant | deadcond/deadcond.go:69-144 | a value is flagged exactly when a walk along operand edges from it reaches a phi, parameter, alloc, field, field or index address, or `Next` |
| PathVariance.VariantPathFrom | deadcond/deadcond.go:69-144 | every flagged value has a walk along operand edges to a variant kind |
| PathVariance.PathEndsVariant | deadcond/deadcond.go:69-144 | the start of every operand walk that ends in a variant kind is flagged |
| PathVariance.OperandSmaller | deadcond/deadcond.go:75-130 | every operand the classifier follows is a strictly smaller value, so the recursion terminates |
| Store.Lookup | deadcond/deadcond.go:183-197 | a key settles its own value under either truth value; in a store whose facts are all true, `false` is settled exactly by the value being a key |
| Store.Conflicted | deadcond/deadcond.go:173-181 | in a store whose conflicts are all true, putting `true` never hits a conflict |
| Store.LookupKey | deadcond/deadcond.go:169-197 | the settling key is the queried value itself whenever it is a key, whatever truth value is asked; otherwise a key whose fact matches the query; it is absent exactly when nothing settles the query |
| Store.Put | deadcond/deadcond.go:146-167 | a variant value leaves the store unchanged and reports no conflict; a value matching the opposite of a conflict becomes a conflict with the fact map unchanged; one whose opposite is settled becomes a conflict and the settling key leaves the fact map; otherwise it becomes a fact; provenance is always recorded; no other key changes; putting `true` into an all-true store keeps it all-true and toggles the value: a key leaves the fact map as a conflict, a new value becomes a fact |
| Store.NewPreCond | deadcond/deadcond.go:39-67 | every fact and every conflict of the new store is offered, with that truth value, by some parent and not put there by a branch of the block itself; no fact is variant; every offer ends up as a fact or a conflict unless variant; a key offered by two parents is a conflict; every conflict's opposite is settled by the fact map; provenance starts empty; with all-true parents the fact map is exactly the non-variant offers, asserted true |
| Store.MergeFact | deadcond/deadcond.go:55-62 | one offered fact becomes a conflict, with the fact map unchanged, exactly when its opposite is already settled; otherwise it is dropped when variant and becomes a fact when not, with the conflicts unchanged; existing facts always keep their values |
| Store.MergedFacts | deadcond/deadcond.go:39-67 | with all-true parents, the merged store is all-true and its fact map is exactly the set of non-variant offers, asserted true |
| Store.MergedFactsOffered | deadcond/deadcond.go:39-67 | with all-true parents, every merged fact and conflict is true and every fact is a non-variant offer of some parent |
| Store.MergeFactJustified | deadcond/deadcond.go:55-57 | a conflict is recorded only when its opposite is settled, and stays settled as facts are added |
| Store.LookupGrows | deadcond/deadcond.go:183-197 | a store whose fact map only grows settles at least what it settled before |
| Store.MergeParent | deadcond/deadcond.go:48-63 | merging one parent's facts keeps every fact variant-free and offered by a parent, covers that parent's offers and records repeated ones as conflicts, and records a conflict only when its opposite is settled; every fact merged from earlier parents keeps its value |
| Store.MergeFactKeeps | deadcond/deadcond.go:55-62 | merging one offered fact keeps the merge invariants |
| Store.SourcedGrows | deadcond/deadcond.go:48-49 | entries offered by the first parents are offered by a longer prefix of the parents too |
| Driver.IfInst | deadcond/deadcond.go:387-398 | a block has a branch condition exactly when it is non-empty and its last instruction is an `If`, and then it is that instruction's condition |
| Driver.IfInstLooksAtLastOnly | deadcond/deadcond.go:387-398 | an `If` earlier in a block does not count when the last instruction is not an `If` |
| Driver.BuildBlock | deadcond/deadcond.go:325-340 | every fact of a block's store comes from an earlier predecessor's store or is a predecessor's branch condition asserted true; the provenance map names exactly the non-variant branch conditions of predecessors, each with the last predecessor branching on it (`SeedFroms`); given all-true earlier stores, the fact map is exactly the one the processed predecessors determine (`ExpectedFacts`) |
| Driver.Parents | deadcond/deadcond.go:325-330 | the parents gathered for a block are exactly the stores of its already processed predecessors, in predecessor order, so every fact they offer is inherited from such a predecessor |
| Driver.ParentStoresFrame | deadcond/deadcond.go:325-330 | the parents of a block depend only on the stores of earlier blocks of the same function |
| Driver.Seed | deadcond/deadcond.go:333-339 | after putting each `If` predecessor's condition as true, every fact is inherited or a predecessor's branch condition asserted true, and the provenance map names exactly the non-variant branch conditions, each with the last predecessor branching on it, because every put overwrites the provenance (`SeedFroms`); on an all-true store the fact map is the merged one with each condition put as true in predecessor order (`SeedFacts`) |
| Driver.SeedOne | deadcond/deadcond.go:333-338 | one predecessor's turn in `Seed`: its branch condition, when it has one, is put as true, so the all-true fact map advances by one step of `SeedFacts` and the provenance map by one step of `SeedFroms`: unless variant, that condition now names this predecessor, replacing any earlier one |
| Driver.SeededStep | deadcond/deadcond.go:333-339 | putting one more predecessor's branch condition extends the provenance map by exactly that condition, unless it is variant |
| Driver.SeededStepOrigins | deadcond/deadcond.go:333-338 | after one more predecessor, every recorded condition names a predecessor that branches on it |
| Driver.SeededStepKeys | deadcond/deadcond.go:333-338 | after one more predecessor, the recorded conditions are exactly the non-variant branch conditions of the predecessors seen so far |
| Driver.SeedFromsLast | deadcond/deadcond.go:146-167 | as each put overwrites the provenance (lines 154, 161 and 165, called at 333-338), a non-variant condition is recorded with the last of the predecessors that branch on it |
| Driver.OriginSurvivesGrowth | deadcond/deadcond.go:322-341 | adding stores for later blocks does not change where existing facts come from |
| Driver.BuildStep | deadcond/deadcond.go:322-341 | storing the next block keeps every earlier store's fact map equal to the one its predecessors determine, and every fact's origin |
| Driver.StoresSurviveStep | deadcond/deadcond.go:322-341 | storing block `bi` of function `fi` extends the processed blocks by exactly that block and keeps every store for its own block, all-true and without variant facts |
| Driver.FromsSurviveStep | deadcond/deadcond.go:322-341 | storing the next block keeps every store's provenance equal to the one its predecessors determine (`SeedFroms`) |
| Driver.BuildStores | deadcond/deadcond.go:318-342 | every block of every function gets exactly one store, for that block, all-true, with no variant fact and every fact with an origin; each store's fact map is the one determined by the stores of its earlier predecessors and its predecessors' branch conditions, and its provenance names each non-variant branch condition with the last predecessor branching on it |
| Driver.Verdict | deadcond/deadcond.go:351-376 | a verdict is given only for a block ending in `If`, with a truth value the store settles; in an all-true store the verdict is `false` exactly when the condition is itself a key |
| Driver.CheckStores | deadcond/deadcond.go:344-378 | the reports are exactly the reference list `AllReports`: function by function, block by block, each block's verdict (`Verdicts`) if it has one; so each report is for a block ending in `If` whose store settles its condition with the reported truth value, and `true` only when `false` is not settled; every settled block is reported; reports appear once each, in block order |
| Driver.CollectReports | deadcond/deadcond.go:344-378 | walking the functions in order and appending each one's block reports yields the reference list `AllReports` |
| Driver.CollectBlockReports | deadcond/deadcond.go:345-377 | walking the blocks of one function in order and appending each block's verdict, if any, yields the reference list `BlockReports` for that function |
| Driver.BlockReportsSound | deadcond/deadcond.go:345-377 | for any verdict function, every report of a function's first `n` blocks is for one of those blocks and carries that block's verdict |
| Driver.BlockReportsComplete | deadcond/deadcond.go:345-377 | for any verdict function, every one of a function's first `n` blocks that has a verdict is reported with it |
| Driver.BlockReportsOrdered | deadcond/deadcond.go:345-377 | for any verdict function, a function's reports are for blocks below `n`, in strictly increasing block order |
| Driver.FuncReportsSound | deadcond/deadcond.go:344-378 | every report of the first `n` functions is for a block of theirs and carries that block's verdict |
| Driver.FuncReportsComplete | deadcond/deadcond.go:344-378 | every block of the first `n` functions that has a verdict is reported with it |
| Driver.FuncReportsOrdered | deadcond/deadcond.go:344-378 | the reports of the first `n` functions come function by function and, within a function, in block order |
| Driver.ReportsMeaning | deadcond/deadcond.go:344-378 | the reference list is sound, complete and in processing order over all blocks of all functions, each report carrying the verdict of that block's store |
| Driver.Run | deadcond/deadcond.go:318-385 | the two phases together: one all-true store per block, its facts and provenance determined by its predecessors, and as reports exactly the reference list `AllReports` over those stores; as every stored fact is true, `false` is reported only for a condition that is itself a key |
| Scenarios.SingleFactLookup | deadcond/deadcond.go:183-197 | a store with a single fact settles a query exactly when the query is that key or matches it |
| Scenarios.NestedStores | deadcond/deadcond.go:322-341 | in `if outer { if inner { … } }`, phase one gives the entry block no facts and the inner block exactly `outer` as true, unless `outer` is path-variant |
| Scenarios.NestedReports | deadcond/deadcond.go:344-378 | on that program, phase two reports nothing for the entry block and for the inner block exactly its verdict |
| Scenarios.RunNested | deadcond/deadcond.go:318-378 | running the analyzer on that program yields exactly the inner block's verdict on the store holding `outer` as true |
| Scenarios.RepeatedConditionIsAlwaysTrue | deadcond/deadcond.go:318-378 | `if a < b { if a < b { … } }` with call results `a`, `b`: the analyzer reports exactly the inner condition, always true |
| Scenarios.ContradictedConditionIsReportedTrue | deadcond/deadcond.go:293-297 | `if a < b { if a >= b { … } }`: the analyzer reports exactly the inner condition, always true, because the converse step inverts both truth values |
| Scenarios.SameNodeIsReportedFalse | deadcond/deadcond.go:185-187 | branching twice on the same node: the analyzer reports exactly the inner branch, always false, because an exact key settles either truth value and `false` is tried first |
| Scenarios.LoadThroughParameterIsNotCarried | deadcond/deadcond.go:79-88 | `if p.Load() { if p.Load() { … } }` with `p` a parameter: the call is path-variant and the analyzer reports nothing |
| Scenarios.SeparateStringConstantsDoNotMatch | deadcond/deadcond.go:310-311 | `if a == "x" { if a == "x" { … } }`: the two constants are separate allocations and the analyzer reports nothing |
| Scenarios.EqualIntegerConstantsMatch | deadcond/deadcond.go:310-311 | `if a == 1 { if a == 1 { … } }`: small integers are held by value and the analyzer reports the inner condition always true |
| Scenarios.LoopStores | deadcond/deadcond.go:322-341 | in a loop whose head (block 2) is entered from block 1 and from the loop bottom (block 3), all branching on the same condition `c`: the entry has no facts, block 1 holds `c` as true, the head records `c` as coming from block 3, and block 3 starts with no facts |
| Scenarios.LoopEntry | deadcond/deadcond.go:322-341 | in that loop, the entry block has no facts and block 1 holds exactly `c` as true, recorded as coming from block 0 |
| Scenarios.LoopHead | deadcond/deadcond.go:39-67 | the loop head inherits `c` from block 1, holds exactly `c` as true and records it as coming from block 3 |
| Scenarios.LoopHeadSeed | deadcond/deadcond.go:333-338 | at the loop head, putting `c` for predecessor 1 removes the inherited key and putting it for predecessor 3 adds it back |
| Scenarios.LoopHeadFrom | deadcond/deadcond.go:333-338 | at the loop head, the put for predecessor 3 overwrites the provenance recorded for predecessor 1 |
| Scenarios.LoopBottom | deadcond/deadcond.go:50-53 | the loop bottom's only parent recorded `c` as coming from the loop bottom itself, so that fact is skipped and block 3 starts with no facts |
| Scenarios.LoopReports | deadcond/deadcond.go:344-378 | with those stores, phase two reports exactly block 1, always false |
| Scenarios.RunLoop | deadcond/deadcond.go:318-378 | running the analyzer on the loop with a non-variant condition reports exactly block 1, always false, and not the loop bottom |
| Scenarios.LoopReportsOnlyTheFirstRepeat | deadcond/deadcond.go:318-378 | the loop branching on a call result `a < b` reports exactly block 1, always false |
| Scenarios.EmptyStoreSettlesNothing | deadcond/deadcond.go:356-376 | a store without facts produces no verdict |

## Left out

- Diagnostic text: locating the source file and formatting the condition (`fileByPos`, `PathEnclosingInterval`, `format.Node`, deadcond/deadcond.go:361-373 and 400-407). A report is reduced to the block and the truth value.
- `printValue`, `debugPrint` and `dotPrint` (deadcond/deadcond.go:409-485): debug console output.
- The `Analyzer` registration (deadcond/deadcond.go:18-29), the test harness, and the rest of the repository (`main.go`, `linter.go`, `cmap/cmap.go`, `gcexportdata`). These are framework wiring, I/O and library calls.
- Go map iteration order. `LookupKey`, `NewPreCond` and `MergeParent` choose the next key nondeterministically. Which key `lookup` returns is left unspecified, and so is the order in which one parent's facts are merged. Parents themselves are merged in predecessor order, and a merged fact is never replaced (`Store.MergeParent`), so once an earlier parent's fact is in the fact map, a later parent's clashing offer only adds a conflict. Which of two clashing keys of one parent becomes the fact depends on iteration order. Reports are not proved deterministic.
- Constant values follow the representations of Go's `go/constant` package as far as interface equality sees them. Which representation a literal gets (for example that an integer fits in 64 bits) is taken as given, not derived from its value. Complex constants, whose equality compares their parts' representations in turn, are not modelled.
- Operands of the kinds that are variant in themselves (phi edges, field bases and so on) are not modelled, because the classifier never looks at them. Calls are modelled only as values: `go`/`defer` statements are not values and never reach a branch condition.
- The `parents` field of `PreCond` is not kept. Nothing reads it after construction.
- SSA construction: functions and blocks are given as input. Block references are (function index, block index), and predecessors are indices into the same function.

## Surprising behaviour of the code

The model keeps the code's behaviour in each case. The lemmas named here exhibit it.

- The converse step inverts the stored truth value as well as the query's (deadcond/deadcond.go:295). So `a<b` asserted true settles `a>=b` as true, and `if a < b { if a >= b { … } }` reports the inner condition always true although it can never hold (`ConditionLaws.ConverseKeepsPolarity`, `Scenarios.ContradictedConditionIsReportedTrue`).
- Stripping a stored `!` keeps the truth value (deadcond/deadcond.go:258). So `!x` stored as true settles `x` as true (`ConditionLaws.NotKeepsTruthValue`).
- `lookup` answers an exact key whatever truth value is asked (deadcond/deadcond.go:185-187). Phase two asks `false` first, so branching twice on the very same node is reported always false (`Scenarios.SameNodeIsReportedFalse`).
- The driver puts every `If` predecessor's condition as `true`, also into the block reached on the false edge (deadcond/deadcond.go:333-338). So every stored fact is true (`Driver.BuildStores`), and `false` is reported only for a condition that is itself a key (`Driver.Run`).
- `Put` overwrites the provenance of a condition (deadcond/deadcond.go:154, 161, 165), so a block records each condition with the last predecessor that branches on it (`Driver.SeedFromsLast`). At a loop head entered from an earlier block and from the loop bottom, both branching on the same condition, the head records the condition as coming from the loop bottom. The bottom then skips it as its own, so a repeat at the bottom is not reported (`Scenarios.RunLoop`).
- Subsumption runs from the query: a stored `x<=y` settles a queried `x==y` (deadcond/deadcond.go:280-283). See `ConditionLaws.ImplicationIsOneWay`.
- `NewPreCond` never removes or replaces a fact in the fact map (deadcond/deadcond.go:55-62). A key offered by two parents becomes a conflict (`Store.NewPreCond`), and when the earlier parent's offer became a fact, that fact stays with its value (`Store.MergeParent`, `Store.MergeFact`).
- Constants are compared as `constant.Value` interfaces (deadcond/deadcond.go:311). Non-empty strings, big integers and floating-point values are held behind pointers, so two equal string literals in separate nodes do not match (`Scenarios.SeparateStringConstantsDoNotMatch`), while small integers do (`Scenarios.EqualIntegerConstantsMatch`).
