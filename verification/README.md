# Verification models

Machine-checked models of the compiler and runtime algorithms of this repository whose claims range over all
inputs. `dafny verify dfyconfig.toml` checks the whole project. Integers are mathematical integers.

| component | files |
|---|---|
| Structured pointer analysis: an abstract interpreter from tensor expressions to (source, offsets, strides, sizes, shape) | `Ir`, `Arith`, `Folding`, `PtrStates` (specification), `PtrAnalysis` (the code, in place), `PtrSoundness`, `PtrPlain`, `PtrAccepted`, `Gather`, `PtrRun`, `PtrTile`, `PtrLimits`, `PtrExamples` |
| Loop-carried pointers and the search for them | `LoopPointers`, `LoopExamples`, `Worklist` |
| Mask analysis | `MaskStates`, `MaskAnalysis`, `MaskExact`, `MaskAccepted`, `MaskExamples` |
| Wrap-around splitting | `Wraparound` |
| The kernel language and its two loop compilers | `KernelLang`, `Ssa`, `ScfLowering`, `ScfVector`, `ScfScope`, `ScfCodegen`, `ScfLimits`, `Accepted`, `CfgLowering`, `CfgSound`, `CfgCodegen`, `CfgLimits` |
| Tile packing | `Packing` |
| Strided runtime | `StridedCopy`, `StridedIterator` |
| Remote launcher | `RemoteLaunch` |
| Profiler | `Profiler` |

Code that works by changing things step by step is modelled that way: a class or a method with loops, proved to
leave exactly what a specification function computes. What the source promises is then proved about those
functions.

## How the proofs are organised

**Pointers.** `PtrSoundness.Denote` says what a state means; two invariants that the code relies on without
stating them carry the induction: a unit dimension has stride zero, and an integer tensor with a scalar is constant.
`VisitSound` is the induction over expressions, `RunSound` the induction over rewrites, `LoopCarriedSound` the
induction over iterations, each under the limits of the single operations (`PtrSoundness.Guard`). `PtrPlain.Checked`
replaces these limits by tests on the decoded states, which say nothing about values: `CheckedExactly`,
`PtrRun.CheckedRun` and `LoopPointers.CheckedLoop` are the three inductions under them, `PtrTile` a pointer with a
remainder that passes. Arithmetic without remainders always does (`PlainChecked`; `DecodedExactly`, `PlainRun`,
`PlainLoop`). `PtrLimits` has the exact condition for each limit, and
`PtrExamples` an expression that is accepted beyond it and decoded to another value or address. Two limits ask for
more than is needed: `NoMixedModulo` and `Gather.PlainRemainders` shut out tensors that wrap around beside a gathered
dimension. What happens to them is `PtrLimits.RegatherExact`; in the gathering walk they only arise from a loop that
carries a wrapping tensor of indices (`PtrPlain.NothingMixed`).

What is accepted is stated apart from what it means: `PtrAccepted.Decodable`, `MaskAccepted.KindOf` and
`Accepted.BlockOk` read off an expression or a kernel whether the code takes it, without mentioning states or emitted
code, and `VisitAccepted`, `ParseAccepted` and `BlockAccepted` prove it in both directions. With them the soundness
theorems hold without an "if it succeeds" (`PtrAccepted.DecodedAlways`).

**Loop compilers.** `KernelLang.Exec` is what Python does with assignments, stores and `range` loops that count
upwards. `ScfLowering` and `CfgLowering` give structured SSA and basic blocks a semantics of their own and define
the two translations. `KernelSound` and `KernelC` show that each keeps values and the order of stores,
`LoweringsAgree` that they agree. `ScfScope.BlockScoped` holds for every program. `ScfVector` adds vectors that are
loaded and stored: what a vconfig makes active, and copies up to that length.

**Remote launch.** A kernel is any function of the places its arguments denote (buffer and offset) and of the
contents of those buffers. `PassedArrives` says what arrives, argument by argument, `RunMoved` is the relocation argument, `RpcLauncher.Call` the whole launch.

## Where the code and its intent differ

Each of these is a lemma with the exact condition, or with a concrete input.

- A sum beside a wrapping dimension tests the other operand's offset for zero, not its stride: `PtrLimits.ModuloSumExact`, `PtrExamples.ModuloSumBreaks`.
- A splatted scalar added to a wrapping dimension 0 swaps the two bounds (the code warns of it): `PtrLimits.ModuloSwapExact`, `PtrExamples.ModuloSwapBreaks`.
- Subtracting a gathered operand negates offset and stride, so the sign is lost: `PtrLimits.GatheredSubtractionExact`, `PtrExamples.SubtractionBreaks`.
- Merging a gathered dimension with a moving structured one loses the structured stride: `PtrLimits.GatherMergeExact`, `PtrExamples.MergeBreaks`.
- Merging puts the constant zero stride of a gathered operand back to one. An assertion rules this out, so that the wrong address needs a build without assertions: `PtrLimits.GatherZeroStrideExact`, `PtrExamples.ZeroStrideBreaks`.
- Gathering a tensor again leaves the offsets of its other dimensions in place: `PtrLimits.RegatherExact`, `PtrExamples.RegatherBreaks`.
- A remainder of a rank-2 operand leaves the other dimension outside the modulo: `PtrLimits.RemainderLeftoverExact`, `PtrExamples.RemainderBreaks`. It also keeps the operand's scalar: `PtrLimits.RemainderScalarExact`, `PtrExamples.RemainderScalarBreaks`.
- A make_range of one element is given stride one: `PtrLimits.BroadcastExact`, `PtrExamples.UnitRangeBreaks`, `MaskExact.UnitRangeLimit`.
- A loop-carried tensor of indices keeps the scalar of its initial state: `LoopPointers.StaleScalar`, `LoopExamples.StaleScalarBreaks`.
- Unsigned comparisons are folded, and decoded in masks, as signed ones: `Folding.CompareValue`, `MaskExact.UnsignedBoundLimit`, `MaskExamples.UnsignedBoundBreaks`.
- A constant-false mask, a lower bound on a range that starts below zero, and a broadcast of a masked unit dimension: `MaskExact.ConstantMaskLimit`, `MaskExact.LowerBoundLimit`, `MaskExact.BroadcastMaskLimit`, `MaskExamples.LowerBoundBreaks`, `MaskExamples.BroadcastMaskBreaks`.
- The conjunction with a constant mask takes the size of dimension 0 as the bound of every dimension: `MaskExact.ConstantConjunctionLimit`, `MaskExamples.ConstantConjunctionBreaks`.
- The first of the two stacked casts always reaches to the last row of the tensor, which is more than the tile when that ends earlier; without a mask nothing clips it: `Wraparound.StackedCastsExact`.
- Wrap-around chunks are right up to 2N - c0 columns (2M - row0 rows), and the truncated remainder needs a target that is not negative: `Wraparound.SideBySideExact`, `Wraparound.StackedExact`, `Wraparound.TargetColumn`.
- The lowering of structured pointers to memrefs makes no chunks: `createSideBySideCastOps` and `createStackedCastOps` of `StructuredToMemref.cpp` are not called, and `rewriteSplitPtr`, a stopgap by its own comment, casts the tile in one piece, which is right exactly for tiles that do not wrap around: `Wraparound.SplitColumnsExact`, `Wraparound.SplitRowsExact`.
- An iterator stands at its end when its offset is -1, so a traversal stops early when an element lies there, and does not stop before the first element of an empty shape unless that has offset -1: `StridedIterator.TraversalExact`, `StridedIterator.EmptyNeverEnds`.
- An outer variable that only a nested loop assigns is not carried by either lowering: `ScfLimits.NestedOnlyExact`, `ScfLimits.NestedCounterExact`, `CfgLimits.NestedOnlyC`, `CfgLimits.NestedCounterC`.
- A literal vconfig length between one register and the whole vector activates the whole vector: `ScfVector.TailLengthExact`. The result of a vconfig cannot be read under a name that is bound to a value already: `ScfVector.VconfigTarget`.
- In the control-flow lowering the loop variable stays bound behind its loop to the value that ended it: `CfgLimits.LoopVariableBehind`.
- A bare pointer argument is only relocated when a tensor with that data_ptr comes before it, and goes where the last such tensor went: `RemoteLaunch.RawAddressExact`, `RemoteLaunch.RawAddressBreaks`, `RemoteLaunch.NullPointerBreaks`.
- Padding with k_real = 0 clamps every load to index -1: `Packing.ClampInBounds`.

## Model

| member | source | states |
|---|---|---|
| `PtrPlain.DecodedExactly` | lib/AnalysisStructured/PtrAnalysis.cpp:1330-1458 | For every expression of make_range (two elements or more), splat, constants, expand_dims, broadcast, add, subtract, multiply and addptr: a structured state found by visitOperand gives source + sum of offsets[i] + x[i] * strides[i] equal to the expression at every multi-index x |
| `PtrAccepted.VisitAccepted` | lib/AnalysisStructured/PtrAnalysis.cpp:1330-1458 | Without remainders and undecoded tensors, visitOperand succeeds if and only if every product has a uniform factor, on either side, and every loop argument is recorded; it then finds a structured state of the shape of the expression without wrap-around bounds, a scalar exactly in the uniform expressions, and keeps the offsets of the base of an addptr, otherwise its own, as original ones |
| `PtrAccepted.DecodedAlways` | lib/AnalysisStructured/PtrAnalysis.cpp:1330-1458 | So for these expressions a structured state is found, and source + sum of offsets[i] + x[i] * strides[i] is the expression at every index, with no proviso that the analysis succeeds |
| `PtrAccepted.VectorAccepted` | lib/AnalysisStructured/PtrAnalysis.cpp:1330-1458 | With gathering enabled, both walks over integer vectors, remainders and undecoded tensors included, succeed if and only if every product has a uniform factor and, in the first walk, every remainder a uniform divisor |
| `PtrAccepted.FactorsSwap` | lib/AnalysisStructured/PtrAnalysis.cpp:478-481 | A product is accepted if and only if it is with its factors exchanged |
| `PtrAccepted.FactorAccepted` | lib/AnalysisStructured/PtrAnalysis.cpp:454-539 | A scalar factor that does not wrap is accepted in front of and behind any tensor of its rank, wrapping or gathered |
| `PtrAccepted.WrappingSumAccepted` | lib/AnalysisStructured/PtrAnalysis.cpp:191-415 | Structured operands that pass the tests on decoded states are added, with the wrapping one on either side |
| `PtrAccepted.RemainderAccepted` | lib/AnalysisStructured/PtrAnalysis.cpp:848-894 | A remainder of a structured operand without bounds is accepted if and only if that is a vector, or a row or column of rank two |
| `PtrAccepted.MixedGathered` | lib/AnalysisStructured/PtrAnalysis.cpp:166-190 | A wrapping operand beside a gathered one is gathered in the same dimension, exactly where gathering is enabled |
| `PtrAccepted.SumRefused` | lib/AnalysisStructured/PtrAnalysis.cpp:191-222 | Two pointers, two wrapping operands, different ranks, or two gathered dimensions are refused |
| `PtrAccepted.WrappingSumRefused` | lib/AnalysisStructured/PtrAnalysis.cpp:342-413 | So is an offset beside a wrapping dimension, unless the swap of the two bounds applies |
| `PtrAccepted.WrappingVectorRefused` | lib/AnalysisStructured/PtrAnalysis.cpp:671-707 | A wrapping vector is not added to anything |
| `PtrAccepted.ProductRefused` | lib/AnalysisStructured/PtrAnalysis.cpp:454-496 | So are products of two pointers, without a scalar factor, or with a factor that wraps |
| `PtrAccepted.ExpandRefused` | lib/AnalysisStructured/PtrAnalysis.cpp:946-978 | So is expand_dims of a state of two or more dimensions that wraps around |
| `PtrAccepted.SplatRefused` | lib/AnalysisStructured/PtrAnalysis.cpp:1017-1055 | So is a splat of a state that wraps around to more than two dimensions |
| `PtrAccepted.RemainderRefused` | lib/AnalysisStructured/PtrAnalysis.cpp:848-896 | So are remainders of more than two dimensions, and second remainders that cannot be gathered |
| `PtrSoundness.VisitSound` | lib/AnalysisStructured/PtrAnalysis.cpp:1330-1458 | Soundness of visitOperand in both modes, with remainders, gathered operands and recorded pointers: the state denotes the expression at every index, a unit dimension does not move, and an integer tensor with a scalar is constant. Each operation must be within its limit (`Guard`); the limits are the subject of PtrLimits |
| `PtrSoundness.PointerScalars` | lib/AnalysisStructured/PtrAnalysis.cpp:1330-1458 | A decoded pointer with a scalar is that one pointer at every index, as long as the recorded ones are |
| `PtrPlain.WithinLimits` | lib/AnalysisStructured/PtrAnalysis.cpp:925-1132 | Without remainders and one-element ranges every limit of the analysis is met |
| `PtrPlain.CheckedExactly` | lib/AnalysisStructured/PtrAnalysis.cpp:1330-1458 | For every expression, remainders included, whose states found on the way pass `Checked` (constant zeros beside a wrapping dimension and in the other dimension of a remainder): a structured state denotes the expression at every index, whatever the values |
| `PtrPlain.CheckedWithin` | lib/AnalysisStructured/PtrAnalysis.cpp:342-413 | Tests on the decoded states alone imply every limit of both walks, in every environment |
| `PtrPlain.PlainChecked` | lib/AnalysisStructured/PtrAnalysis.cpp:925-1132 | Without remainders and one-element ranges these tests always succeed |
| `PtrTile.TileDecoded` | lib/AnalysisStructured/PtrAnalysis.cpp:653-896 | base + (range % bound)[:, None] * stride + range[None, :] is decoded at every element for every bound and stride |
| `PtrPlain.StaysUnwrapped` | lib/AnalysisStructured/PtrAnalysis.cpp:342-413 | Without remainders, and in the whole gathering walk, no dimension ever gets a wrap-around bound |
| `PtrPlain.NothingMixed` | lib/AnalysisStructured/PtrAnalysis.cpp:671-699 | So the gathering walk never meets an operand that wraps around beside a gathered one, unless a loop carries a tensor of indices that wraps around |
| `PtrSoundness.AddStateDenotes` | lib/AnalysisStructured/PtrAnalysis.cpp:191-415 | A successful addState denotes the sum of its operands at every index, wrapped and gathered dimensions included, within `AddGuard` (beyond it: PtrLimits.ModuloSumExact, PtrLimits.ModuloSwapExact) |
| `PtrSoundness.MergeScaledValue` | lib/AnalysisStructured/PtrAnalysis.cpp:223-340 | Whichever branch of the gathered merge is taken (equal strides, equal offsets, neither), merged offset times stride is the sum of both contributions |
| `PtrSoundness.MergeDimValue` | lib/AnalysisStructured/PtrAnalysis.cpp:223-340 | The same with the zero-operand shortcut, when a structured operand has a zero stride and a gathered one has none (the other cases: PtrLimits.GatherMergeExact, PtrLimits.GatherZeroStrideExact) |
| `PtrSoundness.AddShapesAt` | lib/AnalysisStructured/PtrAnalysis.cpp:342-413 | The bounds of a sum are those of the operand that wraps around, dimension by dimension, where the code does not swap them (where it does: PtrLimits.ModuloSwapExact) |
| `PtrSoundness.MulStateDenotes` | lib/AnalysisStructured/PtrAnalysis.cpp:454-539 | A successful mulState denotes the product in every dimension, wrapping and gathered ones included (when it succeeds: PtrAccepted.FactorAccepted, PtrAccepted.ProductRefused) |
| `PtrSoundness.NegStateDenotes` | lib/AnalysisStructured/PtrAnalysis.cpp:720-740 | The state that subtraction adds denotes the negated operand, wrap-around included |
| `PtrSoundness.RemStateDenotes` | lib/AnalysisStructured/PtrAnalysis.cpp:848-894 | A remainder kept as a bound denotes the truncated remainder of the operand, provided the other dimension contributes nothing |
| `PtrSoundness.UnsupportedDenotes` | lib/AnalysisStructured/PtrAnalysis.cpp:131-164 | A gathered tensor is found again in its single non-unit dimension |
| `PtrSoundness.ExpandDenotes` | lib/AnalysisStructured/PtrAnalysis.cpp:946-978 | expand_dims inserts a dimension that contributes nothing |
| `PtrSoundness.BroadcastDenotes` | lib/AnalysisStructured/PtrAnalysis.cpp:980-1015 | broadcast is right because a unit dimension has stride zero |
| `PtrSoundness.SplatDenotes` | lib/AnalysisStructured/PtrAnalysis.cpp:1017-1055 | A splat puts its scalar in the first offset and never moves |
| `Analysis.PtrState.AddState` | lib/AnalysisStructured/PtrAnalysis.cpp:191-415 | Pushing one dimension at a time builds exactly the state of PtrStates.AddState, and fails exactly where it does |
| `Analysis.PtrState.PushBounds` | lib/AnalysisStructured/PtrAnalysis.cpp:342-413 | The in-place loop over the wrap-around bounds, with its early exits |
| `Analysis.PtrState.MulState` | lib/AnalysisStructured/PtrAnalysis.cpp:454-539 | The swap that puts the scalar on the right, then one scaled dimension at a time: exactly PtrStates.MulState, which accepts a factor on either side (PtrAccepted.FactorAccepted) |
| `Analysis.PtrState.Negate` | lib/AnalysisStructured/PtrAnalysis.cpp:720-740 | The loop that negates offsets and strides for a subtraction |
| `Analysis.PtrState.Splat` | lib/AnalysisStructured/PtrAnalysis.cpp:1017-1055 | Pushing splatted dimensions and storing the scalar in the first one |
| `Analysis.PtrState.BroadcastSizes` | lib/AnalysisStructured/PtrAnalysis.cpp:980-1015 | Stretching the unit dimensions in place |
| `Analysis.PtrAnalysis.VisitOperand` | lib/AnalysisStructured/PtrAnalysis.cpp:1330-1458 | The dispatch fills the state with exactly what the specification function computes, and fails exactly where it does |
| `Analysis.PtrAnalysis.GatherOperands` | lib/AnalysisStructured/PtrAnalysis.cpp:671-699 | A wrapping operand beside a gathered one is gathered too, in place |
| `Analysis.PtrAnalysis.RewriteAddptrOp` | lib/AnalysisStructured/PtrAnalysis.cpp:1460-1516 | The record of decoded pointers and the map of new pointers after rewriting one addptr, on every exit (what they have to hold: PtrRun.RewriteSound) |
| `Analysis.PtrAnalysis.RewriteGatheredOp` | lib/AnalysisStructured/PtrAnalysis.cpp:1475-1506 | The second visit in the other mode, and the merge |
| `PtrRun.RewriteSound` | lib/AnalysisStructured/PtrAnalysis.cpp:1460-1516 | One rewrite succeeds if and only if the first walk does and the pointer is a scalar or structured, or it is gathered, has two or more dimensions and the second walk succeeds. It then records the pointer; a scalar one is mapped to itself, for a tensor there is a new structured pointer, which is the pointer it replaces, gathered ones included. The record stays sound either way |
| `PtrRun.RewriteRecords` | lib/AnalysisStructured/PtrAnalysis.cpp:1460-1516 | The record keeps its entries, and gets the one more exactly when the first walk succeeds, even where the rewrite then fails |
| `PtrRun.MergeAccepted` | lib/AnalysisStructured/PtrAnalysis.cpp:541-566 | The states of two walks that agree are always merged |
| `PtrRun.RunSound` | lib/AnalysisStructured/PtrAnalysis.cpp:1460-1516 | Over any number of rewrites: everything recorded stays sound, exactly the operations whose rewrite succeeds are mapped, tensors each to a new structured pointer, and every new pointer is the one it replaces |
| `PtrRun.CheckedRun` | lib/AnalysisStructured/PtrAnalysis.cpp:1460-1516 | For any run from any sound record, remainders included, whose operations pass tests on decoded states alone: everything recorded stays sound, and exactly the operations whose rewrite succeeds get a new pointer, which is the one they replace |
| `PtrRun.PlainRun` | lib/AnalysisStructured/PtrAnalysis.cpp:1460-1516 | Pointer arithmetic without remainders passes these tests: from any sound record in which nothing wraps around, every operation whose rewrite succeeds gets a new pointer, gathered ones included, which is the one it replaces |
| `PtrRun.GatherWithin` | lib/AnalysisStructured/PtrAnalysis.cpp:1475-1506 | Without remainders the gathering walk is within its limits whenever nothing that moves is added to a gathered dimension and nothing gathered is subtracted |
| `Gather.ModesAgree` | lib/AnalysisStructured/PtrAnalysis.cpp:1475-1506 | The structured and the gathering walk over one expression agree on every dimension that is structured |
| `Gather.MergedSound` | lib/AnalysisStructured/PtrAnalysis.cpp:541-566 | mergeUnstructuredState of the two walks denotes the original address |
| `PtrLimits.ModuloSumExact` | lib/AnalysisStructured/PtrAnalysis.cpp:342-413 | Adding beside a wrapping dimension is right for every such dimension exactly when the added stride is zero; the code tests the offset only |
| `PtrExamples.ModuloSumBreaks` | lib/AnalysisStructured/PtrAnalysis.cpp:342-413 | A sum that the analysis accepts and decodes to another value |
| `PtrLimits.ModuloSwapExact` | lib/AnalysisStructured/PtrAnalysis.cpp:342-413 | Adding a splatted scalar to a wrapping dimension 0 swaps the two bounds, which is right for every bound exactly where both dimensions contribute the same |
| `PtrExamples.ModuloSwapBreaks` | lib/AnalysisStructured/PtrAnalysis.cpp:342-413 | Such a sum, accepted and decoded to another value |
| `PtrLimits.GatheredSubtractionExact` | lib/AnalysisStructured/PtrAnalysis.cpp:720-740 | For states of any rank: what subtraction adds stands for the negated operand exactly where the gathered dimensions contribute nothing; structured ones are negated |
| `PtrExamples.SubtractionBreaks` | lib/AnalysisStructured/PtrAnalysis.cpp:720-740 | range[:, None] - indices[None, :] in a rewritten pointer adds the indices |
| `PtrLimits.GatherMergeExact` | lib/AnalysisStructured/PtrAnalysis.cpp:223-340 | Merging a structured dimension into a gathered one that moves is right for every such partner exactly when the structured one has constant zero stride, or contributes nothing |
| `PtrExamples.MergeBreaks` | lib/AnalysisStructured/PtrAnalysis.cpp:223-340 | range + indices as the rows of a rewritten pointer loses the range |
| `PtrLimits.GatherZeroStrideExact` | lib/AnalysisStructured/PtrAnalysis.cpp:223-340 | A gathered operand with a constant zero stride stands for zero; merged with a partner that is not a constant zero it is right exactly where its tensor is zero |
| `PtrExamples.ZeroStrideBreaks` | lib/AnalysisStructured/PtrAnalysis.cpp:223-340 | indices * 0 + more as the rows of a rewritten pointer adds the indices, in a build without assertions |
| `PtrLimits.RegatherExact` | lib/AnalysisStructured/PtrAnalysis.cpp:166-190 | Gathering a tensor again is right exactly when the dimensions that do not move contribute nothing, with or without a bound |
| `PtrExamples.RegatherBreaks` | lib/AnalysisStructured/PtrAnalysis.cpp:848-894 | (splat(n) + range[None, :]) % splat(m) gathered in a rewritten pointer adds n once more |
| `PtrLimits.RemainderLeftoverExact` | lib/AnalysisStructured/PtrAnalysis.cpp:848-894 | A remainder of a rank-2 operand is right for every modulus exactly when the other dimension contributes zero |
| `PtrExamples.RemainderBreaks` | lib/AnalysisStructured/PtrAnalysis.cpp:848-894 | (splat(5) + range[None, :]) % splat(3) is accepted; element 1 is 0 and decoded to 6 |
| `PtrLimits.RemainderScalarExact` | lib/AnalysisStructured/PtrAnalysis.cpp:792-896 | A remainder keeps the scalar of its operand; that is right exactly when the remainder leaves the scalar unchanged |
| `PtrExamples.RemainderScalarBreaks` | lib/AnalysisStructured/PtrAnalysis.cpp:792-896 | range(0, 2) * (splat(5) % splat(3)) is accepted and multiplied by five |
| `PtrLimits.BroadcastExact` | lib/AnalysisStructured/PtrAnalysis.cpp:980-1015 | A broadcast state is right exactly when the stretched dimensions have stride zero |
| `PtrExamples.UnitRangeBreaks` | lib/AnalysisStructured/PtrAnalysis.cpp:925-944 | A broadcast make_range of one element is decoded as if it moved |
| `LoopPointers.RewriteGetStructuredState` | lib/AnalysisStructured/PtrAnalysis.cpp:1809-1893 | The values handed to the loop are the flattened offsets, original offsets and strides, in order |
| `LoopPointers.ScalarCarried` | lib/AnalysisStructured/PtrAnalysis.cpp:1809-1893 | A scalar pointer is handed to a loop as two values, each of which is its offset from the base |
| `LoopPointers.ReconcileLoopPtrState` | lib/AnalysisStructured/PtrAnalysis.cpp:1660-1683 | Rebuilding a state from the carried values, cursor by cursor |
| `LoopPointers.CarrySound` | lib/AnalysisStructured/PtrAnalysis.cpp:1660-1683 | A flattened state that is carried into the next world, with its wrap-around bounds, denotes the pointer it was taken from |
| `LoopPointers.LoopCarriedSound` | lib/AnalysisStructured/PtrAnalysis.cpp:1603-1716 | For every trip count, at every iteration the state rebuilt from the iter-args denotes the pointer (wrapping or not) or tensor of indices that the loop carries |
| `LoopPointers.PlainLoop` | lib/AnalysisStructured/PtrAnalysis.cpp:1603-1716 | A body without remainders that advances a carried pointer carries it soundly through every iteration |
| `LoopPointers.AdvanceAccepted` | lib/AnalysisStructured/PtrAnalysis.cpp:1603-1683 | A loop body that advances the carried pointer by offsets without remainders and undecoded tensors is decoded if and only if the offsets are; it then has a state of the kind that is carried, with the carried offsets as original ones |
| `LoopPointers.CheckedLoop` | lib/AnalysisStructured/PtrAnalysis.cpp:1603-1716 | A body that passes the tests on decoded states carries the pointer soundly through every iteration, remainders included |
| `LoopPointers.CheckedLoopResult` | lib/AnalysisStructured/PtrAnalysis.cpp:1702-1716 | The same for the result of the loop |
| `LoopPointers.LoopResultSound` | lib/AnalysisStructured/PtrAnalysis.cpp:1702-1716 | After the loop the state given to its result denotes the pointer it leaves with |
| `LoopPointers.StaleScalar` | lib/AnalysisStructured/PtrAnalysis.cpp:1660-1683 | The rebuilt state keeps the scalar of the initial one, so it stands for a constant tensor exactly while the carried value has not changed |
| `LoopExamples.StaleScalarBreaks` | lib/AnalysisStructured/PtrAnalysis.cpp:1660-1683 | idx = splat(0); each iteration uses range(0, 2) * idx and sets idx = idx + splat(1): accepted, and the product is decoded to zero in every iteration |
| `LoopExamples.CounterRuns` | lib/AnalysisStructured/PtrAnalysis.cpp:1603-1716 | This loop runs for any number of iterations |
| `Worklist.InitializeMaybeStructuredArgs` | lib/AnalysisStructured/PtrAnalysis.cpp:2149-2201 | On any use graph, cycles included, the search ends with exactly the values reachable in one or more steps |
| `Worklist.Graph.NeighborsAreLed` | lib/AnalysisStructured/PtrAnalysis.cpp:2159-2200 | The values an operation passes the search on to: iter-arg and tied result of every init that is this value, or results of the same type |
| `Folding.FoldersPreserveValue` | lib/Analysis/OpFoldResultUtils.cpp:207-400 | add, sub, mul, min and max folders denote their operation whichever shortcut they take, in every environment |
| `Folding.NothingNeedless` | lib/Analysis/OpFoldResultUtils.cpp:207-477 | Constants are folded, zero and one absorbed, and a result is a constant only where both operands are, or a factor is zero |
| `Folding.CompareValue` | lib/Analysis/OpFoldResultUtils.cpp:409-477 | For all ten predicates a folded comparison has the value of the branch it should select exactly when the operands may be compared as signed numbers, or the branches are equal |
| `Folding.PeelTrivialIndexExpr` | lib/Analysis/OpFoldResultUtils.cpp:535-544 | The loop strips exactly the index casts |
| `Folding.SameOFRSound` | lib/Analysis/OpFoldResultUtils.cpp:546-603 | sameOFR implies equal values in every environment |
| `Folding.SameOFREquivalence` | lib/Analysis/OpFoldResultUtils.cpp:546-603 | sameOFR is reflexive, symmetric and transitive |
| `Folding.SameOFRCongruence` | lib/Analysis/OpFoldResultUtils.cpp:534-579 | It looks through index casts, also inside of minima and differences, and takes the operands of a minimum in either order |
| `Folding.ConstantsSame` | lib/Analysis/OpFoldResultUtils.cpp:581-603 | An attribute equals a value exactly when a constant op with its number does, on either side |
| `Folding.CommutedMinimum` | lib/Analysis/OpFoldResultUtils.cpp:548-555 | minsi with swapped operands is the same value, subi is not |
| `MaskAnalysis.MaskState.ParseMask` | lib/Analysis/MaskAnalysis.cpp:30-57 | The in-place parser leaves exactly the state of the specification, and fails exactly where it does |
| `MaskAnalysis.MaskState.MinStatesInto` | lib/Analysis/MaskAnalysis.cpp:244-260 | The element-wise minimum of two masks, dimension by dimension |
| `MaskAccepted.ParseAccepted` | lib/Analysis/MaskAnalysis.cpp:30-57 | An expression is parsed if and only if it has a kind, read off the expression: one number, a shifted range, or a mask. Comparisons below a number (signed or unsigned) have one along at most one moving dimension, comparisons at or above a literal zero along exactly one; constant i1 tensors have none |
| `MaskExact.ConstantConjunctionLimit` | lib/Analysis/MaskAnalysis.cpp:215-241 | The conjunction of an exactly parsed mask with a constant i1 tensor, on either side, cuts every bound off at the size of dimension 0: it is exact if and only if the mask is empty, or the constant is true and no bound exceeds that size |
| `MaskExact.ParseExact` | lib/Analysis/MaskAnalysis.cpp:315-447 | If a mask parses, element x is enabled exactly when x[i] < dims[i] in every dimension, and every bound lies between zero and the size |
| `MaskExact.CmpExact` | lib/Analysis/MaskAnalysis.cpp:354-447 | A comparison of a range along the one non-unit dimension with a scalar is exact |
| `MaskExact.AndExact` | lib/Analysis/MaskAnalysis.cpp:330-346 | The conjunction of two rectangular masks is the rectangle of the minima |
| `MaskExact.BroadcastMaskLimit` | lib/Analysis/MaskAnalysis.cpp:565-598 | Broadcasting a mask is exact exactly when the stretched dimensions are all enabled or the mask is empty either way |
| `MaskExact.BroadcastParseLimit` | lib/Analysis/MaskAnalysis.cpp:565-598 | So for every mask that is parsed exactly: its broadcast is accepted, and parsed exactly just under this condition |
| `MaskExact.ConstantMaskLimit` | lib/Analysis/MaskAnalysis.cpp:262-293 | A constant i1 tensor is exact exactly when the constant is true |
| `MaskExact.LowerBoundLimit` | lib/Analysis/MaskAnalysis.cpp:393-447 | A lower-bound comparison is exact exactly when the range starts at zero or above |
| `MaskExact.UnsignedBoundLimit` | lib/Analysis/MaskAnalysis.cpp:354-447 | An unsigned upper bound is exact exactly when the range and the bound are all negative or none is |
| `MaskExact.UnitRangeLimit` | lib/Analysis/MaskAnalysis.cpp:393-447 | A comparison of a one-element range is exact exactly when it is true |
| `MaskExamples.LowerBoundBreaks` | lib/Analysis/MaskAnalysis.cpp:393-447 | range(0, 4) - 1 >= 0 is accepted and parsed to all four elements |
| `MaskExamples.UnsignedBoundBreaks` | lib/Analysis/MaskAnalysis.cpp:354-447 | range(0, 4) - 1 < 2, unsigned, is accepted and parsed as if it held at -1 |
| `MaskExamples.ConstantConjunctionBreaks` | lib/Analysis/MaskAnalysis.cpp:215-241 | A splatted condition in conjunction with a constant true, of shape 2 x 4, is accepted and parsed without the last two columns, which is right exactly when it does not hold |
| `MaskExamples.BroadcastMaskBreaks` | lib/Analysis/MaskAnalysis.cpp:565-598 | A splatted condition of one element, broadcast to two or more, is accepted and parsed to all of them, which is right exactly when it holds |
| `Wraparound.AccumulateTargetOffset` | lib/Analysis/PtrAnalysis.cpp:51-59 | The loop adds up the offsets, in every environment |
| `Wraparound.SideBySideCastsExact` | lib/Analysis/PtrAnalysis.cpp:242-328 | The side-by-side casts themselves have the rows of the tile and share its columns, neither width negative; every element of the unmasked tile lies inside its own cast, at its wrapped column if and only if the tile is at most 2N - c0 wide |
| `Wraparound.StackedCastsExact` | lib/Analysis/PtrAnalysis.cpp:149-239 | The stacked casts have the columns of the tile and rows that add up to its own; the first one fits into the tile if and only if the tile reaches the last row of the tensor, and then every element lies at its wrapped row if and only if the tile is at most 2M - row0 high |
| `Wraparound.SideBySideExact` | lib/Analysis/PtrAnalysis.cpp:242-328 | Clipped to the mask, the two side-by-side chunks address element (r, c) at row + (c0 + c) mod N for the whole masked tile exactly when the tile is at most 2N - c0 wide, which a tile of at most N columns is |
| `Wraparound.SideBySidePartition` | lib/Analysis/MaskAnalysis.cpp:148-166 | The two subviews cover the masked tile without gap or overlap |
| `Wraparound.StackedExact` | lib/Analysis/PtrAnalysis.cpp:149-239 | The two stacked chunks address the rows modulo M for the whole masked tile exactly when it is at most 2M - row0 high, whether or not it wraps |
| `Wraparound.StackedPartition` | lib/Analysis/MaskAnalysis.cpp:168-185 | The two subviews cover the masked rows without gap or overlap, also when the first chunk is taller than the tile |
| `Wraparound.TargetColumn` | lib/Analysis/PtrAnalysis.cpp:242-328 | The column found by the remainder is c0 exactly for a target that is not negative, or c0 = 0 |
| `Wraparound.SideBySideState` | lib/Analysis/PtrAnalysis.cpp:242-328 | The side-by-side chunks of a decoded pointer address what its state denotes |
| `Wraparound.StackedState` | lib/Conversion/StructuredToMemref/StructuredToMemref.cpp:453-556 | The stacked chunks of a decoded pointer, whose bound is in scaled rows, address what its state denotes |
| `Wraparound.SplitColumnsExact` | lib/Conversion/StructuredToMemref/StructuredToMemref.cpp:558-588 | The single cast that is made instead addresses what a state with wrapping columns denotes exactly when the tile ends in front of the bound |
| `Wraparound.SplitRowsExact` | lib/Conversion/StructuredToMemref/StructuredToMemref.cpp:558-588 | The same for wrapping rows |
| `ScfLowering.BlockSound` | language/smt_rvisa/codegen.py:437-499 | Translated statements leave the variables with the Python values and make the same stores in the same order |
| `ScfLowering.KernelSound` | language/smt_rvisa/codegen.py:389-407 | The same for whole kernels, from parameters to the last store |
| `ScfLowering.LoopSound` | language/smt_rvisa/codegen.py:437-499 | Iteration by iteration the iter-args hold the carried variables |
| `Ssa.ExprSound` | language/smt_rvisa/codegen.py:523-565 | Translated expressions never read an undefined name and leave the value of the expression |
| `ScfVector.VconfigLength` | language/smt_rvisa/codegen.py:681-696 | Behind a vconfig with a computed length the vector length is 64 * lmul, and running the emitted code leaves the smaller of that and the requested length in the value that is the active valid length |
| `ScfVector.VconfigFull` | language/smt_rvisa/codegen.py:681-693 | A literal of 64 or more, or a negative one, emits nothing and makes 64 * lmul elements active without a valid length |
| `ScfVector.VconfigTarget` | language/smt_rvisa/codegen.py:540-552 | Reading the result of a vconfig afterwards gives 64 * lmul if and only if no value is bound to its name, or that one happens to be this number |
| `ScfVector.LoopRestoresLength` | language/smt_rvisa/codegen.py:478-499 | Behind a loop vector length and valid length are those in front of it |
| `ScfVector.CopySound` | language/smt_rvisa/codegen.py:1159-1202 | vstore(to, i, vload(from, j)) stores exactly the elements below the active valid length, or the whole vector when there is none, each with the value that was read |
| `ScfVector.TailCopySound` | language/smt_rvisa/codegen.py:681-696 | Behind a vconfig such a copy has as many elements as were asked for, at most 64 * lmul |
| `ScfVector.TailLengthExact` | language/smt_rvisa/codegen.py:684-693 | For a length that fits into the vector these are the requested ones, except for literals from 64 up to 64 * lmul, which copy the whole vector |
| `ScfVector.StripCopies` | language/smt_rvisa/codegen.py:437-499 | A copy in strips of 64 * lmul, with the rest as length, stores exactly the elements 0 .. n - 1, each once and in order, for every n and vector length |
| `Accepted.BlockAccepted` | language/smt_rvisa/codegen.py:400-407 | A kernel is translated if and only if every name is known where it is read and every vector operation follows a vconfig; the names and the vector length known behind it are those it binds and configures itself, a result of a vconfig also when it stands in a loop |
| `Accepted.BlockAcceptedC` | language/smt_rvisa/llvm_direct.py:224-248 | The control-flow form accepts a kernel if and only if every name is known where it is read and no vectors occur; what a loop binds stays known |
| `ScfScope.BlockScoped` | language/smt_rvisa/codegen.py:426-499 | For every program, vconfig included: every emitted operand is defined earlier in its region or in an enclosing one, all values defined in any region are numbered upwards in the order of the text, so that none is defined twice, and all that the builder remembers stays visible |
| `ScfScope.VconfigScoped` | language/smt_rvisa/codegen.py:681-696 | The active valid length is visible where it has been set (its value: ScfVector.VconfigLength) |
| `ScfScope.LoopScoped` | language/smt_rvisa/codegen.py:455-499 | A loop hands out only its results; its body sees what surrounds it |
| `ScfLimits.NestedOnlyExact` | language/smt_rvisa/codegen.py:55-63 | After a loop, an outer variable that its body does not assign directly has the Python value exactly when the Python loop left it unchanged |
| `ScfLimits.NestedCounterExact` | language/smt_rvisa/codegen.py:452-455 | Two nested counting loops: Python ends at n * n more, the translation at the initial value; they agree exactly for n = 0 |
| `KernelLang.FindReassigned` | language/smt_rvisa/codegen.py:55-63 | The direct scan returns exactly the outer names that the statements of the body themselves assign, a vconfig result included, once each |
| `ScfLowering.IterNames` | language/smt_rvisa/codegen.py:452-455 | The iter-args are those names, sorted |
| `KernelLang.ExecFrame` | language/smt_rvisa/codegen.py:437-499 | Running statements changes only names they may bind |
| `ScfCodegen.SmtMLIRBuilderCodegen.GenStmt` | language/smt_rvisa/codegen.py:414-435 | The visitor updates environment and region exactly as the translation function says |
| `ScfCodegen.SmtMLIRBuilderCodegen.CreateFor` | language/smt_rvisa/codegen.py:452-499 | Snapshot, region, restore and rebinding of the results |
| `ScfCodegen.SmtMLIRBuilderCodegen.ApplyVconfig` | language/smt_rvisa/codegen.py:681-696 | The three branches of vconfig; the new vector length is active before the length expression is evaluated (what is active then: ScfVector.VconfigLength, ScfVector.VconfigFull) |
| `ScfCodegen.SmtMLIRBuilderCodegen.FindReassignedNames` | language/smt_rvisa/codegen.py:55-63 | The scan as a loop |
| `CfgSound.BlockC` | language/smt_rvisa/llvm_direct.py:237-314 | Running the blocks of translated statements, nested loops included, reaches their end with the Python values and stores |
| `CfgSound.KernelC` | language/smt_rvisa/llvm_direct.py:224-232 | A translated function comes to its return with the Python values and stores, whatever globals its module has |
| `CfgSound.LoopC` | language/smt_rvisa/llvm_direct.py:251-314 | Around the back edge the header arguments hold the induction variable and the carried names |
| `CfgSound.LoweringsAgree` | language/smt_rvisa/llvm_direct.py:251-314 | The structured and the control-flow translation of one kernel make the same stores and give the same values |
| `CfgLimits.LoopVariableBehind` | language/smt_rvisa/llvm_direct.py:292-314 | Behind its loop the loop variable is bound to a value above the Python one, whenever the loop has run |
| `CfgLimits.NestedOnlyC` | language/smt_rvisa/llvm_direct.py:273-314 | A loop whose body runs faithfully makes exactly the stores, and leaves the values, of the Python loop in which every name that only inner loops assign is set back at the start of each iteration |
| `CfgLimits.NestedCounterC` | language/smt_rvisa/llvm_direct.py:273-314 | Two nested counting loops, the counter stored after each round: Python stores n, 2n, 3n and so on more, the blocks n more each time, since every outer iteration starts the counter over; the stores agree exactly for n <= 1 |
| `CfgCodegen.LLVMDirectCodegen.GenStmt` | language/smt_rvisa/llvm_direct.py:237-248 | The visitor updates environment and blocks exactly as the translation function says |
| `CfgCodegen.LLVMDirectCodegen.EnterLoop` | language/smt_rvisa/llvm_direct.py:282-301 | Header, body and exit blocks, and the names bound to the header arguments |
| `CfgCodegen.LLVMDirectCodegen.LeaveLoop` | language/smt_rvisa/llvm_direct.py:303-314 | The back edge and the exit block |
| `Packing.Pack` | language/smt_rvisa/codegen.py:1362-1406 | dst block kb, row r holds elements kb*VL .. of source row row0 + r, zero behind the end of the row; nothing else changes |
| `Packing.Spread` | language/smt_rvisa/codegen.py:1300-1356 | Element (i, b, k) of the scratch buffer is source element i*k + j, or zero behind k_real |
| `Packing.CollapsedColumn` | language/smt_rvisa/codegen.py:1354-1356 | Collapsing puts it in column b*k + j |
| `Packing.ClampInBounds` | language/smt_rvisa/codegen.py:1338-1343 | Clamped loads stay in bounds exactly when k_real is at least one |
| `StridedCopy.MemrefCopy` | backend/include/ExecutionEngine/CRunnerUtils.cpp:58-113 | For any rank, sizes, strides and element size: exactly one copy per element, every destination element equals its source element, no other byte changes |
| `StridedCopy.CopyElements` | backend/include/ExecutionEngine/CRunnerUtils.cpp:78-113 | The odometer loop visits every element once, with read and write positions equal to the closed form |
| `StridedCopy.Advance` | backend/include/ExecutionEngine/CRunnerUtils.cpp:94-111 | One step of the odometer, carries included, moves to the next index and keeps both positions in closed form |
| `StridedCopy.OrdinalInjective` | backend/include/ExecutionEngine/CRunnerUtils.cpp:78-112 | Distinct indices have distinct ordinals |
| `StridedIterator.Subscript` | backend/include/ExecutionEngine/CRunnerUtils.h:336-352 | operator[] computes the closed-form position |
| `StridedIterator.SlicePosition` | backend/include/ExecutionEngine/CRunnerUtils.h:355-365 | Slicing one dimension off and subscripting the rest is the same position |
| `StridedIterator.MemRefIterator.Next` | backend/include/ExecutionEngine/CRunnerUtils.h:388-411 | operator++ carries as specified on any shape; from an element it moves to the next one in row-major order, or to the end |
| `StridedIterator.StepArrives` | backend/include/ExecutionEngine/CRunnerUtils.h:388-411 | From the element at place n the specified step arrives at place n + 1, or at the end behind the last |
| `StridedIterator.Traverse` | backend/include/ExecutionEngine/CRunnerUtils.h:375-425 | The loop from begin() to end(), left after any number of rounds, has seen exactly what the walk specifies |
| `StridedIterator.WalkInOrder` | backend/include/ExecutionEngine/CRunnerUtils.h:375-425 | On a shape with elements a traversal ends, after visiting elements in row-major order without repetition up to the first at offset -1 |
| `StridedIterator.TraversalExact` | backend/include/ExecutionEngine/CRunnerUtils.h:375-425 | A traversal ends having visited exactly the elements exactly when the shape is empty and the offset is -1, or it is not empty and no element lies at offset -1 |
| `StridedIterator.EmptyNeverEnds` | backend/include/ExecutionEngine/CRunnerUtils.h:375-425 | On a vector of length zero at offset 0 the traversal starts, and is still running after any number of rounds |
| `RemoteLaunch.RpcLauncher.Call` | backend/driver.py:473-571 | Host memory ends up as if the kernel had run on it directly, with the arguments of the launch (RemoteLaunch.LocalArrives), remote memory as it was; each storage that a tensor views is uploaded once, to a block of its own, read back once and its block freed once |
| `RemoteLaunch.RpcLauncher.Prepare` | backend/driver.py:491-560 | The argument loop on any launch: one upload per storage, and what is passed is, position by position, what has to arrive (`AllArrive`, which speaks of the arguments of the launch and the copies only) |
| `RemoteLaunch.PassedArrives` | backend/driver.py:491-560 | Every position that is not skipped arrives, in order, and nothing else does: tensors at their byte offset in the copy of their storage, integers and floats with their own value and bits, what int() does not take as zero, bare addresses as they are or where the last tensor of that address went |
| `RemoteLaunch.LocalArrives` | backend/driver.py:491-560 | The same for the run on host memory that a launch is compared with |
| `RemoteLaunch.NumbersSeen` | backend/driver.py:551-557 | A kernel sees every number it is given, on the host and on the device |
| `RemoteLaunch.NumbersDiffer` | backend/driver.py:551-557 | Two launches that differ in one number give a kernel different arguments |
| `RemoteLaunch.PassedRelocated` | backend/driver.py:491-560 | They are the relocated argument list, provided every bare address is null or the data_ptr of an earlier tensor, the last one of which views the storage it lies in |
| `RemoteLaunch.RpcLauncher.ReadBack` | backend/driver.py:566-571 | Every uploaded block is copied back and freed |
| `RemoteLaunch.RpcLauncher.Convert` | backend/driver.py:543-560 | Arguments that are not tensors: integers and floats with their own value (RemoteLaunch.PassedArrives) |
| `RemoteLaunch.RunMoved` | backend/driver.py:562-564 | A kernel leaves in every copy what it would have left in the storage itself |
| `RemoteLaunch.PlacesMoved` | backend/driver.py:539-542 | A kernel cannot tell relocated arguments from the original ones, however the views share storages |
| `RemoteLaunch.RawAddressExact` | backend/driver.py:543-550 | A bare address into a storage is relocated exactly when the last earlier tensor with that data_ptr views this storage; with a tensor of another storage, or none, exactly if the addresses of the copies happen to fit |
| `RemoteLaunch.RawAddressBreaks` | backend/driver.py:543-550 | Launched with an interior pointer in front of its tensor, a kernel that writes through it is lost, unless the copy lies where the storage does |
| `RemoteLaunch.NullPointerBreaks` | backend/driver.py:539-550 | A null pointer behind a tensor without elements whose data_ptr is zero is passed as another address |
| `Profiler.CpuProtonProfiler.Record` | backend/include/ExecutionEngine/CpuProtonRuntime.cpp:56-83 | One event updates records and active scopes, and keeps the invariant that active scopes point at their own open records |
| `Profiler.CpuProtonProfiler.Reset` | backend/include/ExecutionEngine/CpuProtonRuntime.cpp:104-108 | Everything is forgotten |
| `Profiler.RecordsAreReference` | backend/include/ExecutionEngine/CpuProtonRuntime.cpp:56-83 | After any interleaving the records are the start events in order, each closed by the next event of its own thread and name when that is an end |
| `Profiler.TotalsAreTimes` | backend/include/ExecutionEngine/CpuProtonRuntime.cpp:245-258 | The total of a scope is the sum, over its start events, of the cycles up to the event that closes each |
| `Profiler.ThreadsIndependent` | backend/include/ExecutionEngine/CpuProtonRuntime.cpp:56-83 | Under every interleaving one thread gets the records it would get alone |
| `Profiler.DumpHatchet` | backend/include/ExecutionEngine/CpuProtonRuntime.cpp:245-276 | Per-scope totals are the sums over completed records of that name, and the root totals the sums over all completed records |
| `Analysis.PtrState.PushShapes` | lib/AnalysisStructured/PtrAnalysis.cpp:342-413 | The operand that wraps around is looked at first |
| `Analysis.PtrAnalysis.VisitOperands` | lib/AnalysisStructured/PtrAnalysis.cpp:653-669 | Both operands of a binary operation, left before right, each failing on its own |
| `Analysis.PtrAnalysis.VisitOperandAdd` | lib/AnalysisStructured/PtrAnalysis.cpp:653-707 | The visitor of arith.addi leaves the specified state, and refuses a wrapping rank-1 operand |
| `Analysis.PtrAnalysis.VisitOperandSub` | lib/AnalysisStructured/PtrAnalysis.cpp:709-744 | The visitor of arith.subi |
| `Analysis.PtrAnalysis.VisitOperandMul` | lib/AnalysisStructured/PtrAnalysis.cpp:746-790 | The visitor of arith.muli leaves the specified state, and takes a uniform factor on either side (PtrAccepted.VisitAccepted, PtrAccepted.FactorsSwap) |
| `Analysis.PtrAnalysis.VisitOperandRem` | lib/AnalysisStructured/PtrAnalysis.cpp:792-896 | The visitor of arith.remsi, with its structured, wrapping and gathering exits |
| `Analysis.PtrAnalysis.VisitOperandAddptr` | lib/AnalysisStructured/PtrAnalysis.cpp:1057-1096 | The visitor of tt.addptr, which keeps the offsets of its base as original ones |
| `PtrSoundness.SumSound` | lib/AnalysisStructured/PtrAnalysis.cpp:653-707 | A sum of sound states is sound |
| `PtrSoundness.SubSound` | lib/AnalysisStructured/PtrAnalysis.cpp:709-744 | A difference of sound states is sound |
| `PtrSoundness.MulOperandsSound` | lib/AnalysisStructured/PtrAnalysis.cpp:746-790 | A product of sound states is sound |
| `PtrSoundness.RemSound` | lib/AnalysisStructured/PtrAnalysis.cpp:792-896 | A remainder of sound states is sound |
| `LoopPointers.BodySound` | lib/AnalysisStructured/PtrAnalysis.cpp:1718-1794 | The body, analysed under the carried state, computes the next pointer |
| `Worklist.Search.Run` | lib/AnalysisStructured/PtrAnalysis.cpp:2159-2200 | The queue empties, and what has been collected is exactly what can be reached |
| `Worklist.Search.VisitFor` | lib/AnalysisStructured/PtrAnalysis.cpp:2168-2186 | A loop passes an init argument on to its iter-arg and its tied result |
| `Folding.AddValue` | lib/Analysis/OpFoldResultUtils.cpp:207-239 | addOFRs keeps the value, and is a tensor exactly when an operand is one |
| `Folding.SubValue` | lib/Analysis/OpFoldResultUtils.cpp:241-288 | subOFRs keeps the value |
| `Folding.MulValue` | lib/Analysis/OpFoldResultUtils.cpp:290-342 | mulOFRs keeps the value, constants seen through casts included |
| `Folding.BoundedSound` | lib/Analysis/OpFoldResultUtils.cpp:562-579 | The mutually recursive equality test implies equal values |
| `Folding.BoundedSymmetric` | lib/Analysis/OpFoldResultUtils.cpp:562-579 | It is symmetric |
| `Folding.BoundedTransitive` | lib/Analysis/OpFoldResultUtils.cpp:562-579 | It is transitive, commuted minima included |
| `MaskAnalysis.MaskState.CompareInto` | lib/Analysis/MaskAnalysis.cpp:354-447 | The comparison of two parsed operands, signed or unsigned |
| `MaskAnalysis.MaskState.Stretch` | lib/Analysis/MaskAnalysis.cpp:565-598 | The loop over the dimensions a broadcast stretches |
| `MaskAnalysis.MaskState.PushSelects` | lib/Analysis/MaskAnalysis.cpp:600-646 | An i1 splat selects between the size and zero in every dimension |
| `MaskExact.AddExact` | lib/Analysis/MaskAnalysis.cpp:315-328 | A range plus a scalar is the shifted range |
| `MaskExact.RangeCmpExact` | lib/Analysis/MaskAnalysis.cpp:354-447 | The clamped prefix of a compared range, at both ends |
| `MaskExact.ScalarCmpExact` | lib/Analysis/MaskAnalysis.cpp:354-447 | A comparison of two splatted scalars |
| `MaskExact.ExpandExact` | lib/Analysis/MaskAnalysis.cpp:648-668 | expand_dims keeps masks and ranges exact |
| `MaskExact.BroadcastExact` | lib/Analysis/MaskAnalysis.cpp:565-598 | Broadcasting keeps them exact where no stretched dimension is masked |
| `MaskExact.BoolSplatExact` | lib/Analysis/MaskAnalysis.cpp:600-646 | An i1 splat that is not broadcast later is all or nothing |
| `Ssa.RunCodeAppend` | language/smt_rvisa/codegen.py:554-566 | Code runs in the order in which it is emitted |
| `ScfLowering.ForSound` | language/smt_rvisa/codegen.py:437-499 | One translated loop, from its bounds to its results |
| `Accepted.StmtAccepted` | language/smt_rvisa/codegen.py:414-435 | The same for one statement |
| `Accepted.StmtAcceptedC` | language/smt_rvisa/llvm_direct.py:237-314 | The same for one statement of the control-flow form |
| `ScfScope.StmtScoped` | language/smt_rvisa/codegen.py:414-435 | The same for one statement |
| `ScfScope.ExprScoped` | language/smt_rvisa/codegen.py:523-552 | Expression code uses visible values only, the active valid length of a vload included |
| `ScfCodegen.SmtMLIRBuilderCodegen.GenExpr` | language/smt_rvisa/codegen.py:523-552 | Bound names before known integers, operands before operations |
| `ScfCodegen.SmtMLIRBuilderCodegen.GenBody` | language/smt_rvisa/codegen.py:400-407 | Statement after statement |
| `ScfCodegen.SmtMLIRBuilderCodegen.GenFor` | language/smt_rvisa/codegen.py:437-451 | The bounds are evaluated in front of the loop |
| `ScfCodegen.SmtMLIRBuilderCodegen.GenRegion` | language/smt_rvisa/codegen.py:473-488 | Block arguments, body and yielded values |
| `ScfCodegen.SmtMLIRBuilderCodegen.Rebind` | language/smt_rvisa/codegen.py:496-499 | Names bound one after the other to consecutive values |
| `ScfCodegen.SmtMLIRBuilderCodegen.GenSstore` | language/smt_rvisa/codegen.py:1208-1222 | A scalar store |
| `ScfCodegen.SmtMLIRBuilderCodegen.GenVstore` | language/smt_rvisa/codegen.py:1159-1202 | A vector store under the active valid length |
| `ScfCodegen.SmtMLIRBuilderCodegen.ValidLength` | language/smt_rvisa/codegen.py:694-696 | The active valid length is the smaller of the vector length and the requested one |
| `ScfLimits.LoopLeaves` | language/smt_rvisa/codegen.py:478-499 | A translated loop changes no value bound to a name its body does not assign directly |
| `CfgSound.ForC` | language/smt_rvisa/llvm_direct.py:251-314 | One loop, from the block in front of it to its exit block |
| `CfgSound.IterationC` | language/smt_rvisa/llvm_direct.py:292-310 | Once around: header, body, back edge |
| `CfgSound.LoopBlocks` | language/smt_rvisa/llvm_direct.py:282-310 | The finished function contains header, body and back edge as they were built |
| `CfgSound.EnvFrame` | language/smt_rvisa/llvm_direct.py:251-314 | Translation rebinds no name that the statements do not assign |
| `CfgLimits.LastBelow` | language/smt_rvisa/llvm_direct.py:292-300 | Python leaves the last value below the bound |
| `CfgCodegen.LLVMDirectCodegen.GenExpr` | language/smt_rvisa/llvm_direct.py:319-341 | Expressions, appended to the current block |
| `CfgCodegen.LLVMDirectCodegen.GenBody` | language/smt_rvisa/llvm_direct.py:224-231 | Statement after statement |
| `CfgCodegen.LLVMDirectCodegen.GenFor` | language/smt_rvisa/llvm_direct.py:251-271 | The bounds are evaluated in the block in front of the loop |
| `CfgCodegen.LLVMDirectCodegen.GenLoop` | language/smt_rvisa/llvm_direct.py:273-314 | The whole loop |
| `CfgCodegen.LLVMDirectCodegen.FindReassignedNames` | language/smt_rvisa/llvm_direct.py:273-280 | Reassigned names in the order of their first assignment |
| `Packing.PackRow` | language/smt_rvisa/codegen.py:1384-1404 | One vector store |
| `StridedCopy.HasEmptyAxis` | backend/include/ExecutionEngine/CRunnerUtils.cpp:66-69 | Empty shapes are found |
| `StridedCopy.CopyStep` | backend/include/ExecutionEngine/CRunnerUtils.cpp:93-93 | One more element copied keeps the earlier ones and touches no byte outside the destination |
| `RemoteLaunch.RpcLauncher.Upload` | backend/driver.py:506-538 | A new storage is allocated and written once |
| `RemoteLaunch.RpcLauncher.ReadOne` | backend/driver.py:566-571 | One block is copied back and freed |
| `RemoteLaunch.RpcLauncher.PassTensor` | backend/driver.py:499-541 | A tensor is passed at its byte offset in the copy of its storage |
| `RemoteLaunch.BuffersMoved` | backend/driver.py:539-542 | Relocated arguments point into the copies of the same storages, in the same order |
| `RemoteLaunch.CopyLocated` | backend/driver.py:539-542 | A relocated address lies in the copy of its storage at the same offset, and in no block when it lay in none |
| `RemoteLaunch.TargetInBuffers` | backend/driver.py:539-542 | An address inside a block is never taken for a dangling one |
| `Profiler.CpuProtonProfiler.RecordAll` | backend/include/ExecutionEngine/CpuProtonRuntime.cpp:56-83 | Any number of events |
| `Profiler.RunIsReference` | backend/include/ExecutionEngine/CpuProtonRuntime.cpp:56-83 | From any state, events append their records and close the open ones |
| `Profiler.Aggregate` | backend/include/ExecutionEngine/CpuProtonRuntime.cpp:252-258 | The loop over the records |

## Left out

- Integer width: 64-bit wrap-around and the 32-bit encoding of scalar kernel arguments are not modelled.
- `visitOperandCmp` and `visitOperandExtUI`: heuristics, not rewrites that keep a value.
- Block pointers (`make_tensor_ptr`, `advance`), bitcasts, int_to_ptr, alloc and subview operands: shape bookkeeping.
- `rewriteLoadOp`, `rewriteStoreOp`: reassociation and element-type bridging of masks and results.
- SSA identity: two values count as the same when the same operation built them from the same operands, so the tests for the same value are structural.
- More than one gathered dimension: the code asserts that there is one; the model takes the first, and the merge theorem asks for one.
- LoopPointers.LoopCarriedSound: one carried pointer per loop, whose initial state comes from get_structured_state or an enclosing iter-arg; a pointer initialised with another loop's result is not covered, because the code then reads the carried values at the wrong loop's index. Source and wrap-around bounds are not carried, so the body has to leave them as they are. Scalar pointers that gather are not covered either.
- MaskExact.ParseExact: a mask that compares a loop's iter-arg (`parseLoopIterArg`) fails to parse here; the conjunction with a constant (`minStateScalar`) is the subject of MaskExact.ConstantConjunctionLimit instead.
- PtrSoundness.RemStateDenotes: a modulus of zero is undefined in the source; here the remainder is then zero on both sides. A wrapping dimension that is multiplied by zero gets such a bound.
- PtrStates.Visit: while offsets are gathered, a loop-carried tensor of pointers is refused at once; the code takes it for a scalar source, and the sum with a tensor offset is then refused.
- ScfLowering.KernelSound: loops that do not count upwards raise or are undefined, so `Exec` gives them no result; names that a kernel assigns must not be integer globals of its module, because the generator would read the global where Python raises. CfgSound.LoweringsAgree asks for the same of the names, CfgSound.KernelC does not.
- Integer floor division, comparisons, floats, vector arithmetic, intrinsics and `alloc`: values of the library or the hardware.
- ScfVector.CopySound: only vectors that are loaded and stored at once; ScfLowering.KernelSound is about kernels without vectors. Vectors in variables, which a loop may carry, have no Python value here. Types of values are not tracked, so the errors for storing a number as a vector, or a vector as a number, do not occur.
- The control-flow generator has no scalar loads and stores of its own: kernels reach memory there through `call_intrinsic` on `llvm_gep` pointers. `Load` and `Store` stand for these, with the meaning they have in the structured form.
- CfgSound.KernelC: dominance of block arguments is not a separate theorem; a dead name is one whose value would not dominate, and the theorem does not let it be used.
- Packing.Pack: the destination's last dimension is one vector, as the generated store requires, so the buffer is an array of vectors; `linalg.pack` itself is not modelled.
- The order in which `std::map` is visited when totals are added up: the sum does not depend on it, and the loop picks entries in any order.
- Rank-0 and rank-1 template specialisations of the memref types, `isPowerOf2` and `nextPowerOf2`: special cases and one-line arithmetic.
- RemoteLaunch.RpcLauncher.Call: tensors live in host memory and know the size of their storage; the size guess for pointers without one, the output flag of the wire format, and failures of the connection are not modelled. An address in no buffer tells a kernel nothing, nor does that of a tensor without elements.
- Locks: events are taken in the order in which they get the mutex. Clocks and thread identifiers are parameters.
- Sockets, subprocesses, files, caches, environment lookup, launcher text, JSON and console output: I/O.
- `UseAnalysis.cpp`: its fixpoint runs in a dataflow framework that is not part of this repository.
