# Traverse in Dafny

A model of the algorithmic core of Traverse, with proofs. `dafny verify dfyconfig.toml` checks the whole project.

## What is modelled

* **Workflow proposals** (`Proposal`, `ProposalErrors`, `ProposalRuns`, over `Ids`, `Dag`, `Scheduling`, `Waves`): structural validation, the
  deterministic execution order by Kahn's algorithm with the least ready id first, and concurrency waves. The loops keep their
  in-degree maps and ready sets; the theory is walks, cycles, topological orders and longest walks.
* **ONNX pre-pass** (`SamePads`, `ConvPads`, `ReverseSlices`, `Quantization`, `QuantizeChain`, `MatmulSite`, `DynamicMatmuls`,
  `ProductSearch`, `MatmulNames`, `MatmulNext`, `MatmulPlaces`, `MatmulValues`, `MatmulPass`, `LooseRanks`, `RescaledProducts`,
  `StandingNodes`, `Prepass`, `PrepassValues`, with `UnnamedSlices`, `ProductExamples` and `ScaleExamples`, over `Tensors`, `OnnxGraph`, `OnnxOrder` and `OnnxRun`): a class whose node list and initializers are
  rewritten in place, and a semantics of node lists over named tensors of reals with numpy broadcasting. A list runs exactly when
  it is sorted, which is a matter of names; each rewrite is proved to keep the values of the run. The ONNX definitions of Conv
  padding, Slice, Gather, DynamicQuantizeLinear and MatMulInteger are the reference. What a rewritten scale reaches is tracked as
  a set of loose names: names that may carry more leading axes of length one, each up to a rank. A node tolerates them when on
  the values of the original run they change none of its other outputs.
* **Canonical JSON** (`CanonicalJson`, `JsonWriter`, `JsonNumbers`, `JsonStrings`, `JsonRoundTrip`, `Surrogates`, over `Decimals`):
  the RFC 8785 printer, an independent reader, and the surrogate scanner.
* **SPDX expressions** (`SpdxTokenizer`, `SpdxParser`, `SpdxGrammar`, `SpdxSymbols`): the two-pass tokenizer and the recursive-descent parser,
  a class with a position and a list of unknown keys, against derivation trees.
* **Core ML packages** (`Strided`, `EntryNames`, `MlpackageZip`): the odometer of strided offsets, reads and writes through it, and the reader of
  stored zip archives.
* **WASM runner patching** (`RunnerModule`, `RunnerPatch`, `RunnerConditions`, `RunnerMemory`, `RunnerExample`): the section rewrite, and
  instantiation as applying data segments in order.
* **State machines** (`StateMachine`): invoke routes and the backward search for a host connector.
* **App events** (`EventCursors`, `AppEvents`): publishing under one cursor, collecting per kind, resuming.

## Findings

Places where a claim does not hold as one might read it; each has a lemma with the exact condition and one at a failing input.

* Duplicate state ids hide a host connector: `StateMachine.ReportAgreesExactly`, at `DuplicateIdsHideHost`.
* A data segment that covers part of the static can undo the patch: `RunnerMemory.PointerLandsExactlyIfSettled`, at
  `RunnerExample.PointerOverwritten`.
* Overlapping strides read back only if equal offsets get equal values: `Strided.WriteThenRead`, at `OverlapLosesValue`.
* Reverse slices that share a node name, as unnamed ones do, share their positions: `ReverseSlices.OutputsKeptExactly`, at
  `UnnamedSlices.UnnamedSlicesClash`.
* A second reader of the quantised value is left with a dangling name: `MatmulNext.RewriteSortedExactly`, at
  `ProductExamples.SecondReaderExample`.
* The scale of a dynamic product gains the axes of the quantised tensor and is never a scalar again (`MatmulPlaces.ScaleAfter`).
  Which other values change, and how: `LooseRanks.LoosenedPassExactly` for every name, `RescaledProducts.RescaledPassExactly`
  for the whole list, at `ScaleExamples.ScaleAloneExample`.
* More than 1024 pending events of one kind can leave a gap after a resume: `EventCursors.ResumeExactly` and
  `RoundsCompleteExactly`, at `OverfullKindLeavesGap`.
* At the greatest cursor publishing repeats a cursor: `AppEvents.Publisher.Publish` states when, at `GreatestCursorRepeats`.

## Model

| member | source | states |
|---|---|---|
| `Proposal.CanonicalizeProposal` | crates/traverse-contracts/src/proposal.rs:164-392 | Accepted exactly when every structural rule holds and the edge graph has no cycle; the order returned is then the lexicographically least of all topological orders; a malformed proposal gets exactly its structural errors, a cyclic one the single cycle error |
| `Proposal.NoErrorsMeansWellFormed` | crates/traverse-contracts/src/proposal.rs:164-376 | The five lists of errors are empty together exactly on proposals that meet every structural rule, so the early return loses no error and reports no false one |
| `Proposal.CheckNodes` | crates/traverse-contracts/src/proposal.rs:234-260 | The set of node ids, and for each node in turn its blank fields and its repeated id |
| `Proposal.CheckEdges` | crates/traverse-contracts/src/proposal.rs:262-309 | The edges that survive are exactly the well-formed, first-declared ones; adjacency and in-degrees describe the graph of those edges |
| `Proposal.RecordEdge` | crates/traverse-contracts/src/proposal.rs:303-309 | Adding a new edge keeps adjacency and in-degrees an exact description of the graph |
| `Proposal.CheckMappings` | crates/traverse-contracts/src/proposal.rs:311-358 | Per-mapping errors in order, and for every target path how many accepted mappings write it |
| `Proposal.CheckWriters` | crates/traverse-contracts/src/proposal.rs:359-372 | Exactly one error for each target path with two accepted writers and none other, ordered by target id and then by path |
| `Proposal.WriterErrorsUnique` | crates/traverse-contracts/src/proposal.rs:359-372 | A proposal has one such list, so its whole list of structural errors is determined |
| `ProposalErrors.ErrorsExactly` | crates/traverse-contracts/src/proposal.rs:170-372 | The structural errors are one list and no other: every error that is due by code and path, each once, header before nodes before edges before mappings before contested targets, item by item and field by field |
| `ProposalErrors.WellFormedExactly` | crates/traverse-contracts/src/proposal.rs:170-376 | A proposal is well formed exactly when no error is due |
| `ProposalErrors.HeaderMembers` | crates/traverse-contracts/src/proposal.rs:170-232 | A header field gets a code exactly for a wrong literal, a blank text or an exceeded limit of its own |
| `ProposalErrors.NodeMembersAt` | crates/traverse-contracts/src/proposal.rs:234-260 | A node gets an error for each blank field, under the name of the field, and one if an earlier node has its id |
| `ProposalErrors.EdgeMembersAt` | crates/traverse-contracts/src/proposal.rs:262-301 | An edge gets one error at most: a loop, else its first end that is no node, else an edge listed before |
| `ProposalErrors.MappingMembersAt` | crates/traverse-contracts/src/proposal.rs:311-354 | A mapping gets an error for each blank path, and one for a target that is no node, else a source that is no node, else a missing edge |
| `Ids.LessExactly` | crates/traverse-contracts/src/proposal.rs:396-411 | An id is below another exactly when it is a proper prefix or has the smaller character at the first difference |
| `Scheduling.TopologicalOrder` | crates/traverse-contracts/src/proposal.rs:396-432 | An order exists in the result exactly when the graph is acyclic; it is a topological order and no topological order is lexicographically smaller |
| `Scheduling.LowerDegrees` | crates/traverse-contracts/src/proposal.rs:415-424 | Each successor loses one remaining predecessor, no count goes below zero, and a successor becomes ready exactly when its last one is gone |
| `Scheduling.Release` | crates/traverse-contracts/src/proposal.rs:409-425 | The remaining in-degree of every node stays the number of its unprocessed predecessors, and what becomes ready is what the processed node freed |
| `Dag.StuckMeansCyclic` | crates/traverse-contracts/src/proposal.rs:427-431 | If unprocessed nodes remain and none is ready, the graph has a cycle |
| `Dag.OrderImpliesAcyclic` | crates/traverse-contracts/src/proposal.rs:396-432 | A graph with a topological order has no cycle |
| `Dag.LeastReadyKeepsLexAtMost` | crates/traverse-contracts/src/proposal.rs:409-411 | Taking the least ready node keeps the prefix at most every topological order |
| `Dag.LexAtMostAntisymmetric` | crates/traverse-contracts/src/proposal.rs:396-432 | Two orders each at most the other are the same order |
| `ProposalRuns.OrderDependsOnGraphOnly` | crates/traverse-contracts/src/proposal.rs:164-432 | Two proposals with the same sets of nodes and edges get the same execution order, however they list them |
| `ProposalRuns.ComputeParallelSchedule` | crates/traverse-contracts/src/proposal.rs:509-598 | A schedule is returned exactly when node count, every in-degree and every wave are within their limits; otherwise exactly the exceeded limits are reported |
| `ProposalRuns.IndexEdges` | crates/traverse-contracts/src/proposal.rs:533-542 | The index built from a canonical edge list describes its graph |
| `ProposalRuns.CheckJoins` | crates/traverse-contracts/src/proposal.rs:544-555 | One error for every node with more direct predecessors than allowed, and none other |
| `Waves.Levelize` | crates/traverse-contracts/src/proposal.rs:557-591 | The waves partition the nodes, wave k holding exactly the nodes whose longest dependency walk has k edges, each wave in id order; one fan-out error per wave that is too wide |
| `Waves.FanOutExactly` | crates/traverse-contracts/src/proposal.rs:565-573 | The fan-out errors are the widths of the waves over the limit, in the order of the waves |
| `Waves.RunWave` | crates/traverse-contracts/src/proposal.rs:575-588 | After a wave the remaining in-degrees count the predecessors outside it, and what is ready next is what depends on nothing later |
| `Waves.WaveBoundsWalks` | crates/traverse-contracts/src/proposal.rs:557-591 | No dependency walk that ends in wave k has more than k edges |
| `Waves.WaveHasWalk` | crates/traverse-contracts/src/proposal.rs:557-591 | Some dependency walk that ends at a node of wave k has k edges |
| `Waves.WavesDisjoint` | crates/traverse-contracts/src/proposal.rs:557-591 | A node is in one wave only |
| `Waves.WalkClimbsWaves` | crates/traverse-contracts/src/proposal.rs:557-591 | A walk of one or more edges leads to a strictly later wave, so no two nodes of a wave depend on each other |
| `Waves.WavesAreEarliest` | crates/traverse-contracts/src/proposal.rs:557-591 | Under any timing that respects the dependencies, no node runs before the number of its wave |
| `Waves.WavesAreFewest` | crates/traverse-contracts/src/proposal.rs:557-591 | No timing that respects the dependencies needs fewer slots than there are waves |
| `ProposalRuns.WavesDependOnGraphOnly` | crates/traverse-contracts/src/proposal.rs:509-598 | The waves are determined by the graph |
| `ProposalRuns.SequentialRunReadsProduced` | crates/traverse-contracts/src/proposal.rs:311-392 | Corollary: in the sequential run a node reads only outputs of nodes strictly earlier in the order |
| `ProposalRuns.WaveRunReadsProduced` | crates/traverse-contracts/src/proposal.rs:557-591 | In the wave run a node reads only outputs of strictly earlier waves |
| `ProposalRuns.SingleWriter` | crates/traverse-contracts/src/proposal.rs:356-372 | In a well-formed proposal the counter of a target path never passes one, and it is one exactly when some mapping names that path |
| `SamePads.ExplicitPads` | tools/coreml/prepass.py:46-62 | Pads for every axis, or an error exactly when a dimension, stride or dilation is missing or a stride is zero: then the first such number of the first such axis |
| `SamePads.FirstFaultUnique` | tools/coreml/prepass.py:53-58 | There is one such error, and it excludes success |
| `SamePads.PadsExactly` | tools/coreml/prepass.py:53-60 | For every size (also zero), positive stride and positive window, the pads computed are the one answer that gives the rounded-up output length with the least padding, the extra element at the end |
| `SamePads.PadsOfExactly` | tools/coreml/prepass.py:46-62 | The same for each axis of the pads attribute: begins first, then ends |
| `SamePads.TotalReaches` | tools/coreml/prepass.py:56-58 | With the computed total the output has size over stride, rounded up, positions |
| `SamePads.TotalLeast` | tools/coreml/prepass.py:56-58 | Any total that reaches that length is at least the computed one |
| `ConvPads.ExplicitConv` | tools/coreml/prepass.py:40-64 | A Conv with the explicit pads computes what SAME_UPPER, taken by its definition, computes |
| `ConvPads.ExplicitPadsKeepValues` | tools/coreml/prepass.py:40-64 | Making all pads explicit leaves the run of the node list as it was |
| `ConvPads.ExplicitExactly` | tools/coreml/prepass.py:40-64 | Only a Conv with auto_pad SAME_UPPER changes: it loses that attribute and gets, for every spatial axis, pads that meet the definition with the least padding |
| `ConvPads.CountExactly` | tools/coreml/prepass.py:63-64 | The count is the number of places that hold such a Conv |
| `Prepass.MakeExplicit` | tools/coreml/prepass.py:43-62 | The node with explicit pads, or its one fault: no inputs, no shape, no kernel, or the first number missing |
| `ConvPads.OneFault` | tools/coreml/prepass.py:46-55 | Corollary: a node whose pads cannot be computed has exactly one fault |
| `Prepass.Model.FixConv` | tools/coreml/prepass.py:41-63 | One node: rewritten in its place, left alone, or its fault with the list untouched |
| `Prepass.Model.FixSameUpper` | tools/coreml/prepass.py:40-64 | Fails exactly when some SAME_UPPER Conv cannot be padded: with the fault of the first such node, the nodes before it rewritten and the rest untouched; otherwise each such node has given way to the same Conv with least pads, no SAME_UPPER is left, every other node is as it was, and the count is theirs |
| `ReverseSlices.WholeAxisExactly` | tools/coreml/prepass.py:75-81 | A Slice from -1 by -1 takes the whole axis backwards exactly when the axis is shorter than minus the end bound |
| `ReverseSlices.JudgedExactly` | tools/coreml/prepass.py:70-80 | A node is judged a reversal of an axis of some length exactly when it is a Slice of five or more inputs with four constant bounds, starts and steps are the list [-1], the first end is at most -2^62 and the shape gives the first axis that nonzero length; and it is judged broken exactly for the first of these that is malformed or missing |
| `ReverseSlices.RewrittenExactly` | tools/coreml/prepass.py:81-86 | Such a node becomes the Gather over that axis, named after it, with its first input, the positions made for it and its outputs; any other node stays, and none that reverses an axis is left |
| `ReverseSlices.AddedExactly` | tools/coreml/prepass.py:81-82 | One initializer for each such node, in the order of the nodes: the positions size - 1 down to 0 under the name of the node |
| `ReverseSlices.SmallAxesReversible` | tools/coreml/prepass.py:75-81 | Corollary: below 2^62 elements every end bound the rewrite accepts qualifies |
| `ReverseSlices.SliceIsGather` | tools/coreml/prepass.py:81-86 | The Gather over the reversed positions computes what the Slice computes |
| `ReverseSlices.ReversedTwice` | tools/coreml/prepass.py:81-83 | Reversing an axis twice gives the tensor back |
| `ReverseSlices.ReversalsKeepValues` | tools/coreml/prepass.py:67-88 | Rewriting all reverse slices keeps every value of the run and the list sorted; only the index names are added |
| `ReverseSlices.OwnIndicesExactly` | tools/coreml/prepass.py:81-83 | Every new Gather reads the positions made for it exactly when rewritten slices that share a node name run over axes of one length |
| `ReverseSlices.KeepsOutputsExactly` | tools/coreml/prepass.py:81-86 | Over the reversed positions of an axis of another length the Gather stays in bounds and gives the outputs of the Slice exactly when the two lengths are equal |
| `ReverseSlices.OutputsKeptExactly` | tools/coreml/prepass.py:67-88 | All rewritten slices of a list keep their outputs exactly when those that share a node name run over axes of one length |
| `UnnamedSlices.UnnamedSlicesClash` | tools/coreml/prepass.py:81-86 | Two unnamed reverse slices over axes of three and two elements: after the pass the first result has two elements |
| `Prepass.Model.Replace` | tools/coreml/prepass.py:84-86 | The first occurrence of the node is replaced in its place; every other node keeps its position |
| `Prepass.Model.FixReverseSlices` | tools/coreml/prepass.py:67-88 | Fails exactly when a constant Slice from -1 by -1 has malformed bounds, or an end of at most -2^62 and no axis of known, nonzero length: with the error of the first such slice and everything before it rewritten; otherwise each Slice that runs a whole axis backwards is the Gather over that axis in its place and none is left, every other node is as it was, and the positions of each, size - 1 down to 0, are appended in list order |
| `Tensors.CombineElement` | tools/coreml/prepass.py:100-103 | Arithmetic on tensors broadcasts as in numpy: each element of the joint shape combines the two elements at its index, an axis of length one read at zero |
| `Quantization.RoundEven` | tools/coreml/prepass.py:132-135 | A nearest integer, the even one on a tie |
| `Quantization.ChainIsDynamicQuantizeLinear` | tools/coreml/prepass.py:112-140 | For every tensor that is not all zero the Relu, Sub and Round form has the scale, the zero point and each quantised value of DynamicQuantizeLinear, which saturates before it rounds |
| `Quantization.QuantizedInSteps` | tools/coreml/prepass.py:134-137 | The sum before saturation lies in 0..256 and is 256 exactly when the element is the top of the range and the zero point was a tie that rounded up |
| `Quantization.WithinHalfAStep` | tools/coreml/prepass.py:134-138 | The quantised value less the zero point, times the scale, is within half a scale of the element, also where the saturation fires |
| `QuantizeChain.ChainRun` | tools/coreml/prepass.py:106-140 | Running the chain leaves the scale of DynamicQuantizeLinear and the product of the centred quantised value with the centred weights, and adds no name but its own |
| `MatmulSite.ReplacementRun` | tools/coreml/prepass.py:106-140 | At a dynamic product the chain runs, gives the output of the cast the value of the integer product, and writes exactly its own names |
| `MatmulNames.SortedExactlyWithoutStrays` | tools/coreml/prepass.py:141-145 | By names alone: the list with the chain in place of the product is sorted exactly when no other node read the quantised value, its zero point or the integer product |
| `MatmulNext.NextRewritten` | tools/coreml/prepass.py:141-145 | By names alone: removing the three nodes one by one and inserting the chain gives the list before the product, the chain, and the rest without the pair |
| `MatmulNext.RewriteSortedExactly` | tools/coreml/prepass.py:91-147 | One rewrite of a sorted list goes through, and its list is sorted exactly when there was no such second reader |
| `MatmulNext.OneRewrite` | tools/coreml/prepass.py:91-147 | After one rewrite the graph is ready for the next: sorted, every other product as before, and no name in use that a later rewrite makes up |
| `MatmulNext.PassKeepsOrder` | tools/coreml/prepass.py:91-147 | Whatever the values are, the pass over all products finishes and its list is sorted |
| `ProductExamples.SecondReaderBreaks` | tools/coreml/prepass.py:141-145 | A quantised value with a second reader: the list is sorted, the rewrite reports no error, and its list is not sorted |
| `ProductExamples.SecondReaderExample` | tools/coreml/prepass.py:141-145 | One such list of four nodes |
| `RescaledProducts.ScaleGainsAxes` | tools/coreml/prepass.py:121-129 | The new scale has the axes of the quantised tensor where the original scale has none, so it differs, and it has the same one element |
| `RescaledProducts.ScaleNeverScalar` | tools/coreml/prepass.py:104-129 | Corollary of broadcasting: the divisor has one axis, so whatever the input no scale is a scalar again |
| `RescaledProducts.RescalingExactly` | tools/coreml/prepass.py:121-129 | Corollary of AbsorbedExactly at one operator: combining the scale with a product gives the old result exactly when the product has as many axes as the quantised tensor |
| `MatmulValues.AbsorbedExactly` | tools/coreml/prepass.py:121-129 | The same for any broadcasting operator and any operand with leading axes of length one added |
| `MatmulValues.SettlesTolerates` | tools/coreml/prepass.py:91-147 | A node that reads no padded name, or combines it with an operand that has the axes, computes what it did; one that passes the axes on computes it up to them |
| `MatmulValues.FollowsThrough` | tools/coreml/prepass.py:141-145 | A list of nodes that tolerate the axes keeps the run at the values of the original run |
| `MatmulPass.SiteKeepsValues` | tools/coreml/prepass.py:91-147 | Replacing one product: the new list runs, and every name has its value, a loose name up to leading axes of length one |
| `MatmulPass.PassFollows` | tools/coreml/prepass.py:91-147 | The same from any point of the pass to its end, against the original run |
| `MatmulPass.PassKeepsValues` | tools/coreml/prepass.py:91-147 | The pass over all products finishes and runs; every name but those of the integer products keeps its value, a loose name up to leading axes, for every graph whose nodes tolerate those axes on the values of its own run |
| `MatmulPlaces.PassLeaves` | tools/coreml/prepass.py:141-146 | Whatever the rest of the pass does, it leaves the list before the next product, the initializers, and every node that is no part of a product |
| `MatmulPlaces.ChainPlaced` | tools/coreml/prepass.py:106-146 | Every dynamic product of the graph has its whole chain in the finished list, with its two constants |
| `MatmulPlaces.ScaleAfter` | tools/coreml/prepass.py:121-129 | In the finished run each scale has the axes of its quantised tensor and the one element of the scale |
| `RescaledProducts.RescaledKeeps` | tools/coreml/prepass.py:91-147 | Where each scale is only combined with tensors that have the axes, every remaining name other than a scale keeps exactly its value, and a scale its element |
| `RescaledProducts.RescaledPassExactly` | tools/coreml/prepass.py:91-147 | Where scales are read by broadcasting operators, every remaining name other than a scale keeps its value if and only if each of those operators has an operand with the axes of the quantised tensor |
| `LooseRanks.NodeSettled` | tools/coreml/prepass.py:91-147 | The loose ranks computed along the list are right at each node: a scale reaches the rank of what is quantised, a result is loose exactly when an operand reaches beyond both original ranks |
| `LooseRanks.LoosenedPassExactly` | tools/coreml/prepass.py:91-147 | Where only broadcasting operators read loose names, each remaining name has after the pass its value with exactly the axes of its loose rank, so a value is kept if and only if the name is not loose |
| `ScaleExamples.ScaleAlone` | tools/coreml/prepass.py:121-129 | A scale combined with a tensor of fewer axes than what is quantised: the pass goes through and the result has the axes of what is quantised |
| `ScaleExamples.ScaleAloneExample` | tools/coreml/prepass.py:121-129 | One such graph: the result is a scalar before the pass and has shape [1, 1] after it |
| `ScaleExamples.WeightScaled` | tools/coreml/prepass.py:91-147 | The scale times a scale of the weights, then the product times both: where the product has the axes, the pass keeps its rescaled value exactly |
| `ProductExamples.TwoProductsInSequence` | tools/coreml/prepass.py:91-147 | Quantize, product, cast, Mul, quantize, product, cast, Mul: the pass keeps both products and both rescaled results exactly |
| `Prepass.Model.RewriteProduct` | tools/coreml/prepass.py:94-146 | One product rewritten in place, or the first thing missing with the model as far as it got |
| `ProductSearch.SiteExactly` | tools/coreml/prepass.py:95-103 | A product is taken up exactly when the quantizer has three outputs, the first MatMulInteger that reads its value first has an output, a first Cast reads that, and weights and zero point are initializers that broadcast |
| `ProductSearch.FaultExactly` | tools/coreml/prepass.py:95-103 | Otherwise the error is that of the first of these that is missing, in the order in which they are looked up |
| `ProductSearch.OneGone` | tools/coreml/prepass.py:141-145 | A rewrite that goes through takes exactly one quantizer out of the list |
| `ProductSearch.NoneLeft` | tools/coreml/prepass.py:91-147 | A pass that goes through leaves no DynamicQuantizeLinear, whatever the graph |
| `Prepass.Model.RewriteDynamicMatmuls` | tools/coreml/prepass.py:91-147 | The products of the snapshot are rewritten in list order, and no quantizer is left; the first that lacks its MatMulInteger, Cast, weights or arity stops the pass with that error and the model rewritten up to it |
| `StandingNodes.SamePending` | tools/coreml/prepass.py:40-88 | What the third pass asks of a list it also finds in the list that the first two passes make of it |
| `StandingNodes.SameLoosened` | tools/coreml/prepass.py:40-88 | The first two passes do not change which names are loose, nor their ranks |
| `PrepassValues.PrepassKeepsValues` | tools/coreml/prepass.py:150-160 | The three passes in order go through, and every name but those of the integer products of the model keeps its value, a loose name up to leading axes |
| `PrepassValues.PrepassKeepsExactly` | tools/coreml/prepass.py:150-160 | By the model and its run alone: where scales are read by broadcasting operators, every remaining name other than a scale keeps its value if and only if each of those operators has an operand with the axes of the quantised tensor |
| `PrepassValues.PrepassWidens` | tools/coreml/prepass.py:150-160 | By the model and its run alone: where only broadcasting operators read loose names, each remaining name has its value with the axes of its loose rank, and keeps it if and only if it is not loose |
| `Prepass.Model.Prepass` | tools/coreml/prepass.py:150-160 | Succeeds exactly when each pass in turn does: the model is then the composed rewrite and the summary counts what each pass changed; otherwise the error is that of the first pass that fails and the model is as far as it got |
| `PrepassValues.GatheredRun` | tools/coreml/prepass.py:150-157 | After the first two passes the model runs to the same values, with the reversed positions added |
| `OnnxRun.RunsIffSorted` | tools/coreml/prepass.py:141-145 | A list runs exactly when it is topologically sorted with each name assigned once |
| `OnnxRun.ReplacedOneForOne` | tools/coreml/prepass.py:84-86 | Replacing nodes one for one by nodes with the same results changes no value |
| `JsonWriter.WriteValue` | crates/traverse-contracts/src/canonical_json.rs:111-147 | The canonical text appended, or failure exactly when some number is outside the safe range |
| `JsonWriter.WriteArray` | crates/traverse-contracts/src/canonical_json.rs:117-126 | The elements in order, separated by commas |
| `JsonWriter.WriteObject` | crates/traverse-contracts/src/canonical_json.rs:127-144 | The members in the order of the UTF-16 code units of their names, however they came |
| `JsonWriter.WriteMembers` | crates/traverse-contracts/src/canonical_json.rs:134-142 | The sorted members written one after the other |
| `JsonWriter.WriteMember` | crates/traverse-contracts/src/canonical_json.rs:138-140 | A quoted name, a colon and the canonical text of the value |
| `JsonWriter.VisitMap` | crates/traverse-contracts/src/canonical_json.rs:332-341 | Accepted exactly when no name repeats; the map then holds each name with its value |
| `JsonRoundTrip.ReadsBack` | crates/traverse-contracts/src/canonical_json.rs:111-147 | A reader recovers from the canonical text the value up to member order and numeric equality, and leaves nothing over |
| `JsonRoundTrip.ValueBack` | crates/traverse-contracts/src/canonical_json.rs:111-147 | The same in front of any text that can follow a value |
| `JsonRoundTrip.SameMeaningSameText` | crates/traverse-contracts/src/canonical_json.rs:111-147 | Values equal up to member order and numeric equality have one canonical text |
| `JsonRoundTrip.SameTextExactly` | crates/traverse-contracts/src/canonical_json.rs:111-147 | Two values have the same canonical text exactly when they are equal up to member order and numeric equality (sections 3.2.2 and 3.2.3 of RFC 8785) |
| `JsonRoundTrip.Idempotent` | crates/traverse-contracts/src/canonical_json.rs:107-109 | Whatever the canonical text is read back as prints to that text again |
| `JsonNumbers.WriteNumber` | crates/traverse-contracts/src/canonical_json.rs:149-170 | The number text appended, or failure exactly when the magnitude is over 2^53 - 1 |
| `JsonNumbers.FormatF64` | crates/traverse-contracts/src/canonical_json.rs:176-217 | The ECMAScript text of a double in the safe range (section 3.2.2.3 of RFC 8785) |
| `JsonNumbers.PushLayout` | crates/traverse-contracts/src/canonical_json.rs:192-215 | The branch taken is the layout ECMAScript prescribes for the exponent |
| `JsonNumbers.LayoutForm` | crates/traverse-contracts/src/canonical_json.rs:192-215 | An exponent is written exactly from 10^21 on and below 10^-6, and a point exactly when a digit stands behind it |
| `JsonNumbers.TextDenotes` | crates/traverse-contracts/src/canonical_json.rs:192-215 | Read back, the text of every layout branch denotes exactly digits times 10^(n-k) |
| `JsonNumbers.SafeExponent` | crates/traverse-contracts/src/canonical_json.rs:172-175 | In the safe range the exponent n is at most 16 |
| `JsonNumbers.NormalFormUnique` | crates/traverse-contracts/src/canonical_json.rs:176-217 | Normalised digits and exponent are determined by the value |
| `JsonNumbers.TextsAgreeExactly` | crates/traverse-contracts/src/canonical_json.rs:149-217 | Two numbers, integers or doubles, have the same text exactly when they have the same value |
| `JsonNumbers.IntegerText` | crates/traverse-contracts/src/canonical_json.rs:150-159 | The decimal text of an integer is the ECMAScript text of its value |
| `JsonStrings.WriteString` | crates/traverse-contracts/src/canonical_json.rs:220-239 | The quoted, escaped text appended |
| `JsonStrings.QuotedRead` | crates/traverse-contracts/src/canonical_json.rs:220-239 | A reader of JSON strings, which refuses raw control characters and takes every escape of section 7 of RFC 8259, recovers the string from its quoted form (section 3.2.2.2 of RFC 8785) |
| `JsonStrings.EscapeShortest` | crates/traverse-contracts/src/canonical_json.rs:222-237 | Of all texts that a reader of section 7 of RFC 8259 reads as one character, the text written for it is the one shortest |
| `JsonStrings.Utf16Injective` | crates/traverse-contracts/src/canonical_json.rs:129-133 | Different strings have different UTF-16 code units |
| `JsonStrings.UnitsExactly` | crates/traverse-contracts/src/canonical_json.rs:129-133 | The code units of a character are itself below 2^16, else the pair of a high and a low surrogate that stands for it |
| `JsonStrings.Utf16Concat` | crates/traverse-contracts/src/canonical_json.rs:129-133 | The code units of a name are those of its characters, in order |
| `JsonStrings.KeyLessExactly` | crates/traverse-contracts/src/canonical_json.rs:129-133 | A name is below another exactly when its code units are a proper prefix or have the smaller unit at the first difference |
| `JsonStrings.KeyTotal` | crates/traverse-contracts/src/canonical_json.rs:133-133 | Two different names are ordered one way or the other |
| `CanonicalJson.SortSorted` | crates/traverse-contracts/src/canonical_json.rs:129-133 | Entries with distinct names come out in strictly increasing order |
| `CanonicalJson.SortedKeysAgree` | crates/traverse-contracts/src/canonical_json.rs:129-133 | Two sorted member lists with the same names have them in the same places |
| `Surrogates.HasLoneSurrogateEscape` | crates/traverse-contracts/src/canonical_json.rs:243-280 | The loop computes the two-flag scan of the bytes |
| `Surrogates.ScanLiteral` | crates/traverse-contracts/src/canonical_json.rs:243-280 | Through one literal the scan fires exactly when its code units do not pair up, given what was pending |
| `Surrogates.PairedExactly` | crates/traverse-contracts/src/canonical_json.rs:260-268 | Pairing up from left to right fails exactly when some surrogate stands unpaired |
| `Surrogates.ScanDocument` | crates/traverse-contracts/src/canonical_json.rs:243-280 | On literals and quote-free text between them the scan returns true exactly when some literal has an unpaired surrogate |
| `SpdxParser.ParseSpdx` | crates/traverse-cli/src/ai_admission.rs:798-813 | Accepted exactly when the grammar derives the tokens, with exactly the unknown keys of that derivation in source order; an illegal character is reported first, and otherwise the reason is that of the descent or the position it stopped at |
| `SpdxParser.ParseTokens` | crates/traverse-cli/src/ai_admission.rs:800-812 | The same for tokens: no derivation exists exactly when it fails |
| `SpdxParser.UnexpectedAfterExpression` | crates/traverse-cli/src/ai_admission.rs:809-811 | A position is reported only behind a complete expression |
| `SpdxParser.Parser.constructor` | crates/traverse-cli/src/ai_admission.rs:803-807 | A parser at the first token with no unknown keys |
| `SpdxParser.Parser.Expression` | crates/traverse-cli/src/ai_admission.rs:826-834 | The state after the call is what the OR rule leaves of the remaining tokens |
| `SpdxParser.Parser.AndTerm` | crates/traverse-cli/src/ai_admission.rs:836-844 | The same for the AND rule |
| `SpdxParser.Parser.WithTerm` | crates/traverse-cli/src/ai_admission.rs:846-878 | The same for a parenthesis or a license with an optional exception |
| `SpdxParser.Parser.LicenseSymbol` | crates/traverse-cli/src/ai_admission.rs:880-893 | Fails exactly for an exception that is no license; an unlisted symbol is noted unless it is exempt |
| `SpdxGrammar.AcceptsExactlyTheGrammar` | crates/traverse-cli/src/ai_admission.rs:826-893 | The parser consumes all tokens with a list of unknown keys exactly when some derivation yields them with that list |
| `SpdxGrammar.ExprComplete` | crates/traverse-cli/src/ai_admission.rs:826-893 | Every derivation is parsed, up to a token that cannot continue it, and its unknown keys are appended |
| `SpdxGrammar.ExprSound` | crates/traverse-cli/src/ai_admission.rs:826-893 | Whatever is parsed comes from a derivation with those unknown keys |
| `SpdxGrammar.JoinsStayAccepted` | crates/traverse-cli/src/ai_admission.rs:826-844 | Joining two accepted lists with AND or OR stays accepted, with the unknown keys concatenated |
| `SpdxGrammar.WrappingStaysAccepted` | crates/traverse-cli/src/ai_admission.rs:848-856 | Wrapping an accepted list in parentheses stays accepted with the same unknown keys |
| `SpdxSymbols.KeyExactly` | crates/traverse-cli/src/ai_admission.rs:729-735 | Two symbols have one key in the table exactly when their words agree one by one, but for ASCII case and for the blanks around them |
| `SpdxSymbols.LookupInsensitive` | crates/traverse-cli/src/ai_admission.rs:765-775 | The table gives both the same answers |
| `SpdxSymbols.SomeSpacing` | crates/traverse-cli/src/ai_admission.rs:729-735 | Every text is words with blanks around them |
| `SpdxSymbols.KeywordExactly` | crates/traverse-cli/src/ai_admission.rs:785-795 | AND, OR and WITH are recognized in any ASCII case, and every other word is itself a symbol |
| `SpdxSymbols.MergedExactly` | crates/traverse-cli/src/ai_admission.rs:706-725 | Token by token from the left, two words are one token exactly where their text with what lies between is a listed license or exception |
| `SpdxSymbols.UnknownExactly` | crates/traverse-cli/src/ai_admission.rs:880-893 | The unknown keys of an accepted list are the symbols in the place of a license that are not listed, not a LicenseRef and neither UNLICENSED nor NONE |
| `SpdxSymbols.AcceptedExactly` | crates/traverse-cli/src/ai_admission.rs:846-893 | A list of tokens is accepted exactly when it has the form of an expression, each symbol behind WITH is a listed exception, and no other symbol is listed as an exception only |
| `SpdxTokenizer.Tokenize` | crates/traverse-cli/src/ai_admission.rs:673-726 | Succeeds exactly when every character is legal; the tokens then cover every non-blank character once, in order, and an error names the first illegal character |
| `SpdxTokenizer.SplitWords` | crates/traverse-cli/src/ai_admission.rs:674-705 | The first pass: word spans with a placeholder per parenthesis, and the parentheses in their order |
| `SpdxTokenizer.MergeWords` | crates/traverse-cli/src/ai_admission.rs:706-725 | The second pass: two words are one token exactly when their span is a listed symbol, and each placeholder gets its own parenthesis |
| `SpdxTokenizer.ItemsSplit` | crates/traverse-cli/src/ai_admission.rs:674-705 | Words and parentheses cut the text so that only blanks lie between them and no word goes on where it ends |
| `SpdxTokenizer.WordsMaximal` | crates/traverse-cli/src/ai_admission.rs:674-705 | A word of such a cut could not be longer on either side |
| `SpdxTokenizer.SplitsUnique` | crates/traverse-cli/src/ai_admission.rs:674-705 | A text has one such cut |
| `SpdxTokenizer.MergeTokenizes` | crates/traverse-cli/src/ai_admission.rs:706-725 | Merging keeps the cover: each token reads its own slice of the text and slices follow each other |
| `Strided.StridedOffsets` | crates/traverse-coreml-adapter/src/package.rs:236-263 | The i-th offset is the sum of the mixed-radix digits of i times the strides; none on a rank mismatch or an overflow |
| `Strided.Tick` | crates/traverse-coreml-adapter/src/package.rs:252-258 | One step of the odometer in place |
| `Strided.NextDigits` | crates/traverse-coreml-adapter/src/package.rs:252-258 | The step takes the digits of i to the digits of i + 1 |
| `Strided.DigitsAreRowMajor` | crates/traverse-coreml-adapter/src/package.rs:244-260 | The digits of i are the index at row-major position i |
| `Strided.RowMajorDigits` | crates/traverse-coreml-adapter/src/package.rs:244-260 | An index has the digits of its row-major position, which is within the shape |
| `Strided.CheckedCount` | crates/traverse-coreml-adapter/src/package.rs:240-242 | The product of the dimensions, or nothing exactly when a partial product overflows |
| `Strided.CheckedOffset` | crates/traverse-coreml-adapter/src/package.rs:246-251 | The offset, or nothing exactly when it overflows |
| `Strided.StoreAll` | crates/traverse-coreml-adapter/src/package.rs:277-282 | Values are stored up to the first slot outside the buffer |
| `Strided.WriteF32Strided` | crates/traverse-coreml-adapter/src/package.rs:267-284 | Fails on a layout or count mismatch or a slot outside; the buffer is what the stores up to there leave |
| `Strided.LastWriterWins` | crates/traverse-coreml-adapter/src/package.rs:277-282 | A slot holds the last value written to it |
| `Strided.OtherBytesUnchanged` | crates/traverse-coreml-adapter/src/package.rs:277-282 | A byte outside every slot keeps its value |
| `Strided.WriteThenRead` | crates/traverse-coreml-adapter/src/package.rs:267-309 | Reading back returns the values exactly when equal offsets got equal values |
| `Strided.StridedRoundTrip` | crates/traverse-coreml-adapter/src/package.rs:267-309 | With pairwise distinct offsets, writing then reading returns the same bit patterns and leaves all other bytes alone |
| `Strided.OverlapLosesValue` | crates/traverse-coreml-adapter/src/package.rs:267-309 | Shape [2] with stride 0 and two different values: the write reports success and both elements read back as the second |
| `MlpackageZip.MlpackageEntries` | crates/traverse-coreml-adapter/src/package.rs:88-125 | Succeeds exactly on a chain of readable stored entries that ends at a central header, and returns the entries of the chain, within the bytes; otherwise the error is what stops the chain, a missing header or the first fault of the entry there |
| `MlpackageZip.StopUnique` | crates/traverse-coreml-adapter/src/package.rs:88-125 | A byte string has one such error |
| `MlpackageZip.LocalFaultExactly` | crates/traverse-coreml-adapter/src/package.rs:96-124 | Which of the four errors a local header gets: cut off, compressed or with a data descriptor or two sizes, badly named, or with its data cut off |
| `MlpackageZip.ArchiveUnique` | crates/traverse-coreml-adapter/src/package.rs:88-125 | A byte string is an archive in one way only |
| `MlpackageZip.SpansOrdered` | crates/traverse-coreml-adapter/src/package.rs:88-125 | Entries are ordered, disjoint slices within the bytes |
| `MlpackageZip.ArchiveRoundTrip` | crates/traverse-coreml-adapter/src/package.rs:88-125 | Laying out safely named stored entries (sections 4.3.7 and 4.3.12 of the PKWARE ZIP APPNOTE) gives bytes whose one reading is exactly those entries |
| `MlpackageZip.ArchiveExactly` | crates/traverse-coreml-adapter/src/package.rs:88-125 | The bytes that are read are exactly the layouts of one or more safely named stored entries, a central header and anything behind it |
| `MlpackageZip.HeaderFields` | crates/traverse-coreml-adapter/src/package.rs:97-102 | The fields of a laid out local header are read back at their offsets |
| `MlpackageZip.Signatures` | crates/traverse-coreml-adapter/src/package.rs:91-96 | The two signatures as they stand in the bytes |
| `EntryNames.SafePathComponents` | crates/traverse-coreml-adapter/src/package.rs:69-77 | A name whose parts are neither empty nor dots has only normal path components, one for each part |
| `EntryNames.SplitJoined` | crates/traverse-coreml-adapter/src/package.rs:71-71 | The parts joined by slashes give the name, and no part holds a slash |
| `EntryNames.PartsExactly` | crates/traverse-coreml-adapter/src/package.rs:71-71 | The parts are what stands between two slashes or ends |
| `EntryNames.Utf8Exactly` | crates/traverse-coreml-adapter/src/package.rs:112-116 | A name is well-formed UTF-8 exactly when it is the encoding of some text (section 3 of RFC 3629) |
| `EntryNames.SafeExactly` | crates/traverse-coreml-adapter/src/package.rs:69-77 | A name is safe exactly when it holds no backslash and no zero byte and no stretch of it between two slashes or ends is empty, `.` or `..` |
| `RunnerPatch.PatchRunner` | crates/traverse-cli/src/model_packaging.rs:645-722 | The patched module and layout, or the error of the first check that fails |
| `RunnerPatch.RunnerFacts` | crates/traverse-cli/src/model_packaging.rs:583-643 | One plain memory, the address of the exported static and the export names, or the first fact missing |
| `RunnerConditions.FactsExactly` | crates/traverse-cli/src/model_packaging.rs:583-643 | There are facts exactly when nothing is imported, one plain memory is declared, and the last export of the blob name that is a global is of one that starts out as a non-negative i32 constant: the address of the static; the names are those of the exports in order |
| `RunnerConditions.FactsMissing` | crates/traverse-cli/src/model_packaging.rs:591-637 | Otherwise the error is that of the first of these that is missing |
| `RunnerConditions.StaticInSections` | crates/traverse-cli/src/model_packaging.rs:602-637 | With one section of a kind, that export and that global are found in the export and global sections |
| `RunnerConditions.SectionsExactly` | crates/traverse-cli/src/model_packaging.rs:588-624 | Memories, globals, exports and segments are those of the sections, in order |
| `RunnerConditions.PatchedExactly` | crates/traverse-cli/src/model_packaging.rs:645-722 | A module comes out exactly if the runner has the facts and the four guest exports, the fewest pages that hold memory and blob are at most 2^16 and the maximum, offset and length fit, every active segment lies in memory 0 at a constant offset, each that holds the static holds eight 0xFF there, and one does; it is then the runner with the grown memory, one data segment more and the pointer in the static, every other byte and section as it was, and it is valid |
| `RunnerConditions.RefusedExactly` | crates/traverse-cli/src/model_packaging.rs:645-722 | A blob is refused exactly for the first of these that fails: the first missing export, the room, the offset, the first segment that cannot be patched, or no segment that holds the static |
| `RunnerPatch.RewriteSections` | crates/traverse-cli/src/model_packaging.rs:670-705 | Each section rewritten or copied in its place, and whether the static was found |
| `RunnerPatch.RewriteData` | crates/traverse-cli/src/model_packaging.rs:725-757 | Passive segments copied, active ones patched where they hold the static; other memories and computed offsets are errors |
| `RunnerPatch.PatchStatic` | crates/traverse-cli/src/model_packaging.rs:761-782 | Eight bytes are replaced in place exactly when the slice holds all of the static and it still is the sentinel |
| `RunnerMemory.PatchedInitialMemory` | crates/traverse-cli/src/model_packaging.rs:645-722 | The patched module starts with the memory of the runner, except that the eight bytes at the address that the last global exported under the blob name starts out as hold offset and length; the blob follows at the old end, then zeros |
| `RunnerMemory.PointerLandsExactlyIfSettled` | crates/traverse-cli/src/model_packaging.rs:725-782 | The pointer is what the static holds after instantiation, for every pointer, exactly when the last segment that touches the static holds all of it |
| `RunnerMemory.AllOrNoneSettles` | crates/traverse-cli/src/model_packaging.rs:725-782 | If every segment holds all of the static or none of it, that is so |
| `RunnerExample.PointerOverwritten` | crates/traverse-cli/src/model_packaging.rs:725-782 | A runner with a one-byte segment inside the static behind the sentinel: the patch succeeds, and the memory it starts with does not hold the pointer |
| `RunnerMemory.FewestPages` | crates/traverse-cli/src/model_packaging.rs:657-662 | Corollary: the page count holds memory and blob, is at most 2^16 and no smaller count would do |
| `RunnerMemory.OtherSectionsUnchanged` | crates/traverse-cli/src/model_packaging.rs:670-705 | Every section but memory, data and data count is copied in its place |
| `RunnerMemory.PatchOnlyOnce` | crates/traverse-cli/src/model_packaging.rs:775-779 | Patching a patched module always fails |
| `StateMachine.ValidateStateMachine` | crates/traverse-cli/src/app_state_machine_validate.rs:31-220 | Route violations of all states in order, then input violations in order |
| `StateMachine.MissingRoutesExactly` | crates/traverse-cli/src/app_state_machine_validate.rs:53-118 | Missing routes are reported for a state exactly when it has one kind of invoke and an unrouted event that this kind requires; the report lists exactly those events, in order |
| `StateMachine.MissingRoutesReported` | crates/traverse-cli/src/app_state_machine_validate.rs:31-220 | In the whole report an id has missing routes exactly when some state of that id does |
| `StateMachine.InvokeReportedExactly` | crates/traverse-cli/src/app_state_machine_validate.rs:53-118 | The main pass reports a state exactly as conflicting if both names say something, as empty if the invoke is no object or neither does, and for the required events that are missing otherwise |
| `StateMachine.InputReportedExactly` | crates/traverse-cli/src/app_state_machine_validate.rs:164-219 | The second pass reports a capability exactly as invalid if its input is neither the payload nor a named field of a host result, and as unreachable if no host connector reaches it |
| `StateMachine.ReportExactly` | crates/traverse-cli/src/app_state_machine_validate.rs:31-220 | A violation is in the whole report exactly when a state of that id has that fault |
| `StateMachine.FindHost` | crates/traverse-cli/src/app_state_machine_validate.rs:195-209 | The backward search ends and finds a host connector exactly when one reaches the state through one or more transitions, cycles or not |
| `StateMachine.IndexStates` | crates/traverse-cli/src/app_state_machine_validate.rs:132-155 | The reverse edges are the transitions turned round, and the flag of an id is that of its last state |
| `StateMachine.RecordTransitions` | crates/traverse-cli/src/app_state_machine_validate.rs:145-153 | The transitions of one state are added to the reverse edges |
| `StateMachine.UnreachableExactly` | crates/traverse-cli/src/app_state_machine_validate.rs:128-220 | The violation is reported for an id exactly when a state of that id wants a host result and no id flagged as host reaches it |
| `StateMachine.UnreachableWithDistinctIds` | crates/traverse-cli/src/app_state_machine_validate.rs:128-220 | With distinct ids, exactly when no host-connector state leads to it |
| `StateMachine.DuplicateIdsHideHost` | crates/traverse-cli/src/app_state_machine_validate.rs:132-155 | With repeated ids a later state can hide a host connector that does lead there |
| `StateMachine.ReportAgreesExactly` | crates/traverse-cli/src/app_state_machine_validate.rs:128-220 | The report tells for every id whether a host-connector state leads to it exactly when each consumer that such a state leads to is also reached from a flagged id |
| `EventCursors.PerKindCursor` | crates/traverse-cli/src/app_runtime_events.rs:264-274 | The greatest cursor of the kind not past the global one, or zero |
| `EventCursors.SignalsExactly` | crates/traverse-cli/src/app_runtime_events.rs:93-110 | Readers are told the signal that was published; any signal but three is published and told as an error |
| `EventCursors.SignalRoundTrip` | crates/traverse-cli/src/app_runtime_events.rs:93-110 | Every kind is published by the signal that it is told as |
| `EventCursors.PerKindPending` | crates/traverse-cli/src/app_runtime_events.rs:219-232 | Filtering a kind by its own cursor selects exactly the events past the global cursor |
| `EventCursors.CompleteExactly` | crates/traverse-cli/src/app_runtime_events.rs:219-232 | A collection misses nothing exactly while no kind has more than 1024 pending |
| `EventCursors.ResumeContinues` | crates/traverse-cli/src/app_runtime_events.rs:204-249 | Events after a cursor are those up to any later cursor followed by those after it |
| `EventCursors.ResumeExactly` | crates/traverse-cli/src/app_runtime_events.rs:204-249 | Going on from the last event offered misses nothing, whatever was published since, exactly when no kind held back an event that came before it |
| `EventCursors.RoundsCompleteExactly` | crates/traverse-cli/src/app_runtime_events.rs:204-249 | A reader that collects after every batch published, each time from its last event, has with what is still to come every event once and in order exactly when no round skips one |
| `EventCursors.OverfullKindLeavesGap` | crates/traverse-cli/src/app_runtime_events.rs:227-229 | 1025 state changes and then an error: going on from the error skips a state change |
| `AppEvents.SortedMergeIsOffered` | crates/traverse-cli/src/app_runtime_events.rs:241-247 | Sorting the four contributions by cursor restores publishing order |
| `AppEvents.CollectKind` | crates/traverse-cli/src/app_runtime_events.rs:219-234 | The first pending events of one kind, from its own cursor; or the mapped error of the subscription, or else of the poll, with the cursor text that each echoes |
| `AppEvents.KindErrorExactly` | crates/traverse-cli/src/app_runtime_events.rs:221-229 | Which error a reader gets from which of the two answers of the broker, and the cursor text that it echoes |
| `AppEvents.Collect` | crates/traverse-cli/src/app_runtime_events.rs:204-249 | Exactly the offered events of the subject after the cursor, in publishing order; a refused cursor is reported as such, and otherwise it fails exactly when the broker does, with the error of the first kind that fails |
| `AppEvents.KeepMatching` | crates/traverse-cli/src/app_runtime_events.rs:230-234 | The events that are of the application by their subject, or by the workspace and application that their data name, are appended in order |
| `AppEvents.KeptExactly` | crates/traverse-cli/src/app_runtime_events.rs:276-283 | What is kept is exactly what stands at the places of events with that subject or with data that name workspace and application, in order |
| `AppEvents.SubjectExactly` | crates/traverse-cli/src/app_runtime_events.rs:112-114 | Two applications share a subject exactly when they are the same or a slash inside a name can be read as the one between the names |
| `AppEvents.SubjectsApart` | crates/traverse-cli/src/app_runtime_events.rs:112-114 | Corollary: workspace names have no slash, so the subject tells workspace and application |
| `AppEvents.CursorTextExactly` | crates/traverse-cli/src/app_runtime_events.rs:222-225 | A cursor is sent in decimal, without leading zeros |
| `AppEvents.MapError` | crates/traverse-cli/src/app_runtime_events.rs:295-311 | An invalid cursor keeps its detail and names the cursor sent, an expired one keeps the oldest available, any other failure its text |
| `AppEvents.Publisher.Publish` | crates/traverse-cli/src/app_runtime_events.rs:151-202 | A refused event uses up a cursor and changes no log; an accepted one is logged under a new cursor, and the cursors stay strictly increasing exactly until the greatest cursor has been used |
| `AppEvents.GreatestCursorRepeats` | crates/traverse-cli/src/app_runtime_events.rs:165-166 | Any valid publisher one cursor before the greatest accepts two events under the greatest cursor, and its log no longer increases |
| `AppEvents.Publisher.constructor` | crates/traverse-cli/src/app_runtime_events.rs:151-202 | An empty log under cursor zero |

## Left out

- All file, socket, process and Core ML calls, telemetry, registry sync and transports: no algorithm of their own.
- SHA-256, Ed25519 and FNV digests and the supply-chain checks built on them.
- Field-by-field validators of `traverse-contracts/src/lib.rs`, registry rights and diagnostics, placement, app availability and the licensing rules outside SPDX expressions: single-branch checks that would add only easy members.
- `frame_bytes`, `bundle_bytes` and `check_frame_limits` of model packaging: short folds over tensor shapes.
- WebAssembly parsing and encoding: a module is its list of decoded sections, and the final validation is a parameter of which only "at most one section of a kind" is used.
- The JSON parser, protobuf, ONNX shape inference (a parameter assumed right where it knows a dimension) and the fixing of dynamic input dimensions to one.
- Floating point: tensors hold reals, quantised and integer tensors hold whole numbers, and a double in JSON is its sign, shortest digits and exponent; `f16` and `f64` conversions are parameters.
- Messages: errors keep their code and place; initial input is modelled by its serialized size, and a proposal's manifest reference is not modelled.
- Scheduling.LowerDegrees: visits successors in any order instead of id order; counts and ready set do not depend on it.
- SpdxTokenizer.Tokenize: offsets count characters instead of bytes.
- EntryNames.SafePathComponents: path components follow the rules of Unix paths.
- OnnxGraph: names are the model's own or made-up ones built from a prefix, a suffix or a node name; that concatenated strings do not collide with names of the model is part of the model. Graphs with sub-graphs are not modelled, and an absent optional input counts as a name with a value.
- ConvPads.ExplicitConv: ONNX Conv nodes that carry both `auto_pad` and `pads` are outside the model.
- PrepassValues.PrepassKeepsValues: a Conv or Slice that reads a loose name and is rewritten is asked to tolerate it as rewritten; the static shapes behind the rewrite say nothing about more axes.
- MatmulPass.PassKeepsValues: for quantised tensors with an axis and an element other than zero; a matrix product wants an axis, and on an all-zero tensor both forms divide by zero.
- OnnxGraph.Apply: arithmetic broadcasts as in numpy; the inside of Conv and MatMul and every operator the pre-pass does not touch is a parameter.
- AppEvents.Collect: the broker is assumed to return the first 1024 events of kind and subject after the cursor, in order; validation of the reader's last id is a parameter. An identifier is its place in the order of identifiers.
