# RC-tree buffer insertion, modelled and verified in Dafny

This project models the buffer-insertion pass of `main.cpp` and the binary record reader of
`binary_read.py`. `main.cpp` reads an RC interconnect tree and computes Elmore capacitances and
delays. It then inserts inverters so that every buffering stage meets the time constraint, and
reconciles inverter polarity at every junction. Finally it dumps the rewritten tree as text and
as a binary record stream. `binary_read.py` frames that stream back into records.

Modules, in dependency order:

- `RcTree` (`rc_tree.dfy`): the global electrical parameters as a `Config` value. It also has
  the node kinds and `Tree`, the value of a `Node*` subtree.
- `Nodes` (`nodes.dfy`): `struct Node` as a heap class. Its ghost footprint `Repr` makes the
  tree acyclic and unshared. `Model()` maps a node to its `Tree` value, and every heap method
  below is proved against a value-level function through `Model()`.
- `Solver` (`solver.dfy`): `solveQuadratic` and the facts about the root it returns.
- `Builder` (`builder.dfy`): `parseTree` as a postfix stack machine, `Run`/`Build`, and the
  heap `ParseTree` proved against it. Also the π-model reference tree `Fresh` and
  conservation of capacitance.
- `Elmore` (`elmore.dfy`): `capacitancePostOrder`, `delayPreOrder` and `elmoreDelay`. Each is a
  value fold (`CapFold`, `DelayFold`, `DelayRecords`) plus a heap method proved against it.
- `Segmentation` (`segment.dfy`): the loop of `inverterSegmentation` as `Chain`/`Segment`, and
  the heap loop proved against it.
- `Insertion` (`insertion.dfy`): `insertionPostOrder` and `inverterInsertion` on values. This
  covers re-parenting, adoption of the chain above each child, polarity reconciliation, and
  preservation of shape and polarity.
- `InsertionHeap` (`insertion_heap.dfy`): the same pass rewriting `Node` objects in place. It
  is proved against `Insertion` with `repatch` off, which is the code as written.
- `Bytes`, `BinaryRead` (`bytes.dfy`, `binary_read.dfy`): int32 little-endian coding and
  `read_tree_bin_file` as a `Decode` function. A loop proved against `Decode`, and the
  round-trip and truncation behaviour.
- `Serializer` (`serializer.dfy`): `preOrderTraversal`, `postOrderTraversalOutput3` and
  `write3rdOutputPost`. Includes re-parsing of the text dump and decoding of the binary dump.
- `FixtureNet`/`Fixture` (`fixture.dfy`): a worked two-leaf net, with its built tree and
  delays computed exactly.
- `StaleNet`/`StaleStages`/`StaleJunction` (`stale.dfy`): a three-leaf net on which the code as
  written leaves a junction's Elmore capacitance stale (see Findings).

Doubles are modelled as `real`. `std::sqrt` is a parameter `sqrt: real -> real`; facts that
need it assume only `SqrtSpec`. The eight bytes of a written double are `f64(x)`, a parameter.
Streams are sequences: a text file is a `seq<TextLine>` of tokenised lines, and a binary file
is a `seq<Byte>`.

## Model

| member | source | states |
|---|---|---|
| `RcTree.InverterTree` | main.cpp:342-358 | An inverter put over a child has that child as its only (left) child and the given cut wire. Its polarity is the opposite of the child's. |
| `Nodes.Node.LeafNode` | main.cpp:44-47 | A new leaf object is valid, freshly allocated, and its value is a childless leaf with zeroed derived fields. |
| `Nodes.Node.BridgeNode` | main.cpp:49-52 | A new junction owns the two disjoint child subtrees. Its value has label -1 and the given wires and children. |
| `Nodes.Node.InverterNode` | main.cpp:54-59 | A new inverter is childless with input capacitance `cap` and cut wire `wire_left`. |
| `Nodes.Node.Inverter` | main.cpp:342-358 | An inverter object with its wire, child, capacitances and polarity filled in has exactly the value `InverterTree`. |
| `Nodes.Node.SetElmore` | main.cpp:226 | Writing `elmore_capacitance` changes that field of the value and nothing else. |
| `Nodes.Node.SetDelay` | main.cpp:237 | Writing `elmore_delay` changes that field of the value and nothing else. |
| `Nodes.Node.SetPolarity` | main.cpp:451 | Writing `polarity` changes that field of the value and nothing else. |
| `Nodes.Node.AddLoad` | main.cpp:157-160 | Adding to `total_capacitance` changes only that field, by the amount added. |
| `Nodes.Node.SwapLeft` | main.cpp:390-399 | Linking a new left child keeps the node valid and takes the new child's footprint in. The right subtree is untouched and the value gets the new child, wire and capacitances. |
| `Nodes.Node.SwapRight` | main.cpp:409-419 | The same for the right child. |
| `Solver.SolveQuadratic` | main.cpp:264-300 | A negative discriminant gives the sentinel -1. With a positive discriminant any other answer is non-negative. |
| `Solver.DoubleRoot` | main.cpp:274-275 | With a zero discriminant the value returned, -B/2A, is a root. |
| `Solver.Factored` | main.cpp:267-279 | If s squared is the discriminant, the polynomial is A times the product of its distances to the two formula roots. |
| `Solver.TwoRoots` | main.cpp:276-279 | A number is a root exactly when it is one of the two formula roots (both directions). |
| `Solver.LargerRoot` | main.cpp:276-296 | With a positive discriminant, a non-sentinel answer is a non-negative root no smaller than any root. The sentinel means every root is negative. |
| `Solver.SolutionIsRoot` | main.cpp:264-300 | With a non-negative discriminant the answer is a root, unless it is the sentinel after a positive discriminant. |
| `Solver.SentinelCollision` | main.cpp:268-275 | For A=1, B=2, C=1 the genuine double root -1 is returned and cannot be told apart from "no solution". |
| `Solver.NegativeDoubleRoot` | main.cpp:274-275 | The zero-discriminant branch returns a negative root (-2 for A=1, B=4, C=4) with no sign check. |
| `Solver.SolverExamples` | main.cpp:264-300 | A=1, B=-3, C=2 gives 2, and A=1, B=0, C=1 gives -1. |
| `Segmentation.Segment` | main.cpp:310-328 | When the unbuffered stage already meets `time_constraint` minus the branch delay, the node comes back unchanged. |
| `Segmentation.ChainTurn` | main.cpp:328-372 | One loop turn. If the solver says -1 the current top is returned. Otherwise the loop continues from a new inverter with cut wire `temp_l - new_l` and the full time constraint as budget. |
| `Segmentation.ChainExit` | main.cpp:328-377 | When the stage meets its budget the current top is returned. |
| `Segmentation.ChainShape` | main.cpp:328-377 | The result is a chain of well-formed inverters over the same bottom node, and the wire length (remaining plus spanned) is conserved. Either nothing changed, or the top is an inverter whose cut wire is the remaining length and whose budget is the full constraint. |
| `Segmentation.ChainMeets` | main.cpp:324-375 | The tracked `stage_delay` always equals the stage delay of the current top at the remaining length. A normal loop exit means that stage meets its budget. |
| `Segmentation.SegmentShape` | main.cpp:302-378 | On a leaf or junction: a well-formed inverter chain whose bottom is the node and whose wires add up to `l`. The final stage delay is tracked, and met on a normal exit. |
| `Segmentation.StageOf` | main.cpp:315-324 | The stage delay read off a node object is the stage delay of its value. |
| `Segmentation.NextLength` | main.cpp:329-335 | The length tried next is the solver applied to the loop's coefficients, with C less the budget. |
| `Segmentation.PutInverter` | main.cpp:342-367 | A fresh inverter object is put over `temp`. Its value is `InverterTree` and the returned stage delay is that inverter's. |
| `Segmentation.Advance` | main.cpp:328-372 | One loop turn on the heap follows `Chain`: stop at the current top, or continue from the new inverter with one less fuel. |
| `Segmentation.InverterSegmentation` | main.cpp:302-378 | The returned node's value is the chain top `Segment` computes. Only fresh objects are added. |
| `Builder.Join` | main.cpp:149-160 | The new junction has the given wires. Each child gains half its wire's capacitance, and the junction gains the sum of those two halves. |
| `Builder.Step` | main.cpp:127-163 | A leaf line pushes a node whose total is its capacitance. A junction line needs two stacked nodes (failing exactly when fewer) and replaces them by a junction over the loaded pops, right popped first. Any other line leaves the stack alone. |
| `Builder.PiModel` | main.cpp:137-160 | The π-model tree of a shape is built, inverter-free, and has that shape. |
| `Builder.PiModelLoad` | main.cpp:157-158 | Loading a π-model root with half a wire gives the π-model seen from that wire. |
| `Builder.RunShapeLines` | main.cpp:127-164 | Running the postfix lines of a shape pushes exactly that shape's π-model tree. |
| `Builder.JoinPiModel` | main.cpp:149-160 | Joining two π-models gives the π-model of the joined shape. |
| `Builder.BuildShapeLines` | main.cpp:117-177 | The postfix lines of any shape build `Fresh(shape)`, whose root is also loaded with `inv_output_cap`. |
| `Builder.StepKeepsPiForm` | main.cpp:127-163 | Every stacked tree stays in π-model form across one line. |
| `Builder.RunKeepsPiForm` | main.cpp:127-164 | Every stacked tree stays in π-model form across any number of lines. |
| `Builder.BuildIsFresh` | main.cpp:117-177 | Every tree the builder returns is built, has digit labels, and is the fresh π-model of its own shape. |
| `Builder.PiModelConserves` | main.cpp:139-160 | The totals of a π-model sum to the leaf capacitances plus unit capacitance times total wire length plus half the wire above it. |
| `Builder.BuildConservesCapacitance` | main.cpp:137-172 | The totals of a built tree sum to the leaf capacitances plus unit capacitance times total wire length plus `inv_output_cap`. |
| `Builder.DropOther` | main.cpp:128-144 | Filtering leaves no skipped line. |
| `Builder.RunDropOther` | main.cpp:128-144 | Empty and unrecognised lines do not affect the stack machine. |
| `Builder.SkippedLines` | main.cpp:128-144 | Building ignores empty and unrecognised lines. |
| `Builder.RunEmpty` | main.cpp:127-169 | The stack ends empty exactly when it started empty and every line was skipped. |
| `Builder.BuildNull` | main.cpp:166-169 | The builder returns NULL exactly when no line is a leaf or junction line. |
| `Builder.PushLeaf` | main.cpp:131-141 | Pushing a fresh leaf on the object stack follows `Step` on the values. |
| `Builder.JoinNodes` | main.cpp:149-160 | A fresh junction object over the two loaded children has the value `Join`. |
| `Builder.LoadChildren` | main.cpp:157-158 | Each child's total grows by its half wire. Footprints and everything else are kept. |
| `Builder.JoinBeneath` | main.cpp:149-162 | Joining the top two objects leaves the rest of the stack valid and unchanged. |
| `Builder.PopJunction` | main.cpp:144-163 | Popping two objects and pushing their junction follows `Step` on the values. |
| `Builder.ParseLine` | main.cpp:127-164 | One line on the object stack fails exactly when `Step` fails, and otherwise follows it. |
| `Builder.ParseTree` | main.cpp:117-177 | Underflow exactly when `Build` fails. Otherwise the root (possibly null) is freshly allocated and has the value `Build` computes. |
| `Elmore.CapFold` | main.cpp:218-230 | Null stays null, and every node keeps its kind and total. |
| `Elmore.CapFoldConsistent` | main.cpp:218-230 | Afterwards every node's elmore is its total plus its children's elmores. The root's elmore is the sum of all totals. |
| `Elmore.CapFoldOnlyElmore` | main.cpp:226 | The fold changes elmore fields and nothing else. |
| `Elmore.CapFoldFixesConsistent` | main.cpp:218-230 | A tree that is already consistent is left exactly as it is, so the fold is idempotent. |
| `Elmore.CapFoldNonNeg` | main.cpp:218-230 | Non-negative totals give non-negative elmores. |
| `Elmore.DelayFold` | main.cpp:231-245 | Null stays null, and every node keeps its kind and elmore. |
| `Elmore.DelayFoldStep` | main.cpp:236-244 | A node's delay is the incoming delay plus resistance times its elmore. Each child continues from it with unit resistance times its wire. |
| `Elmore.LeafDelays` | main.cpp:239-242 | One record per leaf. |
| `Elmore.DelayRecordsAreLeaves` | main.cpp:231-245 | The records written are the (label, delay) pairs of the leaves of the folded tree, in pre-order. |
| `Elmore.LeafDelaysLabels` | main.cpp:239-242 | The record labels are the leaf labels in pre-order. |
| `Elmore.DelayFoldKeepsLeaves` | main.cpp:231-245 | The fold keeps every leaf and its label. |
| `Elmore.DelayStream` | main.cpp:231-245 | The written stream is the folded leaves' delays: one record per leaf, labels in pre-order. |
| `Elmore.DelayFoldOnlyDelay` | main.cpp:237 | The fold changes delay fields and nothing else. |
| `Elmore.DelayFoldMonotone` | main.cpp:236-244 | With non-negative parameters, wires and elmores, no node's delay is below its parent's or the incoming delay. |
| `Elmore.PiModelNonNeg` | main.cpp:137-160 | Non-negative parameters and shape give non-negative totals and wires. |
| `Elmore.AnalysisOfFresh` | main.cpp:247-262 | On a freshly built tree the analysis leaves every elmore consistent and delays monotone. The root's delay is `inv_output_res` times the sum of totals, and the written records are the leaves in pre-order. |
| `Elmore.AnalysisOfNonNeg` | main.cpp:247-262 | The same for any tree with non-negative totals and wires. |
| `Elmore.AnalysisRootDelay` | main.cpp:251-258 | The root's delay is `inv_output_res` times the sum of all totals. |
| `Elmore.AnalysisStream` | main.cpp:247-262 | The records are the analysed leaves, labelled in pre-order. |
| `Elmore.CapacitancePostOrder` | main.cpp:218-230 | Every object below the node gets the value `CapFold` computes. The returned capacitance is the node's new elmore, or 0 for null. |
| `Elmore.CapacitanceAt` | main.cpp:223-228 | The same for a non-null node. |
| `Elmore.DelayPreOrder` | main.cpp:231-246 | Every object below gets the value `DelayFold` computes, and the records appended are `DelayRecords`. |
| `Elmore.DelayAt` | main.cpp:236-244 | The same for a non-null node. |
| `Elmore.ElmoreDelay` | main.cpp:247-262 | Capacitance fold, then delay fold from `inv_output_res`. The tree ends as `Analyse` computes and the records are `AnalysisRecords`. |
| `Fixture.FixtureBuilds` | main.cpp:117-177 | The two-leaf postfix text builds exactly the expected π-model tree. |
| `Fixture.FixtureRoot` | main.cpp:218-258 | The root's elmore capacitance and delay are both 0.0033. |
| `Fixture.FixtureAnalysis` | main.cpp:231-262 | The delay stream is (1, 0.00435) then (2, 0.00535). |
| `Insertion.Reparent` | main.cpp:389-419 | The inverter replaces the child and the wire becomes its cut wire. The other side and every non-capacitance field are kept. The total trades the old half wire for the new one, and the Elmore drift is unchanged. |
| `Insertion.Branch` | main.cpp:506-508 | At a junction the branch delay is the larger of the two edge delays. It is 0 at a leaf. |
| `Insertion.Adopt` | main.cpp:385-424 | The child slot holds the returned inverter (with its cut wire) or the processed child (with the old wire), and the other side is kept. With the repatch the drift is kept. As written it grows by the child's change in elmore. |
| `Insertion.Reconcile` | main.cpp:426-489 | Afterwards both children share the junction's polarity. Each child is either kept or wrapped in a zero-cut inverter, and the drift is kept. |
| `Insertion.Process` | main.cpp:379-489 | Kind and which children exist are kept. |
| `Insertion.LiftShape` | main.cpp:492-512 | The chain put over a processed node is well-formed inverters over it, with the edge length conserved. |
| `Insertion.ProcessBridge` | main.cpp:379-489 | A junction is processed left child first, then right child, then reconciled. |
| `Insertion.AdoptEdge` | main.cpp:385-424 | After adoption the child slot holds a well-formed chain over the processed child, and wire plus chain span equals the old wire. |
| `Insertion.ProcessChildren` | main.cpp:379-489 | After a junction is processed, both slots hold chains over the processed children with wire lengths conserved, and both children share the junction's polarity. The drift changes exactly by the children's elmore changes as written, and not at all with the repatch. |
| `Insertion.ProcessShape` | main.cpp:379-515 | Erasing the inverters gives back the input's shape (labels, capacitances, wires). Each junction's wire plus the chain under it equals its old wire. |
| `Insertion.InsertShape` | main.cpp:379-522 | The whole pass changes nothing but where inverters are. |
| `Insertion.FixInverterOk` | main.cpp:430-437 | The zero-length inverter of polarity reconciliation is well formed. |
| `Insertion.ProcessPolarity` | main.cpp:426-489 | After processing, every junction's children have the junction's polarity and every inverter is well formed. |
| `Insertion.InsertPolarity` | main.cpp:379-522 | The same after the chain above the node. |
| `Insertion.ProcessDriftAsWritten` | main.cpp:385-424 | As written, a junction's drift grows by how much each child's elmore fell while that child was processed. |
| `Insertion.ProcessDecoupled` | main.cpp:385-424 | With the repatch, a consistent built tree is processed into one where every node's elmore is its total plus its children's, and every inverter's is its own total. |
| `Insertion.InsertDecoupled` | main.cpp:379-522 | The same for the whole pass. |
| `InsertionHeap.Reparent` | main.cpp:389-419 | Re-parenting an object on either side has the value `Insertion.Reparent`. |
| `InsertionHeap.ReparentLeft` | main.cpp:389-399 | Re-parenting on the left has the value `Insertion.Reparent` with the right subtree untouched. |
| `InsertionHeap.ReparentRight` | main.cpp:408-419 | Re-parenting on the right has the value `Insertion.Reparent` with the left subtree untouched. |
| `InsertionHeap.FixInverter` | main.cpp:430-437 | The reconciling inverter has the opposite polarity to the child it wraps. |
| `InsertionHeap.ReconcileCases` | main.cpp:428-484 | Left 0 with right 1 wraps the left child, and left 1 with right 0 wraps the right child. In each case the junction then takes the inverter's polarity. |
| `InsertionHeap.FixLeft` | main.cpp:430-451 | A fresh zero-cut inverter over the left child is re-parented and its polarity is copied to the junction. |
| `InsertionHeap.FixRight` | main.cpp:457-481 | The same over the right child. |
| `InsertionHeap.ReconcileAt` | main.cpp:426-489 | Polarity reconciliation on the heap has the value `Reconcile`. |
| `InsertionHeap.BranchAt` | main.cpp:506-508 | `child_time_constraint` read off the objects equals `Branch` of the value. |
| `InsertionHeap.AdoptAsWritten` | main.cpp:386-424 | As written, adoption is re-parenting when an inverter came back, and otherwise nothing. |
| `InsertionHeap.DescendLeft` | main.cpp:385 | The recursive call rewrites the left child to `Process` of it and returns the top `Insert` computes. The node and its right side are untouched. |
| `InsertionHeap.ProcessLeft` | main.cpp:385 | The same, seen from the node: its value gets the processed left child. |
| `InsertionHeap.AdoptLeft` | main.cpp:385-403 | Processing and adopting the left child has the value `Adopt`. |
| `InsertionHeap.DescendRight` | main.cpp:404 | The recursive call on the right child, as for the left. |
| `InsertionHeap.ProcessRight` | main.cpp:404 | The same, seen from the node. |
| `InsertionHeap.AdoptRight` | main.cpp:404-424 | Processing and adopting the right child has the value `Adopt`. |
| `InsertionHeap.ProcessIsReconciled` | main.cpp:385-489 | Processing is reconciliation after both adoptions. |
| `InsertionHeap.AdoptChildren` | main.cpp:385-424 | Both recursive halves, in the code's order. |
| `InsertionHeap.ProcessNode` | main.cpp:379-489 | A node's objects end with the value `Process`. Only fresh inverters are added. |
| `InsertionHeap.ProcessAt` | main.cpp:379-512 | The returned top has the value `Insert`, the node itself has the value `Process`, and the top's footprint contains the node's. |
| `InsertionHeap.InsertionPostOrder` | main.cpp:379-515 | Null gives null. Otherwise the returned top has the value `Insert`. |
| `InsertionHeap.InverterInsertion` | main.cpp:517-522 | The pass from the root with edge length 0 has the value `InverterInsertion`. |
| `StaleNet.StaleParameters` | main.cpp:11-18 | Concrete parameters under which every stage delay is `l^2 + load l`. |
| `StaleStages.SegmentA` | main.cpp:302-378 | Leaf 1 on its edge of length 4 gets exactly one inverter at distance 2. |
| `StaleStages.SegmentB` | main.cpp:310-328 | Leaf 2 on its edge of length 1 meets the constraint unbuffered. |
| `StaleJunction.ProcessInner` | main.cpp:379-512 | The inner junction is processed into the expected tree, its elmore falling by 6. |
| `StaleJunction.StaleRootConsistent` | main.cpp:218-230 | The input net is built and Elmore-consistent. |
| `StaleJunction.StaleRootDrift` | main.cpp:385-424 | As written, the root's elmore ends 6 above its total plus its children's. |
| `StaleJunction.StaleRootRepatched` | main.cpp:385-424 | With the repatch the same root ends consistent. |
| `Bytes.Int32Le` | main.cpp:545-550 | An int is written as four bytes. |
| `Bytes.DecodeInt32` | binary_read.py:34 | Four bytes read as `=i` give an int32. |
| `Bytes.DecodeInt32Le` | binary_read.py:34 | Every int32 written is read back unchanged. |
| `Bytes.Int32LeDecode` | binary_read.py:34 | Every four bytes are the encoding of the int32 they are read as. |
| `Bytes.MinusOneBytes` | main.cpp:545-547 | The internal tag -1 is written as four 0xff bytes. |
| `BinaryRead.Read` | binary_read.py:29-49 | `f.read(n)` gives the next n bytes, or all that remain when fewer do. |
| `BinaryRead.RecordBytes` | binary_read.py:5-8 | A leaf record is 12 bytes and an internal record is 24. |
| `BinaryRead.Encode` | binary_read.py:5-8 | The bytes of a record sequence have the sum of their sizes. |
| `BinaryRead.NextRecord` | binary_read.py:28-57 | Stop exactly on an empty stream. The header error happens exactly on 1 to 3 bytes. A record returned is well tagged, fits the stream, and its bytes are the stream's first bytes. |
| `BinaryRead.Decode` | binary_read.py:20-57 | The empty stream yields nothing and no error, and 1 to 3 bytes give the header error. |
| `BinaryRead.DecodeIsPrefix` | binary_read.py:20-57 | The records yielded are, in order, exactly the bytes the stream starts with. Iteration ends without error exactly when they cover the whole stream. |
| `BinaryRead.NextRecordBytes` | binary_read.py:34-57 | A well-tagged record followed by anything is read back as that record. |
| `BinaryRead.NextRecordCut` | binary_read.py:32-51 | A stream holding only part of a record fails with the error for the part being read: header, internal body or leaf body. |
| `BinaryRead.DecodeCons` | binary_read.py:28-57 | A record's bytes before a stream yield that record, then whatever the stream yields. |
| `BinaryRead.DecodeEncode` | binary_read.py:20-57 | Any well-tagged records, encoded, are read back exactly, with no error. |
| `BinaryRead.DecodeTruncated` | binary_read.py:20-57 | Whole records followed by a cut record yield the whole records, then the error for where the cut fell. |
| `BinaryRead.ReadRecord` | binary_read.py:29-57 | One turn of the generator's loop frames the record `NextRecord` describes and moves past it. |
| `BinaryRead.ReadTreeBinFile` | binary_read.py:20-57 | The records yielded and the error raised are exactly what `Decode` gives. |
| `Serializer.PreOrderLabels` | main.cpp:179-203 | The leaf labels of the pre-order dump are the tree's leaf labels in pre-order. |
| `Serializer.PreWriteNode` | main.cpp:184-198 | A leaf writes its label line, a junction its wire line, and an inverter nothing. |
| `Serializer.PreOrderTraversal` | main.cpp:179-203 | The lines appended are the pre-order dump of the subtree. |
| `Serializer.RecordOf` | main.cpp:531-563 | A node with a valid label gets a well-tagged record. |
| `Serializer.PostOrderLines` | main.cpp:524-565 | One text line per node. |
| `Serializer.PostOrderRecords` | main.cpp:524-565 | One binary record per node, all well tagged. |
| `Serializer.PostOrderBytesFrame` | main.cpp:524-565 | The bytes written are the encoding of the post-order records. |
| `Serializer.WriteNode` | main.cpp:531-563 | A node's text line and its bytes, in `fwrite` order, are its line and its record's encoding. |
| `Serializer.PostOrderTraversalOutput3` | main.cpp:524-565 | The text and bytes appended are the post-order lines and bytes of the subtree. |
| `Serializer.SentinelCount` | main.cpp:581-599 | One or two sentinels, so that their number plus the root's polarity is even. |
| `Serializer.Sentinels` | main.cpp:581-599 | That many well-tagged sentinel records. |
| `Serializer.ThirdOutput` | main.cpp:567-604 | One text line per node plus one per sentinel. |
| `Serializer.Write3rdOutputPost` | main.cpp:567-604 | The two files hold exactly `ThirdOutput` of the root. |
| `Serializer.PostOrderIsPostfix` | main.cpp:524-565 | The post-order text of a built tree, re-read, is the postfix line sequence of its shape. |
| `Serializer.PostOrderReparses` | main.cpp:524-565 | `parseTree` on the post-order text of a built tree builds the fresh tree of the same shape. |
| `Serializer.BuiltTreeRoundTrip` | main.cpp:117-177 | A tree straight from the builder is rebuilt exactly from its own post-order text. |
| `Serializer.PreOrderDoesNotReparse` | main.cpp:179-203 | `parseTree` on the pre-order text of any tree with a junction root fails with a stack underflow on the first line. |
| `Serializer.DecodeThirdOutput` | main.cpp:567-604 | `read_tree_bin_file` on the binary dump yields every node's record in post-order, then the sentinels, with no error. |
| `Serializer.PostOrderAgree` | main.cpp:531-561 | Line by line, the text and binary post-order dumps describe the same node: label and capacitance, or left wire and flag. |
| `Serializer.ThirdOutputAgrees` | main.cpp:567-599 | The same for the whole output, sentinels included. |

## Left out

- File I/O: opening and closing files, the failure returns of `parseTree`, `writePre`,
  `elmoreDelay` and `write3rdOutputPost` when a file cannot be opened, and the console messages.
  Streams are sequences passed in and returned.
- `storeWireParams`, `storeInvParams` (main.cpp:63-115), `main` and `freeMyTree` are not part of
  this model. The parameters are a `Config` value given to every operation.
- `writePre` (main.cpp:205-216) is only a file wrapper around `preOrderTraversal`, which is
  modelled.
- `binary_debug.cpp` and `main` of binary_read.py (argument handling, printing) are not part of
  this model.
- Text parsing and formatting: a line is a token (`LeafLine(label, cap)`, `JunctionLine(lw,
  rw)`, or skipped). `std::scientific` number formatting and `stringstream` parsing are not
  modelled, and a leaf label is assumed to parse to a non-negative int.
- Floating point: doubles are exact reals. Rounding, overflow, infinities and NaN are not
  modelled, and so not the comparison `new_l == -1` on a rounded value either.
- IEEE-754 encoding of a double: the eight bytes of `fwrite(&x, sizeof(double))` are `f64(x)`,
  a parameter. The reader keeps them as bytes.
- Byte order: both sides are modelled on a little-endian host (`=` in `struct.unpack` and a raw
  `fwrite`).
- `std::sqrt`: a parameter. The facts that need it assume only that it returns the
  non-negative root of a non-negative number.
- Solver.SolveQuadratic: requires `A != 0`. In C++ a zero A divides by zero, and A is
  `unit_wire_cap * unit_wire_res / 2` for every call, so the pass requires `StageA() != 0`.
- Segmentation.Segment: the `while` in `inverterSegmentation` has no bound, so the model takes a
  `fuel` count and stops when it runs out (`OutOfFuel`). All facts hold for every fuel.
- InsertionHeap.ProcessAt: the heap pass follows the code as written (`repatch` off). The
  repatched junction update of the Findings row is modelled on values only.
- Serializer.Write3rdOutputPost: requires a non-null root, because `root->polarity` is read
  unconditionally (main.cpp:591).
- Serializer.RecordOf: leaf labels outside the int32 range are not modelled (`LabelsOk`).
- The binary reader's docstring says records come in pre-order, but `write3rdOutputPost` writes
  them in post-order. The model follows the writer.
- Only the post-order text dump can be fed back to `parseTree`, which is a postfix stack
  machine. The pre-order dump cannot: `Serializer.PreOrderDoesNotReparse` shows it fails on its
  first junction line.
- On a junction line with fewer than two stacked nodes, C++ `std::stack::top` is undefined
  behaviour. The model returns `StackUnderflow` instead.
- The console messages inside `insertionPostOrder` are not modelled.

## Findings

| source | as written | input that shows it | evidently intended | confidence | as-written member | corrected member |
|---|---|---|---|---|---|---|
| main.cpp:385-424 | A junction patches its `elmore_capacitance` only when an inverter is put directly above a child, subtracting that child's elmore at that moment. A child junction whose own elmore fell because an inverter was inserted below it leaves the parent's elmore stale. | Post-order lines `1(1)`, `2(1)`, `(4 1)`, `3(1)`, `(0 1)`, unit wire R 1 and C 2, inverter input C 1, output C and R 0, time constraint 6: the root's elmore ends 6 above its total plus its children's | Every non-inverter node's elmore stays its total plus its children's elmores, and every inverter's is its own total, so later `child_time_constraint` and stage loads are computed from current values | not executed | `StaleJunction.StaleRootDrift` | `StaleJunction.StaleRootRepatched` |
