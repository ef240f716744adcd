# marekvs, modelled and proved in Dafny

marekvs is a replicated key-value store that speaks the Redis protocol, with
structured documents that can be diffed and merged. This project models its
hardest logic and proves what the code is for:

- **Structured diff.** Matching two document trees, the change graph of a
  matching, planning any accepted selection of changes, text diff and
  formatting, and three-way merging.
- **Convergence.** Observed-remove elements, counters, registers, Merkle
  anti-entropy between replicas, and the replication ring.
- **Documents as records.** Array order from anchors, decomposing a JSON value
  into records and rebuilding it, copying a protobuf document under fresh ids,
  byte paths, and prefix scans over internal keys.
- **Placement and parsing.** Zone-aware rendezvous placement, the incremental
  RESP parser and the snapshot skipper of the replication client.

Loops of the source are methods with invariants, proved against functions;
objects whose methods update fields (`Matching`, `Ring`, `RespParser`,
`RdbSink`) are classes. What the source promises is proved about the functions
and states as lemmas. `dafny verify dfyconfig.toml` checks everything.

| part | modules |
|---|---|
| trees, changes, planning | Model, Trees, Graphs, Matchings, Lis, Classify, Deletions, Build, PlanSpec, Emission, Structure, Layouts, Replay, Untouched, AnchorOrder, AnchorPlaces, Planner, PlanOrder, PlanEffect, Diff, MergeGraphs, MergeClashes |
| text and formatting | Myers, TextDiff, ShortestEdits, Runs, RunImages, Compose, TextMerge, FormatMerge |
| elements, counters, repair | TopSets, OrElements, OrLaws, OrCap, CounterFields, Counters, CounterLaws, CounterRuns, AntiEntropy, Convergence |
| ring | RingBuffer, RingRuns |
| documents and keys | Rga, RgaLaws, RgaWalk, RgaStable, RgaChain, RgaSiblings, Lex, JsonDoc, JsonBuild, JsonTrip, JsonOrder, Delimited, Numerals, Framing, PathCodec, ProtoDocs, ProtoPaths, ProtoCopy, KeyRanges, DocKeys |
| placement | Placement, PlacementLaws, Rebalance, OwnerRank |
| parsing | Resp, RespStream, RespEncode, RespInline, RdbSkipping |
| shared | Options, ByteStrings, Sorting |

How the model abstracts: node identities are positions in the tree arena
(`A(i)` in the base, `B(i)` in the target), change ids are an injective digest
of the operation, hashes of keys and records stand for the keys and records,
dots and versions are single numbers that order like their (hlc, origin) pairs,
and clocks, scores and id supplies are parameters. Budgets other than the
Myers work limit, and cancellation, are unlimited.

## Model

| member | source | states |
|---|---|---|
| Planner.AcceptAll | crates/marekvs-diff/src/plan.rs:92-439 | for every base, target and one-to-one kind-respecting matching, accepting every change succeeds and emits exactly the target: kinds, attributes, text, runs and child order |
| Planner.DiffAndApply | crates/marekvs-diff/src/graph.rs:254-465 | building the graph of a matching, accepting everything and planning returns the target document |
| Diff.DiffAndApply | crates/marekvs-diff/src/lib.rs:108-141 | the whole pipeline (match, build, plan, apply) turns any tree into any other, whatever the near and align phases propose |
| Planner.AcceptNone | crates/marekvs-diff/src/plan.rs:222-439 | accepting nothing succeeds and returns the base |
| Planner.PlanIsTree | crates/marekvs-diff/src/plan.rs:246-439 | a successful plan of any selection emits each survivor exactly once; survivors are exactly the nodes with a parent chain to the root free of deleted and unaccepted nodes |
| Planner.PlanKeepsOrder | crates/marekvs-diff/src/plan.rs:341-379 | accepted placements that resolve to the same anchor stay in graph order |
| Planner.MakePlan | crates/marekvs-diff/src/plan.rs:92-439 | planning succeeds exactly on selections that validate, resolve, compose and emit a legal document; otherwise it reports exactly the unresolved groups |
| Planner.FindSurvivors | crates/marekvs-diff/src/plan.rs:268-305 | the climbing loop finds the survivors and the change groups of every parent cycle |
| Emission.EmitsSurvivors | crates/marekvs-diff/src/plan.rs:393-439 | recursive emission from the root lists exactly the survivors, each once |
| Replay.AcceptAllYieldsTarget | crates/marekvs-diff/src/plan.rs:341-439 | placing all moves and inserts by their anchor chains rebuilds every child list of the target |
| Untouched.AcceptNoneYieldsBase | crates/marekvs-diff/src/plan.rs:222-439 | without accepted changes the loaded structure shows the base |
| AnchorOrder.SameAnchorKeepsOrder | crates/marekvs-diff/src/plan.rs:350-379 | the insertion loop keeps the order of placements that share parent and resolved anchor, for every child layout |
| AnchorPlaces.ResolvesNearest | crates/marekvs-diff/src/plan.rs:356-366 | a placement goes by the first of its anchors that is in the list before any start marker; absent ones are skipped |
| AnchorPlaces.PlacedBehindNearest | crates/marekvs-diff/src/plan.rs:350-379 | in the final list a placement stands behind the nearest anchor present when it was placed, and no child that was not placed is in between |
| AnchorPlaces.PlacedFirst | crates/marekvs-diff/src/plan.rs:350-379 | with no anchor present when it was placed, a placement stands before every child that was not placed |
| PlanOrder.PlanFollowsAnchors | crates/marekvs-diff/src/plan.rs:341-379 | both for every accepted placement of every successful plan |
| PlanOrder.FollowsTarget | crates/marekvs-diff/src/graph.rs:254-465 | in a plan of any selection of a built graph, a placed node stands behind the nearest of its target predecessors that is there, before the children that stayed behind it |
| PlanEffect.PlacementsTakeEffect | crates/marekvs-diff/src/plan.rs:225-379 | in every successful plan an accepted placement puts its node, alive, among the children of the parent it names |
| PlanEffect.PayloadsTakeEffect | crates/marekvs-diff/src/plan.rs:305-392 | in every successful plan a node with accepted content changes is alive and shows their composition |
| PlanEffect.DeletesTakeEffect | crates/marekvs-diff/src/plan.rs:260-305 | in no successful plan is the node of an accepted delete left |
| PlanEffect.ConflictsHonoured | crates/marekvs-diff/src/plan.rs:230-244 | no plan succeeds with a whole conflict group or an unknown change accepted |
| Build.Build | crates/marekvs-diff/src/graph.rs:254-465 | every legal raw change yields its operation exactly once, placements first in target order, with the anchors that the target order dictates, and text edits that keep as many units as the budget affords |
| Classify.Run | crates/marekvs-diff/src/classify.rs:52-114 | the raw changes are exactly the legal ones, each once, and the staying siblings of every matched parent are as many as possible |
| Deletions.DeletedOnce | crates/marekvs-diff/src/classify.rs:52-114 | every base node without a partner is covered by exactly one delete, at the top of what is gone around it |
| Lis.Longest | crates/marekvs-diff/src/classify.rs:16-50 | the Fenwick-tree loop returns an increasing subsequence that no other increasing subsequence exceeds |
| Matchings.MatchTrees | crates/marekvs-diff/src/exact.rs:64-136 | a one-to-one, kind-respecting pairing of the roots: nodes that share an own element id are paired, no subtree is left unpaired that fits its only twin by exact or content hash, and every pair has such a reason or was proposed by the near and align passes |
| Matchings.Matching.Set | crates/marekvs-diff/src/matching.rs:28-43 | pairing two free nodes of one kind keeps the matching one-to-one and changes no other pair; otherwise nothing changes |
| Matchings.Bulk | crates/marekvs-diff/src/exact.rs:32-62 | two subtrees are paired node by node exactly when kinds, arities and present partners fit all the way down; otherwise nothing changes |
| Matchings.Exact | crates/marekvs-diff/src/exact.rs:64-136 | the same of the exact pass, for any pairs present before |
| Matchings.Candidate | crates/marekvs-diff/src/exact.rs:109-124 | an unpaired node is proposed a partner exactly when both are the only nodes of their kind with that hash; a paired one its partner exactly when the hashes agree |
| Matchings.Unique | crates/marekvs-diff/src/exact.rs:12-20 | the loop finds the only node of a kind with a hash, and nothing exactly when there is none or more than one |
| Matchings.Eids | crates/marekvs-diff/src/exact.rs:21-31 | the loop maps exactly the element ids that occur, those that occur once to their node |
| Matchings.PairEids | crates/marekvs-diff/src/exact.rs:82-90 | nodes that share an own element id are paired unless one had a partner before, and no others |
| Diff.SelfHasNoChanges | crates/marekvs-diff/src/classify.rs:52-114 | a tree matched with itself node by node has no changes |
| Diff.DiffWithItself | crates/marekvs-diff/src/lib.rs:108-141 | diffing a tree with itself gives an empty graph |
| TextDiff.DiffText | crates/marekvs-diff/src/textdiff.rs:270-332 | for all texts, levels and budgets, applying the produced edits to the old text gives the new text; within the budget the edits leave a longest common subsequence of units in place |
| TextDiff.EditsFromPairs | crates/marekvs-diff/src/textdiff.rs:311-331 | the edits between matches touch no matched unit, and each lands on its partner |
| ShortestEdits.KeepsMost | crates/marekvs-diff/src/textdiff.rs:147-331 | at every level below sentences, no edits with the same result leave more units of the old text whole as units of the new one |
| ShortestEdits.CostsLeast | crates/marekvs-diff/src/textdiff.rs:147-331 | at the level of characters, no edits with the same result delete and insert less |
| ShortestEdits.UnitsUnique | crates/marekvs-diff/src/textdiff.rs:147-166 | a text is cut into units in one way |
| TextDiff.ApplyEdits | crates/marekvs-diff/src/textdiff.rs:334-360 | the cursor loop computes the meaning of an edit list, or its first error |
| TextDiff.AppliesIffValid | crates/marekvs-diff/src/textdiff.rs:334-360 | edits apply exactly when they are ordered, disjoint, at different positions and in bounds |
| Myers.Search | crates/marekvs-diff/src/textdiff.rs:169-255 | the bounded search returns a longest common subsequence of the units, that is a shortest edit path, and gives up only when the budget is below a fixed bound |
| Myers.Furthest | crates/marekvs-diff/src/textdiff.rs:191-222 | after each depth the frontiers are at least as far as any common subsequence with that many edits |
| TextMerge.ApplyRenders | crates/marekvs-diff/src/textdiff.rs:334-360 | valid edits render the base position by position: what each position loses and gains |
| Runs.ProjectMonotone | crates/marekvs-diff/src/plan.rs:640-665 | projecting run boundaries through valid edits never crosses them |
| Runs.ProjectCanonical | crates/marekvs-diff/src/plan.rs:667-687 | projected runs are sorted, non-empty, disjoint and merged |
| RunImages.ProjectPointIs | crates/marekvs-diff/src/plan.rs:640-665 | a run boundary moves to the length of the edited text before it, a start also past an insertion at it, and fails exactly inside a deletion |
| RunImages.ImageShows | crates/marekvs-diff/src/textdiff.rs:334-360 | the edited text shows every position that is not deleted at its image |
| RunImages.ProjectKeepsAttrs | crates/marekvs-diff/src/plan.rs:667-687 | projected runs give the image of a position the attributes it had |
| RunImages.InsertionAttrs | crates/marekvs-diff/src/plan.rs:667-687 | inserted text takes the attributes of the run around it, and none at the edge of a run |
| Runs.MergeMeaning | crates/marekvs-diff/src/plan.rs:689-742 | merged formatting holds at every position the base attributes changed as the proposals agree |
| Runs.MergeFailsIff | crates/marekvs-diff/src/plan.rs:689-742 | merging formatting fails exactly when combining the proposals fails at some position |
| Runs.MergeConflictsIff | crates/marekvs-diff/src/plan.rs:689-742 | merging formatting fails exactly when some position has two proposals that change one attribute of the base differently |
| Runs.MergeRunProposals | crates/marekvs-diff/src/plan.rs:689-742 | the interval loop computes the point-wise merge |
| Compose.ComposeShell | crates/marekvs-diff/src/plan.rs:516-638 | the loops over accepted changes compute the composed shell or its first error |
| Compose.ComposedReaches | crates/marekvs-diff/src/plan.rs:516-638 | the payload operations between two shells compose exactly to the second |
| FormatMerge.ProposalKeeps | crates/marekvs-diff/src/plan.rs:589-618 | a formatting proposal, carried through the edits of the others, gives a surviving position what its change gave it |
| FormatMerge.ComposedFormatting | crates/marekvs-diff/src/plan.rs:584-626 | however many changes of one text compose, every surviving position is shown at its image with the base attributes changed as the formatting changes agree |
| TextMerge.MergeAppliesIff | crates/marekvs-diff/src/merge3.rs:537-551 | the sorted, deduplicated union of two valid edit lists applies if and only if no pair across them conflicts |
| TextMerge.MergeMeaning | crates/marekvs-diff/src/merge3.rs:254-490 | the merged text deletes what either side deletes, inserts what either side inserts and keeps the rest in place |
| TextMerge.MergeSymmetric | crates/marekvs-diff/src/merge3.rs:254-490 | swapping the sides gives the same edits |
| TextMerge.MergeUnchanged | crates/marekvs-diff/src/merge3.rs:254-490 | merging with an unchanged side, or with the same changes, gives the changes |
| TextMerge.ComposedText | crates/marekvs-diff/src/plan.rs:572-583 | composing two modifications of one node applies the merged edits |
| MergeGraphs.UnionMeaning | crates/marekvs-diff/src/merge3.rs:343-373 | the merged graph holds exactly the operations of either side, each once, marked with the sides that propose it |
| MergeGraphs.FindClashes | crates/marekvs-diff/src/merge3.rs:374-418 | the pair loops find exactly the pairs on one node, one change from each side, that the test rejects |
| MergeGraphs.MergeWithBase | crates/marekvs-diff/src/merge3.rs:254-490 | merging with the unchanged base, on either side, finds no clash, and accepting everything reproduces the changed document |
| MergeClashes.AttrsClashIff | crates/marekvs-diff/src/merge3.rs:552-556 | two attribute changes of one node are rejected exactly when they do not compose |
| MergeClashes.FormatsConflictIff | crates/marekvs-diff/src/merge3.rs:572-590 | looking at run boundaries only, the test rejects two formattings exactly when merging them fails |
| MergeClashes.FormatsClashIff | crates/marekvs-diff/src/merge3.rs:572-590 | two formattings of one node are rejected exactly when they do not compose |
| MergeClashes.EditsClash | crates/marekvs-diff/src/merge3.rs:537-551 | two text edits rejected for their positions do not compose |
| OrElements.NormalizeMeaning | crates/marekvs-core/src/merge.rs:103-112 | normalizing keeps the 255 highest covered dots and the 4 highest live dots not among them, in order and each once |
| OrElements.StampOrder | crates/marekvs-core/src/merge.rs:32-36 | numbering a dot orders dots as (hlc, origin) pairs and keeps the origin |
| OrLaws.MergeMeaning | crates/marekvs-core/src/merge.rs:463-504 | what a merge holds, as sets of dots, whatever the record types |
| OrLaws.Commutes | crates/marekvs-core/src/merge.rs:428-504 | both merge directions store the same record, for all element types |
| OrLaws.Idempotent | crates/marekvs-core/src/merge.rs:428-504 | merging a record with itself changes nothing, for all element types |
| OrLaws.Absorbs | crates/marekvs-core/src/merge.rs:428-504 | for hash, set and zset records, merging again what is already merged changes nothing |
| OrLaws.AddOk | crates/marekvs-core/src/merge.rs:195-240 | an add writes a normal record whose only live dot is its own |
| OrLaws.SetOk | crates/marekvs-core/src/merge.rs:242-260 | an overwrite covers what it observed and adds one fresh dot |
| OrLaws.RemoveOk | crates/marekvs-core/src/merge.rs:262-272 | a remove covers what it observed and has nothing live |
| OrLaws.CoversAll | crates/marekvs-core/src/merge.rs:463-504 | in every delivery history with at most 255 removed dots every remove is remembered |
| OrLaws.NoResurrection | crates/marekvs-core/src/merge.rs:463-504 | in every such history no covered dot is live, whatever the live cap drops, for all element types |
| OrLaws.AddsMinusRemoves | crates/marekvs-core/src/merge.rs:463-504 | in every history within the caps the record holds exactly the added dots that no write covers |
| OrLaws.SameWritesConverge | crates/marekvs-core/src/merge.rs:428-504 | two histories of the same writes store the same record, in any order, grouping and repetition |
| OrCap.AssociatesIff | crates/marekvs-core/src/merge.rs:17-19 | three records associate if and only if no dot that only one grouping truncates ranks among the four highest of the other |
| OrCap.AssociatesWithinCap | crates/marekvs-core/src/merge.rs:17-19 | groupings that truncate nothing agree |
| OrCap.CapBreaksAssociativity | crates/marekvs-core/src/merge.rs:17-19 | a full record, a lower add and a remove of the full record store different records in the two groupings |
| CounterFields.CollapsePerOrigin | crates/marekvs-core/src/merge.rs:349-359 | the retain loop keeps the first entry of each node |
| OrElements.CollapseMeaning | crates/marekvs-core/src/merge.rs:349-359 | collapsing sorted entries keeps the highest dot of each node |
| CounterFields.IncrementMeaning | crates/marekvs-core/src/merge.rs:384-395 | a fresh increment is kept, replaces the older entries of its node and covers nothing |
| CounterFields.AbsorbsIff | crates/marekvs-core/src/merge.rs:483-488 | merging a counter field again changes nothing if and only if none of its cut dots ranks and lacks a node entry after the collapse |
| CounterFields.AssociatesIff | crates/marekvs-core/src/merge.rs:483-488 | within the caps counter fields associate if and only if every dot that only one grouping drops has a newer one of its node in the other |
| CounterFields.CapBreaksAbsorption | crates/marekvs-core/src/merge.rs:483-488 | an entry that the cap cut comes back when the same record is merged a second time |
| CounterFields.RemovalBreaksAssociativity | crates/marekvs-core/src/merge.rs:339-348 | a stale entry of a removed counter is gone or back, depending on when the removal arrives |
| AntiEntropy.DiffBucket | crates/marekvs-repl/src/ae.rs:117-168 | the responder pushes exactly the records the peer lacks or holds behind, each once, and asks for exactly those it lacks or holds behind itself |
| AntiEntropy.RecordsByHash | crates/marekvs-repl/src/ae.rs:171-196 | the answer holds exactly the requested records that exist, each once |
| AntiEntropy.Exchange | crates/marekvs-repl/src/ae.rs:93-196 | one exchange leaves at each key what the two records there determine, for any interleaving of applying the push and answering |
| AntiEntropy.TwoExchanges | crates/marekvs-repl/src/ae.rs:93-196 | two exchanges, each started by either side, leave both replicas with the join at every key |
| AntiEntropy.QuietIffEqual | crates/marekvs-repl/src/ae.rs:117-168 | an exchange moves nothing if and only if the replicas are equal |
| Convergence.MergeLaws | crates/marekvs-core/src/merge.rs:420-504 | registers, elements and counters of one key merge commutatively, idempotently and absorbingly and carry the larger clock, also where registers and counters replace each other |
| Convergence.Repair | crates/marekvs-repl/src/ae.rs:93-196 | two exchanges between replicas holding registers, elements and counters leave both with the join of what they held |
| Counters.MergeCounters | crates/marekvs-core/src/counter.rs:88-113 | the slot loop computes the merge; the newer base wins with its value |
| CounterLaws.Commutes | crates/marekvs-core/src/counter.rs:102-113 | merging counters is commutative, with the 255-slot cap |
| CounterLaws.Idempotent | crates/marekvs-core/src/counter.rs:102-113 | merging a counter with itself changes nothing |
| CounterLaws.Associates | crates/marekvs-core/src/counter.rs:102-113 | merging counters is associative, with the 255-slot cap |
| CounterLaws.Absorbs | crates/marekvs-core/src/counter.rs:102-113 | merging again what is already merged changes nothing |
| CounterRuns.NeverExceeds | crates/marekvs-core/src/counter.rs:44-113 | in every run of bumps, new bases and merges of past states, with any number of nodes, no replica holds more than a node has added or taken away on its base |
| CounterRuns.Conserved | crates/marekvs-core/src/counter.rs:44-113 | once all replicas are merged, the value read is the newest base that any node set plus every increment made on that base, or nothing where that does not fit 64 bits |
| RingBuffer.Ring.Push | crates/marekvs-repl/src/ring.rs:102-121 | a push appends its operations under consecutive numbers and keeps the longest suffix within both caps |
| RingBuffer.TrimmedLongest | crates/marekvs-repl/src/ring.rs:110-116 | dropping from the front until the caps hold leaves the longest suffix within both |
| RingBuffer.Ring.ReadAfter | crates/marekvs-repl/src/ring.rs:123-136 | a read returns the first entries numbered above the cursor, and reports a gap exactly when some are gone |
| RingBuffer.Ring.LastSeq | crates/marekvs-repl/src/ring.rs:143-147 | the last number is one below the next |
| RingRuns.PushStep | crates/marekvs-repl/src/ring.rs:102-121 | a push of the ring is a step of the run model |
| RingRuns.ReadStep | crates/marekvs-repl/src/ring.rs:123-136 | a read of the ring is a step of the run model |
| RingRuns.ExactlyOnce | crates/marekvs-repl/src/ring.rs:102-147 | in every interleaving of pushes, evictions and reads a reader that is told of no gap has every entry between its start and its cursor, once and in order |
| RingRuns.Serve | crates/marekvs-repl/src/ring.rs:102-147 | serving any requests from a new ring, the log holds the operations of all commits in order, and a reader told of no gap gets each one after its start once |
| RingRuns.ReadAdvances | crates/marekvs-repl/src/ring.rs:123-136 | a read gets the next entry whenever there is one |
| Placement.OwnersForZoned | crates/marekvs-cluster/src/placement.rs:65-108 | the two loops over the ranking choose one candidate per labelled zone, then fill up by rank |
| Rebalance.OwnersCount | crates/marekvs-cluster/src/placement.rs:65-108 | owners are distinct candidates, as many as asked for or as there are |
| OwnerRank.OwnersOutrank | crates/marekvs-cluster/src/placement.rs:65-108 | an owner outranks by score and node id every candidate that is not one; only with owners spread over zones the first of its zone may come before a follower in another |
| Rebalance.OwnersIgnoreOrder | crates/marekvs-cluster/src/placement.rs:65-108 | owners do not depend on the order of the candidates |
| Rebalance.ZonesCovered | crates/marekvs-cluster/src/placement.rs:65-108 | with zone spreading the owners span as many labelled zones as they can |
| Rebalance.JoinDisplacesAtMostOne | crates/marekvs-cluster/src/placement.rs:65-108 | a joining candidate displaces at most one owner and nobody else becomes owner, with zones on or off and nodes labelled or not |
| RgaWalk.RgaOrder | crates/marekvs-core/src/json.rs:267-296 | the stack loop lists the recursive preorder |
| RgaWalk.OrderLists | crates/marekvs-core/src/json.rs:267-296 | the order lists every element that an anchor chain ties to the head, once |
| RgaWalk.AcyclicLists | crates/marekvs-core/src/json.rs:267-296 | when no anchor chain runs in a circle the order lists every element, once, and nothing else |
| RgaWalk.BelowContiguous | crates/marekvs-core/src/json.rs:267-296 | each element is followed directly by everything anchored below it |
| RgaSiblings.NewestFirst | crates/marekvs-core/src/json.rs:267-296 | of two elements with one anchor the newer comes first |
| RgaStable.OrderIgnoresArrangement | crates/marekvs-core/src/json.rs:267-296 | the order does not depend on how the elements are listed |
| RgaStable.OrderIgnoresListing | crates/marekvs-core/src/json.rs:267-296 | the order of ids does not depend on which elements are live |
| RgaStable.InsertKeepsOrder | crates/marekvs-core/src/json.rs:267-296 | an element that nothing is anchored on leaves the order of the others as it was |
| RgaChain.ChainOrder | crates/marekvs-core/src/json.rs:267-296 | elements chained one behind the other come in the order of the chain |
| JsonDoc.DecomposeAll | crates/marekvs-core/src/json.rs:318-425 | the recursion over a shared path buffer writes the records of the value and restores the buffer |
| JsonBuild.BuildDoc | crates/marekvs-core/src/json.rs:465-565 | the builder returns what the records denote, or nothing without a root |
| JsonTrip.RoundTrip | crates/marekvs-core/src/json.rs:318-565 | for every value and supply of element ids, rebuilding from the records in any permutation returns the value, and each array index lists its ids in document order |
| JsonOrder.KidsAreShown | crates/marekvs-core/src/json.rs:480-565 | a container holds exactly the fields, or the live elements tied to the head, whose own containers all show |
| JsonOrder.ShownDecides | crates/marekvs-core/src/json.rs:460-565 | records under dead, missing or retyped parents and the values of dead elements do not change the document |
| JsonOrder.BuildIgnoresOrder | crates/marekvs-core/src/json.rs:460-565 | any set of records, with dead elements, orphans and stale children, builds one document in whatever order it is read |
| ProtoDocs.CopyMeans | crates/marekvs-core/src/pdoc.rs:386-528 | records that copy a document under fresh element ids denote the same document: same fields, map entries and list order; tombstones, orphans and stale records do not show |
| ProtoCopy.RecomposeTree | crates/marekvs-core/src/pdoc.rs:393-528 | the walk writes every record of the copy once, fields by highest dot and then path bytes, live elements chained; whatever the stamps, the result denotes what the input does |
| ProtoCopy.Walk | crates/marekvs-core/src/pdoc.rs:432-505 | the recursion over both paths emits exactly the copy below a node |
| ProtoCopy.RestampKeepsOrder | crates/marekvs-core/src/pdoc.rs:518-521 | stamping the written fields with a rising clock orders them exactly as their highest dots, ties by path bytes |
| ProtoCopy.WinnersStay | crates/marekvs-core/src/pdoc.rs:518-521 | in every group of fields, the one that wins by highest dot and path is exactly the one that wins after restamping |
| Numerals.PutVarint | crates/marekvs-core/src/ikey.rs:53-63 | the loop writes seven bits per byte, lowest first |
| Numerals.ReadVarint | crates/marekvs-core/src/ikey.rs:65-79 | the loop reads the number at the front, at most ten bytes, or nothing |
| Numerals.VarintReads | crates/marekvs-core/src/ikey.rs:53-79 | a 64-bit number is read back whatever follows it |
| Numerals.EidBytes | crates/marekvs-core/src/json.rs:40-55 | the ten bytes of an element id are those of its clock, then those of its origin |
| Framing.LengthOverflows | crates/marekvs-core/src/json.rs:116-125 | a segment of ten length bytes announces an end beyond 64 bits |
| Framing.WrittenOverflowsIff | crates/marekvs-core/src/json.rs:93-125 | a written segment does so exactly when it fills 64 bits itself |
| PathCodec.SegReads | crates/marekvs-core/src/json.rs:93-132 | a path segment is read back whatever follows it |
| PathCodec.PathReads | crates/marekvs-core/src/json.rs:107-143 | every path is decoded back from its bytes |
| PathCodec.SplitsPath | crates/marekvs-core/src/json.rs:146-155 | splitting the bytes of a path splits the path before its last segment |
| Delimited.ReadAll | crates/marekvs-core/src/json.rs:134-143 | the loop decodes segment by segment, or fails at the first that does not decode |
| Delimited.SplitBytes | crates/marekvs-core/src/json.rs:146-155 | the loop finds the last segment and the bytes before it |
| PathCodec.PathPrefix | crates/marekvs-core/src/json.rs:93-143 | the bytes of one path begin with those of another exactly when the path does |
| ProtoPaths.KeyReads | crates/marekvs-core/src/pdoc.rs:87-139 | every map key is read back from its kind and bytes |
| ProtoPaths.SegReads | crates/marekvs-core/src/pdoc.rs:141-198 | a protobuf field, element or map-key segment is read back whatever follows it |
| ProtoPaths.PathReads | crates/marekvs-core/src/pdoc.rs:164-209 | every protobuf path is decoded back from its bytes |
| ProtoPaths.SplitsPath | crates/marekvs-core/src/pdoc.rs:212-221 | splitting the bytes of a protobuf path splits the path before its last segment |
| ProtoPaths.PathPrefix | crates/marekvs-core/src/pdoc.rs:141-209 | the bytes of one protobuf path begin with those of another exactly when the path does |
| ProtoPaths.UnsignedOrder | crates/marekvs-core/src/pdoc.rs:29-39 | the bytes of unsigned map keys are ordered as the numbers |
| ProtoPaths.SignedOrderIff | crates/marekvs-core/src/pdoc.rs:29-39 | the bytes of signed map keys are ordered as the numbers exactly when their signs agree |
| KeyRanges.PrefixUpperBound | crates/marekvs-engine/src/store.rs:264-275 | the loop returns the prefix cut after its last byte below 0xFF, with that byte raised by one, or nothing |
| KeyRanges.RangeIsPrefix | crates/marekvs-engine/src/store.rs:260-275 | a key lies between a prefix and its upper bound exactly when it starts with the prefix |
| DocKeys.SubtreeIsRange | crates/marekvs-core/src/ikey.rs:41-103 | for every two JSON documents and paths, a node key lies in the scanned range of another exactly when it is that node or a descendant in the same document |
| DocKeys.FieldsAreRange | crates/marekvs-core/src/ikey.rs:46-103 | for every two protobuf documents and paths, a record key lies in the scanned range of another exactly when it is that record or a descendant in the same document |
| DocKeys.OtherKindsOutside | crates/marekvs-core/src/ikey.rs:81-103 | no key of another kind lies in the range of a record of a document |
| Resp.ParseCommand | crates/marekvs-resp/src/lib.rs:121-246 | the loops over lines and bulk strings compute the next command, its length, that more bytes are needed, or the error |
| RespInline.InlineParses | crates/marekvs-resp/src/lib.rs:132-152 | words with any white bytes around and between them, ended by LF or CR LF, parse back to the words |
| RespInline.InlineWords | crates/marekvs-resp/src/lib.rs:132-152 | the arguments of any inline command are the bytes of its line other than white ones, in order, cut into non-empty words |
| RespStream.ParseStable | crates/marekvs-resp/src/lib.rs:121-246 | a parsed command or error does not depend on what follows it |
| RespStream.ChunksDoNotMatter | crates/marekvs-resp/src/lib.rs:59-103 | for every split of a byte stream the parser yields the same commands, error and rest |
| RespStream.RespParser.NextCommand | crates/marekvs-resp/src/lib.rs:73-89 | the next command is that of the unread bytes; consumed plus buffered bytes are those fed |
| RespStream.RespParser.TakeAll | crates/marekvs-resp/src/lib.rs:73-89 | taking commands until none is left drains the unread bytes |
| RespStream.RespParser.Buffered | crates/marekvs-resp/src/lib.rs:91-93 | the buffered bytes are those fed and not yet consumed |
| RespEncode.EncodeCommand | crates/marekvs-server/src/redisrepl.rs:561-570 | the loop writes the array header and every argument |
| RespEncode.EncodeParses | crates/marekvs-server/src/redisrepl.rs:561-570 | an encoded command within the limits parses back to its arguments, whatever follows |
| RespEncode.EncodeRefused | crates/marekvs-resp/src/lib.rs:154-205 | an encoded command beyond the limits on arguments or bytes is refused as too large |
| RespEncode.PipelineParses | crates/marekvs-server/src/redisrepl.rs:561-570 | a pipeline of encoded commands, cut into any chunks, parses back to the commands |
| RdbSkipping.RdbSink.Feed | crates/marekvs-server/src/redisrepl.rs:635-716 | feeding a chunk leaves the sink where the byte-by-byte run does, with the same verdict and position |
| RdbSkipping.ChunksDoNotMatter | crates/marekvs-server/src/redisrepl.rs:635-716 | for every split of the stream the sink stops, fails or waits at the same byte |
| RdbSkipping.RunBulk | crates/marekvs-server/src/redisrepl.rs:679-689 | a length-prefixed payload ends exactly after its length |
| RdbSkipping.RunEof | crates/marekvs-server/src/redisrepl.rs:690-709 | a marked payload ends exactly behind the first occurrence of its mark, across chunks |

## Findings

Places where the code does not do what its own comments say.

- `crates/marekvs-core/src/merge.rs:17-19` says that the caps preserve the merge
  laws. The cap of four live dots breaks associativity: `OrCap.CapBreaksAssociativity`
  is a witness and `OrCap.AssociatesIff` the exact condition. Commutativity,
  idempotence and absorption hold under the caps (`OrLaws`).
- `crates/marekvs-core/src/merge.rs:339-348` says that dropping superseded
  counter entries loses nothing. When the newest entry is removed, an older one
  that some replica still holds decides whether the counter is gone or back:
  `CounterFields.RemovalBreaksAssociativity` is a witness and
  `CounterFields.AssociatesIff` the exact condition within the caps.
- `crates/marekvs-core/src/merge.rs:483-488` collapses counter fields after the
  cap has cut them. Merging the same record a second time can bring back what
  the cap cut: `CounterFields.CapBreaksAbsorption` is a witness and
  `CounterFields.AbsorbsIff` the exact condition.
- `crates/marekvs-core/src/json.rs:475` says that malformed paths are skipped on
  every replica. A field segment whose announced end `1 + n + len`
  (`json.rs:121`) reaches 2^64 is not skipped: the sum overflows, and the slice
  behind it has its bounds reversed, so decoding panics. `Framing.LengthOverflows`
  is a witness and the predicate `Framing.Overflows` the condition; no segment
  that was written overflows unless it fills 64 bits itself
  (`Framing.WrittenOverflowsIff`). `pdoc.rs:176-190` computes the same sum, which
  fails only in builds with overflow checks.
- `crates/marekvs-core/src/pdoc.rs:29-30` says that map keys are ordered as their
  bytes. Signed keys are two's complement, so negative ones come after all
  others: `ProtoPaths.SignedOrderIff` is the exact condition, and unsigned keys
  are ordered (`ProtoPaths.UnsignedOrder`).

## Left out

- Convergence.Repair: does not cover counter-valued hash fields, whose merge is not absorbing (`CounterFields.AbsorbsIff`), nor HyperLogLog registers and budget tokens, whose merge can prefer the lower clock.
- CounterFields.AssociatesIff: within the caps only; beyond them the cap cuts before the collapse and the two losses mix.
- OrCap.AssociatesIff: for three records that together cover at most 255 dots; beyond that the code forgets the oldest removes, as `merge.rs:17-19` accepts.
- OrLaws.SameWritesConverge: for histories within both caps; what the live cap does otherwise is `OrCap.AssociatesIff`.
- CounterRuns.NeverExceeds: for runs in which no slot saturates at 64 bits.
- CounterRuns.Conserved: among at most 255 nodes, the number of slots a counter keeps, and for runs in which no slot saturates at 64 bits.
- TextMerge.MergeMeaning: text only; formatting carried by an edit (`carried_format_conflict`, `base_boundary`) is not modelled.
- MergeGraphs.FindClashes: the test of a pair is a parameter; `MergeClashes` says what its attribute, formatting and position parts decide, but the tests between formatting and text are not modelled, and equal inserts of both sides are not matched with each other (`remap_op`), because inserted nodes of the two sides are named apart by content digests that the model abstracts.
- Matchings.MatchTrees: near matching and alignment are arbitrary sequences of proposals; their scores and heuristics are not modelled.
- ProtoCopy.RecomposeTree: leaf values are numbers; their byte codec in `pdoc.rs` is not modelled.
- PathCodec.SegReads: decoding answers nothing where the announced length overflows 64 bits; the code panics there (`Framing.Overflows`).
- Stored bytes of envelopes, element payloads, counters and graphs: records are values here.
- JSON numbers are finite; text is bytes, so lossy UTF-8 repair is not modelled.
- Reply encoding, commands, scripting, sharding, expiry, the storage engine, gossip, sockets and the operator.
