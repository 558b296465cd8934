# VIPS separator detection without graphics, in Dafny

This project models the separator detector of the VIPS page segmenter
(`VipsSeparatorNonGraphicsDetector`). The detector works on a page of given width and
height and on a tree of visual blocks. It keeps one pool of separators per axis:
vertical separators are intervals of x coordinates, horizontal ones intervals of y
coordinates. Detection on one axis has five steps:

1. Seed the pool with the whole extent `[0, extent]`.
2. Carve each visual block's projection out of the pool. The first separator whose end
   is not before the block's start is the matched one. Exactly one of six cases then
   applies: engulf, disjoint-after, head-clip, split, bridge or tail-clip.
3. Drop the separators that touch a border. With clean-up on, also drop those narrower
   than 10.
4. Score each remaining separator with the weight rules: distance, `hr` overlap,
   background colour, font size and text-on-both-sides. Horizontal separators get all
   five rules; vertical ones get the first three.
5. Sort the pool by weight.

The modules follow that structure:

- `Geometry` (geometry.dfy): the block tree, the axis, a separator, and the pre-order of
  a tree.
- `Seqs` (seqs.dfy): order-preserving filtering, reversal and first-match search, with
  their algebra.
- `Navigator` (navigator.dfy): the three recursive tree walks:
  - collecting the visual blocks;
  - the nodes overlapping a separator;
  - the visual blocks adjacent before and after a separator.

  Each is written as the accumulator function it is in the detector. Each is proved to
  equal a filter of the tree's pre-order; the adjacent-before list comes out reversed.
- `Carving` (carving.dfy):
  - `CaseOf` and `Carve` state the effect of one block as functions;
  - `CarveBlock` is the scan with its loops, proved to have exactly that effect;
  - the border and clean-up filters;
  - the lemmas on what each case does to the pool.
- `Rules` (rules.dfy): rule one, which has no loop, as a function of the separator's
  width. Rules two to five as methods with their loops and early exits, each proved to
  add exactly a stated amount. Pure counts and predicates over the adjacency
  lists give the meaning of those amounts.
- `SeparatorDetection` (detector.dfy): the detector as a class with the detector's
  fields. Its methods update the pools in place. `Candidates` and `Detected` specify
  what a detection leaves.

The vertical and horizontal versions of each carving, overlap and adjacency routine
differ only in the places below. The model writes each routine once with an `Axis`
parameter:

- A vertical separator is carved by a block's `x` and `width` and seeded over the page
  width. A horizontal one uses `y`, `height` and the page height.
- Head-clip asks for `blockStart < start` on the vertical axis and `blockStart <= start`
  on the horizontal one.
- Vertical adjacency shifts a block's left edge by one.

On both axes a block's end is its start plus its size, with no minus one.

The code does not keep separators well-formed. A tail-clip can leave a separator whose
end lies before its start. So the lemmas state local effects rather than a global
well-formedness invariant.

## Model

| member | source | states |
|---|---|---|
| Navigator.FillPoolCollectsVisualBlocks | src/org/fit/vips/VipsSeparatorNonGraphicsDetector.java:39-48 | the flattening walk appends exactly the nodes of the tree whose visual-block flag is set, in pre-order, after what the list already held |
| Navigator.FillPoolChildrenCollectsVisualBlocks | src/org/fit/vips/VipsSeparatorNonGraphicsDetector.java:46-47 | walking the children one after the other appends the visual nodes of each child's subtree in turn |
| Navigator.VisitOverlappedAppendsOnce | src/org/fit/vips/VipsSeparatorNonGraphicsDetector.java:471-487 | the three overlap tests on one node exclude each other, so the node is appended once when it overlaps the separator and not at all otherwise |
| Navigator.OverlappedElementsAreFiltered | src/org/fit/vips/VipsSeparatorNonGraphicsDetector.java:465-491 | the overlap walk appends exactly the overlapping nodes of the tree, each once, in pre-order (the vertical twin at 499-525 is the same walk on x) |
| Navigator.OverlappedInChildrenAreFiltered | src/org/fit/vips/VipsSeparatorNonGraphicsDetector.java:489-490 | the overlap walk over a list of children appends the overlapping nodes of each subtree in turn |
| Navigator.VisitAdjacentAddsOwnNode | src/org/fit/vips/VipsSeparatorNonGraphicsDetector.java:597-613 | a visual node adjacent after the separator is appended to the after list, one adjacent before it is put at the front of the before list, any other node changes neither |
| Navigator.AdjacentBlocksAreFiltered | src/org/fit/vips/VipsSeparatorNonGraphicsDetector.java:563-586 | the adjacency walk appends the adjacent-after blocks of the tree in pre-order and puts the adjacent-before blocks in front, in reverse pre-order |
| Navigator.AdjacentInChildrenAreFiltered | src/org/fit/vips/VipsSeparatorNonGraphicsDetector.java:615-616 | the adjacency walk over a list of children does the same for each subtree in turn |
| Navigator.FindAdjacentFromRoot | src/org/fit/vips/VipsSeparatorNonGraphicsDetector.java:538-541 | started on the whole tree with empty lists, the walk yields the reversed pre-order of the adjacent-before blocks and the pre-order of the adjacent-after blocks |
| Carving.CaseOf | src/org/fit/vips/VipsSeparatorNonGraphicsDetector.java:118-194 | some case applies exactly when some separator reaches the block's start, and bridge only when the matched separator has a successor |
| Carving.CarveBlock | src/org/fit/vips/VipsSeparatorNonGraphicsDetector.java:111-196 | the scan of the pool for one block, with its removal and straddle loops and its breaks, has exactly the effect `Carve` gives that block |
| Carving.CarveKeepsUnreachedPrefix | src/org/fit/vips/VipsSeparatorNonGraphicsDetector.java:118-121 | the separators before the matched one stay in place and unchanged; in the engulf case this holds when none of them starts after the block's start |
| Carving.EngulfKeepsPrefix | src/org/fit/vips/VipsSeparatorNonGraphicsDetector.java:126-148 | the engulf removal and the straddle clip leave a prefix of separators that end before the block and start at or before its start in place |
| Carving.CarveChangesOnlyMatched | src/org/fit/vips/VipsSeparatorNonGraphicsDetector.java:150-194 | outside engulf and split the pool keeps its length, only the matched separator (and its successor in the bridge case) changes, disjoint-after and no match change nothing, and each case moves exactly the stated end |
| Carving.CarveLength | src/org/fit/vips/VipsSeparatorNonGraphicsDetector.java:126-168 | split grows the pool by exactly one, engulf shrinks it, every other case keeps its length, each in both directions |
| Carving.CarveSplitEffect | src/org/fit/vips/VipsSeparatorNonGraphicsDetector.java:160-168 | split ends the matched separator at blockStart - 1, inserts [blockEnd + 1, old end] right after it, leaves the rest around them as it was, and both pieces are well-formed |
| Carving.CarveEngulfEffect | src/org/fit/vips/VipsSeparatorNonGraphicsDetector.java:126-148 | engulf keeps exactly the separators not strictly inside the block, in order; the first survivor the block's end falls into gets its start moved to blockEnd + 1, no other survivor changes, and with no such survivor the result is just the kept separators |
| Carving.CarveKeepsWeights | src/org/fit/vips/VipsSeparatorNonGraphicsDetector.java:111-196 | carving never changes a weight: every separator left carries the weight of some separator of the pool, except the fresh [blockEnd + 1, old end] a split inserts (lines 162-166) |
| Carving.EngulfCanRemoveUnreachedSeparator | src/org/fit/vips/VipsSeparatorNonGraphicsDetector.java:205-242 | horizontal blocks (20,10), (50,10), (31,25), (52,50) on height 100 leave an inverted [57,49] before the matched [61,100], and the last block's engulf removes both, so separators before the matched one are not always kept |
| Carving.CarveAllKeepsZeroWeights | src/org/fit/vips/VipsSeparatorNonGraphicsDetector.java:111-196 | carving any sequence of blocks out of a pool of weight-0 separators leaves only weight-0 separators |
| Carving.HeadClipAxisAsymmetry | src/org/fit/vips/VipsSeparatorNonGraphicsDetector.java:248-252 | a block starting exactly at the matched separator's start and ending inside it clips the head of a horizontal separator, but tail-clips a vertical one (line 154), leaving it inverted |
| Carving.RemovePoolBorders | src/org/fit/vips/VipsSeparatorNonGraphicsDetector.java:346-355 | the border removal keeps, in order, exactly the separators that neither start at 0 nor end at the extent |
| Carving.CleanUpSeparators | src/org/fit/vips/VipsSeparatorNonGraphicsDetector.java:363-376 | clean-up keeps, in order, exactly the separators whose width (end minus start) is at least 10 |
| Rules.RuleOne | src/org/fit/vips/VipsSeparatorNonGraphicsDetector.java:421-431 | rule one leaves the interval alone and adds 1 below width 10, otherwise the number of whole tens in the width, so always at least 1 |
| Rules.HrAmongOverlapped | src/org/fit/vips/VipsSeparatorNonGraphicsDetector.java:446-456 | some node of the tree overlaps the separator and is an `hr` element exactly when the list of overlapped nodes holds an `hr` element |
| Rules.RuleTwo | src/org/fit/vips/VipsSeparatorNonGraphicsDetector.java:438-457 | rule two adds 2 when some overlapping node of the tree is an `hr` element and 0 otherwise, and changes nothing else |
| Rules.ColourDifferencesBounds | src/org/fit/vips/VipsSeparatorNonGraphicsDetector.java:548-552 | the blocks differing in colour from one block number at most the list's length, none exactly when all share its colour, all exactly when none does |
| Rules.DifferingColourPairsAtMost | src/org/fit/vips/VipsSeparatorNonGraphicsDetector.java:546-553 | no more (before, after) pairs differ in background colour than there are pairs |
| Rules.DifferingColourPairsNone | src/org/fit/vips/VipsSeparatorNonGraphicsDetector.java:546-553 | no pair differs exactly when every (before, after) pair shares its background colour |
| Rules.DifferingColourPairsAll | src/org/fit/vips/VipsSeparatorNonGraphicsDetector.java:546-553 | the count reaches the number of pairs exactly when every (before, after) pair differs in colour |
| Rules.RuleThree | src/org/fit/vips/VipsSeparatorNonGraphicsDetector.java:532-554 | rule three adds exactly 2 for every (before, after) pair of adjacent blocks whose background colours differ, including the early return when a side is empty |
| Rules.FontContrastBonusCases | src/org/fit/vips/VipsSeparatorNonGraphicsDetector.java:628-673 | rule four adds 4 exactly when some block above has a smaller font than some block below, 2 exactly when fonts differ but never that way round, 0 exactly when all pairs have the same font size |
| Rules.RuleFour | src/org/fit/vips/VipsSeparatorNonGraphicsDetector.java:628-674 | the two passes of rule four with their breaks add 2 for some differing pair and 2 more for some pair with the smaller font above, on the horizontal adjacency lists |
| Rules.RuleFive | src/org/fit/vips/VipsSeparatorNonGraphicsDetector.java:682-709 | rule five subtracts 2 exactly when some (above, below) pair are both text boxes, and 0 otherwise |
| Rules.RulesBonusLowerBound | src/org/fit/vips/VipsSeparatorNonGraphicsDetector.java:390-413 | scoring adds at least 1 to a vertical separator and at least -1 to a horizontal one |
| Rules.SameIntervalSameQueries | src/org/fit/vips/VipsSeparatorNonGraphicsDetector.java:403-412 | the overlap and adjacency queries depend only on a separator's interval, so rules applied one after another all see the same blocks |
| Rules.ScoreSeparator | src/org/fit/vips/VipsSeparatorNonGraphicsDetector.java:403-412 | applying rules one to three (and four and five on the horizontal axis) adds exactly the axis' total bonus and leaves the interval alone |
| Rules.ScorePool | src/org/fit/vips/VipsSeparatorNonGraphicsDetector.java:390-398 | scoring the pool keeps its length and order and adds to each separator exactly its own bonus |
| SeparatorDetection.CandidatesAreTrimmedCarving | src/org/fit/vips/VipsSeparatorNonGraphicsDetector.java:340-358 | a separator is scored exactly when the carving left it, it touches neither border and, with clean-up on, it is at least 10 wide; all of them still weigh 0 |
| SeparatorDetection.ScoredFromZero | src/org/fit/vips/VipsSeparatorNonGraphicsDetector.java:390-413 | a separator scored from weight 0 weighs exactly its bonus, at least 1 when vertical and at least -1 when horizontal |
| SeparatorDetection.DetectedProperties | src/org/fit/vips/VipsSeparatorNonGraphicsDetector.java:332-360 | after a detection no separator starts at 0 or ends at the extent, all are at least 10 wide with clean-up on, each weighs exactly its bonus, and there are no more than the carving left |
| SeparatorDetection.ScoredPoolIsScoreAll | src/org/fit/vips/VipsSeparatorNonGraphicsDetector.java:390-398 | a pool scored one separator at a time is the pool with each separator's bonus added |
| SeparatorDetection.SeparatorDetector.constructor | src/org/fit/vips/VipsSeparatorNonGraphicsDetector.java:31-37 | a new detector has the given width and height, empty pools, no blocks and clean-up off |
| SeparatorDetection.SeparatorDetector.SetPool | src/org/fit/vips/VipsSeparatorNonGraphicsDetector.java:721-732 | replacing one axis' pool leaves the other pool as it was |
| SeparatorDetection.SeparatorDetector.SetVipsBlock | src/org/fit/vips/VipsSeparatorNonGraphicsDetector.java:67-72 | after setting the tree, the visual-block list is exactly the tree's visual nodes in pre-order |
| SeparatorDetection.SeparatorDetector.FillPool | src/org/fit/vips/VipsSeparatorNonGraphicsDetector.java:57-60 | refilling appends the tree's visual nodes in pre-order to the list without clearing it |
| SeparatorDetection.SeparatorDetector.SetVisualBlocks | src/org/fit/vips/VipsSeparatorNonGraphicsDetector.java:89-93 | the visual-block list becomes exactly the given blocks |
| SeparatorDetection.SeparatorDetector.SetCleanUpSeparators | src/org/fit/vips/VipsSeparatorNonGraphicsDetector.java:744-747 | the clean-up switch takes the given value |
| SeparatorDetection.SeparatorDetector.FindSeparators | src/org/fit/vips/VipsSeparatorNonGraphicsDetector.java:109-197 | the axis' pool becomes the old pool carved by every visual block in list order; the other pool is untouched |
| SeparatorDetection.SeparatorDetector.CarveAndTrim | src/org/fit/vips/VipsSeparatorNonGraphicsDetector.java:340-358 | reseeding with [0, extent], carving, removing border separators and, with clean-up on, narrow ones leaves exactly the candidates to score |
| SeparatorDetection.SeparatorDetector.ComputeWeights | src/org/fit/vips/VipsSeparatorNonGraphicsDetector.java:390-398 | every separator of the axis' pool gets its own bonus added, in place and in order |
| SeparatorDetection.SeparatorDetector.Detect | src/org/fit/vips/VipsSeparatorNonGraphicsDetector.java:332-361 | with no visual blocks the pools stay as they were; otherwise the axis' pool holds exactly the detected separators (as a multiset), each away from the borders, wide enough under clean-up, and weighing its bonus; the other pool is untouched |

## Left out

- SeparatorDetection.SeparatorDetector.Detect: does not sort the pool by weight. The sort uses `Separator.compareTo`, and `Separator.java` is not part of this model. The contract promises the pool's contents as a multiset, not its order.
- SeparatorDetection.SeparatorDetector.Detect: requires a tree whenever there is something left to score. The rules query the tree from its root, so with no tree the source fails there with a null dereference.
- SeparatorDetection.SeparatorDetector.FillPool: requires a tree, for the same reason.
- Integer width: coordinates, sizes and weights are unbounded integers. The source's 32-bit `int` arithmetic (`start + size`, `blockEnd + 1`, `weight += …`) is assumed not to overflow.
- `System.err.println` when there are no visual blocks is I/O. The model only returns with the pools unchanged.
- `List.remove(Object)` and `indexOf` find separators by equality, and `Separator.equals` is not part of this model. The model works by position: the matched separator is the one at the scan's index.
- In-place updates through shared object references (separator fields written through the iteration variable, `cleanUpSeparators` editing its argument) are modelled on values. The class then reassigns the pool field. Aliasing between the pool and the temporary copies is not modelled.
- SeparatorDetection.SeparatorDetector.SetPool and SeparatorDetection.SeparatorDetector.SetVisualBlocks: the source clears its own list and then copies the argument into it. Passing the detector's own list back (`setVerticalSeparators(getVerticalSeparators())`, `setVisualBlocks(getVisualBlocks())`) therefore leaves the list empty. The model passes values, so these calls keep the list.
- SeparatorDetection.SeparatorDetector.SetVipsBlock: takes a tree, never a missing one. In the source, `setVipsBlock(null)` stores null, clears the visual-block list and then fails with a null dereference in `fillPoolWithBlocks`.
- SeparatorDetection.SeparatorDetector.ComputeWeights: requires a tree unless the pool is empty. The rules query the tree from its root, so scoring a separator with no tree is the source's null dereference.
- The `Separator(start, end)` constructor's initial weight is not visible; the model takes it to be 0.
- The CSSBox layer is reduced to fields of `Block`:
  - `getBox()` coordinates and sizes;
  - the background colour, compared by equality;
  - the font size;
  - `getNode().getNodeName()` as `tag`;
  - `instanceof TextBox` as `isText`.
- The assignment `diff /= 2` in rule four has no observable effect and is not modelled.
- The getters `getVipsBlock`, `getVisualBlocks`, `getHorizontalSeparators`, `getVerticalSeparators` and `isCleanUpEnabled` are reads of the class's fields. `setHorizontalSeparators` and `setVerticalSeparators` are `SetPool` with the matching axis.
