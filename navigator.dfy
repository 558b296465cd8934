/**
 * The three recursive walks over the visual-block tree: collecting the visual blocks,
 * collecting the nodes that overlap a separator, and collecting the visual blocks adjacent
 * to either side of a separator. Each walk is written as the source writes it, threading an
 * accumulator through a pre-order traversal, and is proved equal to a filter over PreOrder.
 */
module Navigator {
  import opened Seqs
  import opened Geometry

  // ----- Flattening the tree into the visual-block list -----

  predicate IsVisual(b: Block)
  {
    b.isVisual
  }

  /** Appends to `acc` every visual block of the tree rooted at `b`, visiting a node before its children. */
  function FillPoolWithBlocks(b: Block, acc: seq<Block>): seq<Block>
    decreases b, 1
  {
    FillPoolWithChildren(b.children, if b.isVisual then acc + [b] else acc)
  }

  function FillPoolWithChildren(cs: seq<Block>, acc: seq<Block>): seq<Block>
    decreases cs, 0
  {
    if cs == [] then acc else FillPoolWithChildren(cs[1..], FillPoolWithBlocks(cs[0], acc))
  }

  /** The walk appends exactly the pre-order sequence of the visual nodes of the tree. */
  lemma {:induction false} FillPoolCollectsVisualBlocks(b: Block, acc: seq<Block>)
    ensures FillPoolWithBlocks(b, acc) == acc + Filter(PreOrder(b), IsVisual)
    decreases b, 1
  {
    var acc' := if b.isVisual then acc + [b] else acc;
    FillPoolChildrenCollectsVisualBlocks(b.children, acc');
    FilterConcat([b], PreOrderForest(b.children), IsVisual);
  }

  lemma {:induction false} FillPoolChildrenCollectsVisualBlocks(cs: seq<Block>, acc: seq<Block>)
    ensures FillPoolWithChildren(cs, acc) == acc + Filter(PreOrderForest(cs), IsVisual)
    decreases cs, 0
  {
    if cs != [] {
      var head, rest := PreOrder(cs[0]), PreOrderForest(cs[1..]);
      var mid := FillPoolWithBlocks(cs[0], acc);
      FillPoolCollectsVisualBlocks(cs[0], acc);
      FillPoolChildrenCollectsVisualBlocks(cs[1..], mid);
      FilterConcat(head, rest, IsVisual);
      calc {
        FillPoolWithChildren(cs, acc);
        FillPoolWithChildren(cs[1..], mid);
        mid + Filter(rest, IsVisual);
        (acc + Filter(head, IsVisual)) + Filter(rest, IsVisual);
        acc + (Filter(head, IsVisual) + Filter(rest, IsVisual));
        acc + Filter(head + rest, IsVisual);
        { assert PreOrderForest(cs) == head + rest; }
        acc + Filter(PreOrderForest(cs), IsVisual);
      }
    }
  }

  // ----- Nodes overlapping a separator -----

  /**
   * A node's projection overlaps the separator when it enters from inside and leaves past the
   * end, enters before the start and ends inside, or lies within the separator (both ends
   * inclusive).
   */
  predicate Overlaps(s: Separator, b: Block, axis: Axis)
  {
    var lo, hi := BlockStart(b, axis), BlockEnd(b, axis);
    (lo > s.startPoint && lo < s.endPoint && hi > s.endPoint) ||
    (lo < s.startPoint && hi > s.startPoint && hi < s.endPoint) ||
    (lo >= s.startPoint && hi <= s.endPoint)
  }

  function OverlapTest(s: Separator, axis: Axis): Block -> bool
  {
    b => Overlaps(s, b, axis)
  }

  /**
   * Appends to `acc` the nodes of the tree rooted at `b` that overlap `s`, testing the three
   * overlap shapes one after the other, each of which appends the node.
   */
  function FindOverlappedElements(s: Separator, b: Block, axis: Axis, acc: seq<Block>): seq<Block>
    decreases b, 1
  {
    FindOverlappedInChildren(s, b.children, axis, VisitOverlapped(s, b, axis, acc))
  }

  /** The three overlap tests on one node, each appending the node when it holds. */
  function VisitOverlapped(s: Separator, b: Block, axis: Axis, acc: seq<Block>): seq<Block>
  {
    var lo, hi := BlockStart(b, axis), BlockEnd(b, axis);
    var acc1 := if lo > s.startPoint && lo < s.endPoint && hi > s.endPoint then acc + [b] else acc;
    var acc2 := if lo < s.startPoint && hi > s.startPoint && hi < s.endPoint then acc1 + [b] else acc1;
    if lo >= s.startPoint && hi <= s.endPoint then acc2 + [b] else acc2
  }

  /** The three overlap shapes exclude each other, so one node is appended at most once. */
  lemma VisitOverlappedAppendsOnce(s: Separator, b: Block, axis: Axis, acc: seq<Block>)
    ensures VisitOverlapped(s, b, axis, acc) == acc + Filter([b], OverlapTest(s, axis))
  {
    assert Filter([b], OverlapTest(s, axis)) == if Overlaps(s, b, axis) then [b] else [];
  }

  function FindOverlappedInChildren(s: Separator, cs: seq<Block>, axis: Axis, acc: seq<Block>): seq<Block>
    decreases cs, 0
  {
    if cs == [] then acc
    else FindOverlappedInChildren(s, cs[1..], axis, FindOverlappedElements(s, cs[0], axis, acc))
  }

  /**
   * The three overlap shapes exclude each other, so the walk reports each overlapping node
   * exactly once, in pre-order, and no other node.
   */
  lemma {:induction false} OverlappedElementsAreFiltered(s: Separator, b: Block, axis: Axis, acc: seq<Block>)
    ensures FindOverlappedElements(s, b, axis, acc) == acc + Filter(PreOrder(b), OverlapTest(s, axis))
    decreases b, 1
  {
    var test, kids := OverlapTest(s, axis), PreOrderForest(b.children);
    var own := Filter([b], test);
    VisitOverlappedAppendsOnce(s, b, axis, acc);
    OverlappedInChildrenAreFiltered(s, b.children, axis, acc + own);
    assert PreOrder(b) == [b] + kids;
    FilterConcat([b], kids, test);
    ConcatAssoc(acc, own, Filter(kids, test));
  }

  lemma {:induction false} OverlappedInChildrenAreFiltered(s: Separator, cs: seq<Block>, axis: Axis, acc: seq<Block>)
    ensures FindOverlappedInChildren(s, cs, axis, acc) == acc + Filter(PreOrderForest(cs), OverlapTest(s, axis))
    decreases cs, 0
  {
    if cs != [] {
      var test := OverlapTest(s, axis);
      var head, rest := PreOrder(cs[0]), PreOrderForest(cs[1..]);
      var mid := FindOverlappedElements(s, cs[0], axis, acc);
      OverlappedElementsAreFiltered(s, cs[0], axis, acc);
      OverlappedInChildrenAreFiltered(s, cs[1..], axis, mid);
      assert PreOrderForest(cs) == head + rest;
      FilterConcat(head, rest, test);
      ConcatAssoc(acc, Filter(head, test), Filter(rest, test));
    }
  }

  // ----- Visual blocks adjacent to a separator -----

  /** The blocks found before (above or left of) and after (below or right of) a separator. */
  datatype Adjacency = Adjacency(before: seq<Block>, after: seq<Block>)

  /**
   * The near edge used for adjacency. On the vertical axis the left edge is shifted right
   * by one; on the horizontal axis the top edge is used as it is.
   */
  function AdjacentStart(b: Block, axis: Axis): int
  {
    if axis == Vertical then b.x + 1 else b.y
  }

  function AdjacentEnd(b: Block, axis: Axis): int
  {
    AdjacentStart(b, axis) + BlockSize(b, axis)
  }

  /** A visual block that begins right after the separator's end and extends beyond that point. */
  predicate IsAdjacentAfter(s: Separator, b: Block, axis: Axis)
  {
    b.isVisual && AdjacentStart(b, axis) == s.endPoint + 1 && AdjacentEnd(b, axis) > s.endPoint + 1
  }

  /** A visual block that ends right before the separator's start and begins before that point. */
  predicate IsAdjacentBefore(s: Separator, b: Block, axis: Axis)
  {
    b.isVisual && AdjacentEnd(b, axis) == s.startPoint - 1 && AdjacentStart(b, axis) < s.startPoint - 1
  }

  function AfterTest(s: Separator, axis: Axis): Block -> bool
  {
    b => IsAdjacentAfter(s, b, axis)
  }

  function BeforeTest(s: Separator, axis: Axis): Block -> bool
  {
    b => IsAdjacentBefore(s, b, axis)
  }

  /**
   * Walks the tree rooted at `b` in pre-order; a visual block adjacent after the separator is
   * appended to `acc.after`, one adjacent before it is put at the FRONT of `acc.before`.
   */
  function FindAdjacentBlocks(s: Separator, b: Block, axis: Axis, acc: Adjacency): Adjacency
    decreases b, 1
  {
    FindAdjacentInChildren(s, b.children, axis, VisitAdjacent(s, b, axis, acc))
  }

  /** The adjacency tests on one visual node: an after block is appended, a before block put in front. */
  function VisitAdjacent(s: Separator, b: Block, axis: Axis, acc: Adjacency): Adjacency
  {
    if b.isVisual then
      var lo, hi := AdjacentStart(b, axis), AdjacentEnd(b, axis);
      var after := if lo == s.endPoint + 1 && hi > s.endPoint + 1 then acc.after + [b] else acc.after;
      var before := if hi == s.startPoint - 1 && lo < s.startPoint - 1 then [b] + acc.before else acc.before;
      Adjacency(before, after)
    else acc
  }

  /** One node goes in front of the before list, or at the end of the after list, when it passes that test. */
  lemma VisitAdjacentAddsOwnNode(s: Separator, b: Block, axis: Axis, acc: Adjacency)
    ensures VisitAdjacent(s, b, axis, acc)
         == Adjacency(Filter([b], BeforeTest(s, axis)) + acc.before, acc.after + Filter([b], AfterTest(s, axis)))
  {
    assert Filter([b], BeforeTest(s, axis)) == if IsAdjacentBefore(s, b, axis) then [b] else [];
    assert Filter([b], AfterTest(s, axis)) == if IsAdjacentAfter(s, b, axis) then [b] else [];
  }

  function FindAdjacentInChildren(s: Separator, cs: seq<Block>, axis: Axis, acc: Adjacency): Adjacency
    decreases cs, 0
  {
    if cs == [] then acc
    else FindAdjacentInChildren(s, cs[1..], axis, FindAdjacentBlocks(s, cs[0], axis, acc))
  }

  /** The blocks adjacent before `s`, in REVERSE pre-order, as the walk leaves them. */
  function BlocksBefore(s: Separator, root: Block, axis: Axis): seq<Block>
  {
    Reverse(Filter(PreOrder(root), BeforeTest(s, axis)))
  }

  /** The blocks adjacent after `s`, in pre-order. */
  function BlocksAfter(s: Separator, root: Block, axis: Axis): seq<Block>
  {
    Filter(PreOrder(root), AfterTest(s, axis))
  }

  /**
   * The adjacency walk puts the adjacent-before blocks of the tree, reversed, in front of what
   * it was given, and appends the adjacent-after blocks in pre-order.
   */
  lemma {:induction false} AdjacentBlocksAreFiltered(s: Separator, b: Block, axis: Axis, acc: Adjacency)
    ensures FindAdjacentBlocks(s, b, axis, acc)
         == Adjacency(Reverse(Filter(PreOrder(b), BeforeTest(s, axis))) + acc.before,
                      acc.after + Filter(PreOrder(b), AfterTest(s, axis)))
    decreases b, 1
  {
    var kids := PreOrderForest(b.children);
    var bt, at := BeforeTest(s, axis), AfterTest(s, axis);
    var ownBefore, ownAfter := Filter([b], bt), Filter([b], at);
    var acc' := VisitAdjacent(s, b, axis, acc);
    VisitAdjacentAddsOwnNode(s, b, axis, acc);
    AdjacentInChildrenAreFiltered(s, b.children, axis, acc');
    assert PreOrder(b) == [b] + kids;
    FilterConcat([b], kids, bt);
    FilterConcat([b], kids, at);
    ReverseConcat(ownBefore, Filter(kids, bt));
    ReverseShort(ownBefore);
    ConcatAssoc(Reverse(Filter(kids, bt)), ownBefore, acc.before);
    ConcatAssoc(acc.after, ownAfter, Filter(kids, at));
  }

  lemma {:induction false} AdjacentInChildrenAreFiltered(s: Separator, cs: seq<Block>, axis: Axis, acc: Adjacency)
    ensures FindAdjacentInChildren(s, cs, axis, acc)
         == Adjacency(Reverse(Filter(PreOrderForest(cs), BeforeTest(s, axis))) + acc.before,
                      acc.after + Filter(PreOrderForest(cs), AfterTest(s, axis)))
    decreases cs, 0
  {
    if cs != [] {
      var bt, at := BeforeTest(s, axis), AfterTest(s, axis);
      var head, rest := PreOrder(cs[0]), PreOrderForest(cs[1..]);
      var mid := FindAdjacentBlocks(s, cs[0], axis, acc);
      AdjacentBlocksAreFiltered(s, cs[0], axis, acc);
      AdjacentInChildrenAreFiltered(s, cs[1..], axis, mid);
      assert PreOrderForest(cs) == head + rest;
      FilterConcat(head, rest, bt);
      FilterConcat(head, rest, at);
      ReverseConcat(Filter(head, bt), Filter(rest, bt));
      ConcatAssoc(Reverse(Filter(rest, bt)), Reverse(Filter(head, bt)), acc.before);
      ConcatAssoc(acc.after, Filter(head, at), Filter(rest, at));
    }
  }

  /** Called with empty lists on the whole tree, the walk yields BlocksBefore and BlocksAfter. */
  lemma FindAdjacentFromRoot(s: Separator, root: Block, axis: Axis)
    ensures FindAdjacentBlocks(s, root, axis, Adjacency([], []))
         == Adjacency(BlocksBefore(s, root, axis), BlocksAfter(s, root, axis))
  {
    AdjacentBlocksAreFiltered(s, root, axis, Adjacency([], []));
  }
}
