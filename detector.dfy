/**
 * The detector object: it holds the visual-block tree, the flat list of its visual blocks,
 * one separator pool per axis, the page extent and the clean-up switch, and runs detection
 * on one axis at a time.
 */
module SeparatorDetection {
  import opened Seqs
  import opened Geometry
  import opened Navigator
  import opened Carving
  import opened Rules

  /**
   * The separators detection goes on to score: the pool [0, extent] carved by every visual
   * block in order, without those touching a border, and without the narrow ones when
   * clean-up is on.
   */
  function Candidates(visualBlocks: seq<Block>, extent: int, clean: bool, axis: Axis): seq<Separator>
  {
    var trimmed := Filter(CarveAll([NewSeparator(0, extent)], visualBlocks, axis), AwayFromBorders(extent));
    if clean then Filter(trimmed, IsWide) else trimmed
  }

  /** Each candidate scored by the rules of its axis, in pool order. */
  function ScoreAll(pool: seq<Separator>, root: Block, axis: Axis): seq<Separator>
  {
    seq(|pool|, k requires 0 <= k < |pool| => pool[k].(weight := pool[k].weight + RulesBonus(pool[k], root, axis)))
  }

  /** A pool scored one separator at a time, as computing the weights does, is ScoreAll of it. */
  lemma ScoredPoolIsScoreAll(pool: seq<Separator>, scored: seq<Separator>, root: Block, axis: Axis)
    requires |scored| == |pool|
    requires forall k :: 0 <= k < |pool| ==> scored[k] == pool[k].(weight := pool[k].weight + RulesBonus(pool[k], root, axis))
    ensures scored == ScoreAll(pool, root, axis)
  {
    var all := ScoreAll(pool, root, axis);
    assert |all| == |pool|;
    forall k | 0 <= k < |pool|
      ensures scored[k] == all[k]
    {
    }
  }

  /** The pool a non-empty detection leaves, before it is sorted by weight. */
  function Detected(visualBlocks: seq<Block>, root: Block, extent: int, clean: bool, axis: Axis): seq<Separator>
  {
    ScoreAll(Candidates(visualBlocks, extent, clean, axis), root, axis)
  }

  /**
   * A candidate is exactly a separator of the carved pool that touches neither border and,
   * with clean-up on, is at least 10 wide; every candidate still has weight 0.
   */
  lemma CandidatesAreTrimmedCarving(visualBlocks: seq<Block>, extent: int, clean: bool, axis: Axis)
    ensures forall s :: s in Candidates(visualBlocks, extent, clean, axis) <==>
              s in CarveAll([NewSeparator(0, extent)], visualBlocks, axis) &&
              s.startPoint != 0 && s.endPoint != extent &&
              (clean ==> SeparatorWidth(s) >= ShortSeparatorWidth)
    ensures forall s :: s in Candidates(visualBlocks, extent, clean, axis) ==> s.weight == 0
  {
    CarveAllKeepsZeroWeights([NewSeparator(0, extent)], visualBlocks, axis);
  }

  /**
   * A separator scored from weight 0 carries exactly the weight the rules give it, so at
   * least 1 on the vertical axis and at least -1 on the horizontal one.
   */
  lemma ScoredFromZero(c: Separator, root: Block, axis: Axis)
    requires c.weight == 0
    ensures c.(weight := c.weight + RulesBonus(c, root, axis)).weight
         == RulesBonus(c.(weight := c.weight + RulesBonus(c, root, axis)), root, axis)
    ensures axis == Vertical ==> RulesBonus(c, root, axis) >= 1
    ensures axis == Horizontal ==> RulesBonus(c, root, axis) >= -1
  {
    SameIntervalSameQueries(c.(weight := c.weight + RulesBonus(c, root, axis)), c, root, axis);
    RulesBonusLowerBound(c, root, axis);
  }

  /** Detection's promise about each separator it leaves, stated by position. */
  predicate DetectedSeparator(s: Separator, root: Block, extent: int, clean: bool, axis: Axis)
  {
    s.startPoint != 0 && s.endPoint != extent &&
    (clean ==> SeparatorWidth(s) >= ShortSeparatorWidth) &&
    s.weight == RulesBonus(s, root, axis) &&
    (axis == Vertical ==> s.weight >= 1) &&
    (axis == Horizontal ==> s.weight >= -1)
  }

  /**
   * What a non-empty detection promises about every separator it leaves: it touches neither
   * border, it is at least 10 wide when clean-up is on, and its weight is exactly what the
   * rules of its axis give it, so at least 1 on the vertical axis and at least -1 on the
   * horizontal one. There are never more of them than the carving left.
   */
  lemma DetectedProperties(visualBlocks: seq<Block>, root: Block, extent: int, clean: bool, axis: Axis)
    ensures |Detected(visualBlocks, root, extent, clean, axis)| <= |CarveAll([NewSeparator(0, extent)], visualBlocks, axis)|
    ensures forall s :: s in Detected(visualBlocks, root, extent, clean, axis) ==>
              DetectedSeparator(s, root, extent, clean, axis)
  {
    var cands := Candidates(visualBlocks, extent, clean, axis);
    var detected := Detected(visualBlocks, root, extent, clean, axis);
    CandidatesAreTrimmedCarving(visualBlocks, extent, clean, axis);
    forall k | 0 <= k < |detected|
      ensures DetectedSeparator(detected[k], root, extent, clean, axis)
    {
      var c := cands[k];
      assert detected[k] == c.(weight := c.weight + RulesBonus(c, root, axis));
      assert c in cands;
      ScoredFromZero(c, root, axis);
    }
    forall s | s in detected
      ensures DetectedSeparator(s, root, extent, clean, axis)
    {
      var k :| 0 <= k < |detected| && detected[k] == s;
    }
  }

  class SeparatorDetector {
    /** The visual-block tree the rules query; None until one is set. */
    var root: Option<Block>
    /** The visual blocks the carving goes through, in order. */
    var visualBlocks: seq<Block>
    var horizontalSeparators: seq<Separator>
    var verticalSeparators: seq<Separator>
    var width: int
    var height: int
    var cleanSeparators: bool

    /** A detector for a page of the given size, with no tree, no blocks, empty pools and clean-up off. */
    constructor (width: int, height: int)
      ensures this.width == width && this.height == height
      ensures root == None && visualBlocks == []
      ensures horizontalSeparators == [] && verticalSeparators == []
      ensures !cleanSeparators
    {
      this.width := width;
      this.height := height;
      root := None;
      visualBlocks := [];
      horizontalSeparators := [];
      verticalSeparators := [];
      cleanSeparators := false;
    }

    /** The pool of an axis: vertical separators cut the width, horizontal ones the height. */
    function Pool(axis: Axis): seq<Separator>
      reads this
    {
      if axis == Vertical then verticalSeparators else horizontalSeparators
    }

    /** The extent of an axis: the page width for vertical separators, its height for horizontal ones. */
    function Extent(axis: Axis): int
      reads this
    {
      if axis == Vertical then width else height
    }

    /** Replaces the pool of one axis, leaving the other as it is. */
    method SetPool(axis: Axis, pool: seq<Separator>)
      modifies this`horizontalSeparators, this`verticalSeparators
      ensures Pool(axis) == pool
      ensures axis == Vertical ==> horizontalSeparators == old(horizontalSeparators)
      ensures axis == Horizontal ==> verticalSeparators == old(verticalSeparators)
    {
      if axis == Vertical {
        verticalSeparators := pool;
      } else {
        horizontalSeparators := pool;
      }
    }

    /** Sets the tree and refills the visual-block list with its visual nodes in pre-order. */
    method SetVipsBlock(tree: Block)
      modifies this`root, this`visualBlocks
      ensures root == Some(tree)
      ensures visualBlocks == Filter(PreOrder(tree), IsVisual)
    {
      root := Some(tree);
      visualBlocks := [];
      visualBlocks := FillPoolWithBlocks(tree, visualBlocks);
      FillPoolCollectsVisualBlocks(tree, []);
    }

    /** Appends the visual nodes of the tree again, without clearing the list first. */
    method FillPool()
      requires root.Some?
      modifies this`visualBlocks
      ensures visualBlocks == old(visualBlocks) + Filter(PreOrder(root.value), IsVisual)
    {
      FillPoolCollectsVisualBlocks(root.value, visualBlocks);
      visualBlocks := FillPoolWithBlocks(root.value, visualBlocks);
    }

    /** Replaces the visual-block list with the given blocks. */
    method SetVisualBlocks(blocks: seq<Block>)
      modifies this`visualBlocks
      ensures visualBlocks == blocks
    {
      visualBlocks := [];
      visualBlocks := visualBlocks + blocks;
    }

    method SetCleanUpSeparators(clean: bool)
      modifies this`cleanSeparators
      ensures cleanSeparators == clean
    {
      cleanSeparators := clean;
    }

    /** Carves every visual block, in list order, out of the pool of the axis. */
    method FindSeparators(axis: Axis)
      modifies this`horizontalSeparators, this`verticalSeparators
      ensures Pool(axis) == CarveAll(old(Pool(axis)), visualBlocks, axis)
      ensures axis == Vertical ==> horizontalSeparators == old(horizontalSeparators)
      ensures axis == Horizontal ==> verticalSeparators == old(verticalSeparators)
    {
      var k := 0;
      while k < |visualBlocks|
        invariant 0 <= k <= |visualBlocks|
        invariant Pool(axis) == CarveAll(old(Pool(axis)), visualBlocks[..k], axis)
        invariant axis == Vertical ==> horizontalSeparators == old(horizontalSeparators)
        invariant axis == Horizontal ==> verticalSeparators == old(verticalSeparators)
      {
        var b := visualBlocks[k];
        var carved := CarveBlock(Pool(axis), BlockStart(b, axis), BlockEnd(b, axis), axis);
        SetPool(axis, carved);
        assert visualBlocks[..k + 1][..k] == visualBlocks[..k];
        k := k + 1;
      }
      assert visualBlocks[..k] == visualBlocks;
    }

    /**
     * Scores every separator of the pool of the axis with the rules of that axis. The rules
     * query the tree, so it is needed whenever the pool is not empty.
     */
    method ComputeWeights(axis: Axis)
      requires root.Some? || Pool(axis) == []
      modifies this`horizontalSeparators, this`verticalSeparators
      ensures root.Some? ==> Pool(axis) == ScoreAll(old(Pool(axis)), root.value, axis)
      ensures root.None? ==> Pool(axis) == old(Pool(axis))
      ensures axis == Vertical ==> horizontalSeparators == old(horizontalSeparators)
      ensures axis == Horizontal ==> verticalSeparators == old(verticalSeparators)
    {
      if root.Some? {
        var pool := Pool(axis);
        var scored := ScorePool(pool, root.value, axis);
        ScoredPoolIsScoreAll(pool, scored, root.value, axis);
        SetPool(axis, scored);
      }
    }

    /**
     * The part of detection before scoring: reseeds the pool of the axis with [0, extent],
     * carves every visual block out of it, removes the separators touching a border, and
     * with clean-up on removes the narrow ones.
     */
    method CarveAndTrim(axis: Axis)
      modifies this`horizontalSeparators, this`verticalSeparators
      ensures Pool(axis) == Candidates(visualBlocks, Extent(axis), cleanSeparators, axis)
      ensures axis == Vertical ==> horizontalSeparators == old(horizontalSeparators)
      ensures axis == Horizontal ==> verticalSeparators == old(verticalSeparators)
    {
      SetPool(axis, [NewSeparator(0, Extent(axis))]);
      FindSeparators(axis);
      var trimmed := RemovePoolBorders(Pool(axis), Extent(axis));
      SetPool(axis, trimmed);
      if cleanSeparators {
        var cleaned := CleanUpSeparators(Pool(axis));
        SetPool(axis, cleaned);
      }
    }

    /**
     * Detects the separators of one axis. With no visual blocks nothing changes. Otherwise
     * the pool is reseeded with [0, extent], carved, trimmed of border separators, cleaned
     * of narrow ones when clean-up is on, and scored; it then holds exactly the separators
     * of Detected (in an order the model does not fix). The tree is needed only when there is
     * something left to score.
     */
    method Detect(axis: Axis)
      requires root.Some? || visualBlocks == [] || Candidates(visualBlocks, Extent(axis), cleanSeparators, axis) == []
      modifies this`horizontalSeparators, this`verticalSeparators
      ensures visualBlocks == [] ==> Pool(axis) == old(Pool(axis))
      ensures visualBlocks != [] && root.Some? ==>
                multiset(Pool(axis)) == multiset(Detected(visualBlocks, root.value, Extent(axis), cleanSeparators, axis))
      ensures visualBlocks != [] && root.None? ==> Pool(axis) == []
      ensures visualBlocks != [] && root.Some? ==> forall s :: s in Pool(axis) ==>
                DetectedSeparator(s, root.value, Extent(axis), cleanSeparators, axis)
      ensures axis == Vertical ==> horizontalSeparators == old(horizontalSeparators)
      ensures axis == Horizontal ==> verticalSeparators == old(verticalSeparators)
    {
      if |visualBlocks| == 0 {
        return;
      }
      CarveAndTrim(axis);
      ComputeWeights(axis);
      if root.Some? {
        DetectedProperties(visualBlocks, root.value, Extent(axis), cleanSeparators, axis);
      }
    }
  }
}
