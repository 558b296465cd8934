/**
 * The weight rules. Each rule adds to a separator's weight; the queries they need (which
 * nodes overlap the separator, which visual blocks lie right before and right after it) are
 * the tree walks of Navigator, started at the root of the visual-block tree.
 */
module Rules {
  import opened Seqs
  import opened Geometry
  import opened Navigator

  /**
   * Rule one, distance: a separator narrower than 10 gains 1, a wider one gains one point per
   * full 10 units of width.
   */
  function RuleOne(s: Separator): (r: Separator)
    ensures r.startPoint == s.startPoint && r.endPoint == s.endPoint
    ensures r.weight - s.weight >= 1
    ensures SeparatorWidth(s) < 10 ==> r.weight - s.weight == 1
    ensures SeparatorWidth(s) >= 10 ==>
              10 * (r.weight - s.weight) <= SeparatorWidth(s) < 10 * (r.weight - s.weight + 1)
  {
    var width := s.endPoint - s.startPoint;
    var weight := if width < 10 then 1 else width / 10;
    s.(weight := s.weight + weight)
  }

  // ----- Rule two: an <hr> element over the separator -----

  /** Some node of the tree overlaps the separator and is an `hr` element. */
  predicate HrOverlaps(s: Separator, root: Block, axis: Axis)
  {
    exists n :: n in PreOrder(root) && Overlaps(s, n, axis) && n.tag == "hr"
  }

  /** An overlapping `hr` node exists exactly when the list of overlapped nodes holds one. */
  lemma HrAmongOverlapped(s: Separator, root: Block, axis: Axis, overlapped: seq<Block>)
    requires overlapped == Filter(PreOrder(root), OverlapTest(s, axis))
    ensures HrOverlaps(s, root, axis) <==> exists m :: 0 <= m < |overlapped| && overlapped[m].tag == "hr"
  {
    if HrOverlaps(s, root, axis) {
      var n :| n in PreOrder(root) && Overlaps(s, n, axis) && n.tag == "hr";
      assert OverlapTest(s, axis)(n);
      assert n in overlapped;
    }
    if m :| 0 <= m < |overlapped| && overlapped[m].tag == "hr" {
      assert overlapped[m] in overlapped;
      assert OverlapTest(s, axis)(overlapped[m]);
    }
  }

  /** Rule two: +2, once, when some overlapping node of the tree is an `hr` element. */
  method RuleTwo(s: Separator, root: Block, axis: Axis) returns (r: Separator)
    ensures r == s.(weight := s.weight + if HrOverlaps(s, root, axis) then 2 else 0)
  {
    var overlapped := FindOverlappedElements(s, root, axis, []);
    assert HrOverlaps(s, root, axis) <==> exists m :: 0 <= m < |overlapped| && overlapped[m].tag == "hr" by {
      OverlappedElementsAreFiltered(s, root, axis, []);
      HrAmongOverlapped(s, root, axis, overlapped);
    }
    r := s;
    if |overlapped| == 0 {
      return;
    }
    var k := 0;
    while k < |overlapped|
      invariant 0 <= k <= |overlapped|
      invariant r == s
      invariant forall m :: 0 <= m < k ==> overlapped[m].tag != "hr"
    {
      if overlapped[k].tag == "hr" {
        r := r.(weight := r.weight + 2);
        break;
      }
      k := k + 1;
    }
  }

  // ----- Rule three: background colours on the two sides -----

  /** How many blocks of `after` have a background colour different from `b`'s. */
  function ColourDifferences(b: Block, after: seq<Block>): nat
  {
    if after == [] then 0
    else ColourDifferences(b, after[..|after| - 1]) + (if b.bgColor != after[|after| - 1].bgColor then 1 else 0)
  }

  /** How many (before, after) pairs have different background colours. */
  function DifferingColourPairs(before: seq<Block>, after: seq<Block>): nat
  {
    if before == [] then 0
    else DifferingColourPairs(before[..|before| - 1], after) + ColourDifferences(before[|before| - 1], after)
  }

  lemma ColourDifferencesSnoc(b: Block, after: seq<Block>, a: Block)
    ensures ColourDifferences(b, after + [a]) == ColourDifferences(b, after) + (if b.bgColor != a.bgColor then 1 else 0)
  {
    assert (after + [a])[..|after|] == after;
  }

  lemma DifferingColourPairsSnoc(before: seq<Block>, b: Block, after: seq<Block>)
    ensures DifferingColourPairs(before + [b], after) == DifferingColourPairs(before, after) + ColourDifferences(b, after)
  {
    assert (before + [b])[..|before|] == before;
  }

  lemma {:induction false} ColourDifferencesBounds(b: Block, after: seq<Block>)
    ensures ColourDifferences(b, after) <= |after|
    ensures ColourDifferences(b, after) == 0 <==> forall j :: 0 <= j < |after| ==> b.bgColor == after[j].bgColor
    ensures ColourDifferences(b, after) == |after| <==> forall j :: 0 <= j < |after| ==> b.bgColor != after[j].bgColor
  {
    if after != [] {
      var init := after[..|after| - 1];
      ColourDifferencesBounds(b, init);
      assert forall j :: 0 <= j < |init| ==> init[j] == after[j];
    }
  }

  /** There are never more differing pairs than pairs. */
  lemma {:induction false} DifferingColourPairsAtMost(before: seq<Block>, after: seq<Block>)
    ensures DifferingColourPairs(before, after) <= |before| * |after|
  {
    if before != [] {
      var init := before[..|before| - 1];
      DifferingColourPairsAtMost(init, after);
      ColourDifferencesBounds(before[|before| - 1], after);
      assert |before| * |after| == |init| * |after| + |after|;
    }
  }

  /** No pair differs exactly when every (before, after) pair shares its background colour. */
  lemma {:induction false} DifferingColourPairsNone(before: seq<Block>, after: seq<Block>)
    ensures DifferingColourPairs(before, after) == 0 <==>
              forall i, j :: 0 <= i < |before| && 0 <= j < |after| ==> before[i].bgColor == after[j].bgColor
  {
    if before != [] {
      var init, last := before[..|before| - 1], before[|before| - 1];
      DifferingColourPairsNone(init, after);
      ColourDifferencesBounds(last, after);
      assert forall i :: 0 <= i < |init| ==> init[i] == before[i];
    }
  }

  /** Every pair differs exactly when the count reaches |before| * |after|. */
  lemma {:induction false} DifferingColourPairsAll(before: seq<Block>, after: seq<Block>)
    ensures DifferingColourPairs(before, after) == |before| * |after| <==>
              forall i, j :: 0 <= i < |before| && 0 <= j < |after| ==> before[i].bgColor != after[j].bgColor
  {
    if before != [] {
      var init, last := before[..|before| - 1], before[|before| - 1];
      DifferingColourPairsAll(init, after);
      DifferingColourPairsAtMost(init, after);
      ColourDifferencesBounds(last, after);
      assert |before| * |after| == |init| * |after| + |after|;
      assert forall i :: 0 <= i < |init| ==> init[i] == before[i];
    }
  }

  /** Rule three: +2 for every (before, after) pair of adjacent blocks whose background colours differ. */
  method RuleThree(s: Separator, root: Block, axis: Axis) returns (r: Separator)
    ensures r == s.(weight := s.weight + 2 * DifferingColourPairs(BlocksBefore(s, root, axis), BlocksAfter(s, root, axis)))
  {
    var adjacent := FindAdjacentBlocks(s, root, axis, Adjacency([], []));
    var top, bottom := adjacent.before, adjacent.after;
    r := s;
    if |top| < 1 || |bottom| < 1 {
      FindAdjacentFromRoot(s, root, axis);
      DifferingColourPairsNone(top, bottom);
      return;
    }
    ghost var pairs := 0;
    var i := 0;
    while i < |top|
      invariant 0 <= i <= |top|
      invariant pairs == DifferingColourPairs(top[..i], bottom)
      invariant r == s.(weight := s.weight + 2 * pairs)
    {
      ghost var differing := 0;
      var j := 0;
      while j < |bottom|
        invariant 0 <= j <= |bottom|
        invariant differing == ColourDifferences(top[i], bottom[..j])
        invariant r == s.(weight := s.weight + 2 * pairs + 2 * differing)
      {
        ColourDifferencesSnoc(top[i], bottom[..j], bottom[j]);
        assert bottom[..j + 1] == bottom[..j] + [bottom[j]];
        if top[i].bgColor != bottom[j].bgColor {
          r := r.(weight := r.weight + 2);
          differing := differing + 1;
        }
        j := j + 1;
      }
      assert bottom[..j] == bottom;
      DifferingColourPairsSnoc(top[..i], top[i], bottom);
      assert top[..i + 1] == top[..i] + [top[i]];
      pairs := pairs + differing;
      i := i + 1;
    }
    assert top[..i] == top;
    FindAdjacentFromRoot(s, root, axis);
  }

  // ----- Rule four: font sizes on the two sides (horizontal separators) -----

  predicate SomeFontDiffers(before: seq<Block>, after: seq<Block>)
  {
    exists i, j :: 0 <= i < |before| && 0 <= j < |after| && before[i].fontSize != after[j].fontSize
  }

  predicate SomeFontGrows(before: seq<Block>, after: seq<Block>)
  {
    exists i, j :: 0 <= i < |before| && 0 <= j < |after| && before[i].fontSize < after[j].fontSize
  }

  /** Rule four's addition: 2 once for a font-size difference, and 2 once more for a smaller font above. */
  function FontContrastBonus(before: seq<Block>, after: seq<Block>): int
  {
    (if SomeFontDiffers(before, after) then 2 else 0) + (if SomeFontGrows(before, after) then 2 else 0)
  }

  /**
   * Rule four adds 4 when some block above has a smaller font than some block below, 2 when
   * fonts differ but never that way round, and 0 when every pair has the same font size.
   */
  lemma FontContrastBonusCases(before: seq<Block>, after: seq<Block>)
    ensures FontContrastBonus(before, after) == 4 <==> SomeFontGrows(before, after)
    ensures FontContrastBonus(before, after) == 2 <==> SomeFontDiffers(before, after) && !SomeFontGrows(before, after)
    ensures FontContrastBonus(before, after) == 0 <==>
              forall i, j :: 0 <= i < |before| && 0 <= j < |after| ==> before[i].fontSize == after[j].fontSize
  {
    if SomeFontGrows(before, after) {
      var i, j :| 0 <= i < |before| && 0 <= j < |after| && before[i].fontSize < after[j].fontSize;
      assert before[i].fontSize != after[j].fontSize;
    }
  }

  /**
   * Rule four, on the horizontal adjacency lists: +2 once if some (above, below) pair differs
   * in font size, and +2 once more if some block above has a smaller font than one below.
   */
  method RuleFour(s: Separator, root: Block) returns (r: Separator)
    ensures r == s.(weight := s.weight + FontContrastBonus(BlocksBefore(s, root, Horizontal), BlocksAfter(s, root, Horizontal)))
  {
    var adjacent := FindAdjacentBlocks(s, root, Horizontal, Adjacency([], []));
    var top, bottom := adjacent.before, adjacent.after;
    r := s;
    if |top| < 1 || |bottom| < 1 {
      FindAdjacentFromRoot(s, root, Horizontal);
      return;
    }

    var increased := false;
    var i := 0;
    while i < |top|
      invariant 0 <= i <= |top|
      invariant !increased
      invariant r == s
      invariant forall p, q :: 0 <= p < i && 0 <= q < |bottom| ==> top[p].fontSize == bottom[q].fontSize
    {
      var j := 0;
      while j < |bottom|
        invariant 0 <= j <= |bottom|
        invariant !increased && r == s
        invariant forall q :: 0 <= q < j ==> top[i].fontSize == bottom[q].fontSize
      {
        if top[i].fontSize != bottom[j].fontSize {
          r := r.(weight := r.weight + 2);
          increased := true;
          break;
        }
        j := j + 1;
      }
      if increased {
        break;
      }
      i := i + 1;
    }
    assert increased <==> SomeFontDiffers(top, bottom);
    ghost var afterFirst := r;

    increased := false;
    i := 0;
    while i < |top|
      invariant 0 <= i <= |top|
      invariant !increased
      invariant r == afterFirst
      invariant forall p, q :: 0 <= p < i && 0 <= q < |bottom| ==> !(top[p].fontSize < bottom[q].fontSize)
    {
      var j := 0;
      while j < |bottom|
        invariant 0 <= j <= |bottom|
        invariant !increased && r == afterFirst
        invariant forall q :: 0 <= q < j ==> !(top[i].fontSize < bottom[q].fontSize)
      {
        if top[i].fontSize < bottom[j].fontSize {
          r := r.(weight := r.weight + 2);
          increased := true;
          break;
        }
        j := j + 1;
      }
      if increased {
        break;
      }
      i := i + 1;
    }
    assert increased <==> SomeFontGrows(top, bottom);
    FindAdjacentFromRoot(s, root, Horizontal);
  }

  // ----- Rule five: text on both sides (horizontal separators) -----

  predicate SomeBothText(before: seq<Block>, after: seq<Block>)
  {
    exists i, j :: 0 <= i < |before| && 0 <= j < |after| && before[i].isText && after[j].isText
  }

  /** Rule five, on the horizontal adjacency lists: -2, once, when some (above, below) pair are both text boxes. */
  method RuleFive(s: Separator, root: Block) returns (r: Separator)
    ensures r == s.(weight := s.weight - if SomeBothText(BlocksBefore(s, root, Horizontal), BlocksAfter(s, root, Horizontal)) then 2 else 0)
  {
    var adjacent := FindAdjacentBlocks(s, root, Horizontal, Adjacency([], []));
    var top, bottom := adjacent.before, adjacent.after;
    r := s;
    if |top| < 1 || |bottom| < 1 {
      FindAdjacentFromRoot(s, root, Horizontal);
      return;
    }
    var decreased := false;
    var i := 0;
    while i < |top|
      invariant 0 <= i <= |top|
      invariant !decreased && r == s
      invariant forall p, q :: 0 <= p < i && 0 <= q < |bottom| ==> !(top[p].isText && bottom[q].isText)
    {
      var j := 0;
      while j < |bottom|
        invariant 0 <= j <= |bottom|
        invariant !decreased && r == s
        invariant forall q :: 0 <= q < j ==> !(top[i].isText && bottom[q].isText)
      {
        if top[i].isText && bottom[j].isText {
          r := r.(weight := r.weight - 2);
          decreased := true;
          break;
        }
        j := j + 1;
      }
      if decreased {
        break;
      }
      i := i + 1;
    }
    assert decreased <==> SomeBothText(top, bottom);
    FindAdjacentFromRoot(s, root, Horizontal);
  }

  // ----- All rules together -----

  /**
   * What scoring adds to a separator: rules one to three on both axes, rules four and five
   * on the horizontal axis only.
   */
  function RulesBonus(s: Separator, root: Block, axis: Axis): int
  {
    var before, after := BlocksBefore(s, root, axis), BlocksAfter(s, root, axis);
    var common := (RuleOne(s).weight - s.weight)
                  + (if HrOverlaps(s, root, axis) then 2 else 0)
                  + 2 * DifferingColourPairs(before, after);
    if axis == Vertical then common
    else common + FontContrastBonus(before, after) - (if SomeBothText(before, after) then 2 else 0)
  }

  /**
   * Scoring adds at least 1 to a vertical separator's weight and at least -1 to a horizontal
   * one's: rule one always adds at least 1, rules two to four never subtract, rule five
   * subtracts at most 2.
   */
  lemma RulesBonusLowerBound(s: Separator, root: Block, axis: Axis)
    ensures axis == Vertical ==> RulesBonus(s, root, axis) >= 1
    ensures axis == Horizontal ==> RulesBonus(s, root, axis) >= -1
  {
  }

  /** The rules look only at a separator's interval, never at the weight it has so far. */
  lemma SameIntervalSameQueries(a: Separator, b: Separator, root: Block, axis: Axis)
    requires a.startPoint == b.startPoint && a.endPoint == b.endPoint
    ensures HrOverlaps(a, root, axis) == HrOverlaps(b, root, axis)
    ensures BlocksBefore(a, root, axis) == BlocksBefore(b, root, axis)
    ensures BlocksAfter(a, root, axis) == BlocksAfter(b, root, axis)
  {
    assert forall n :: Overlaps(a, n, axis) == Overlaps(b, n, axis);
    FilterCongruent(PreOrder(root), BeforeTest(a, axis), BeforeTest(b, axis));
    FilterCongruent(PreOrder(root), AfterTest(a, axis), AfterTest(b, axis));
  }

  /**
   * Applies the rules to one separator: one to three on both axes, four and five on the
   * horizontal axis. Each rule reads only the separator's interval, so the order in which
   * they add up does not matter.
   */
  method ScoreSeparator(sep: Separator, root: Block, axis: Axis) returns (s: Separator)
    ensures s == sep.(weight := sep.weight + RulesBonus(sep, root, axis))
  {
    s := RuleOne(sep);
    SameIntervalSameQueries(s, sep, root, axis);
    s := RuleTwo(s, root, axis);
    SameIntervalSameQueries(s, sep, root, axis);
    s := RuleThree(s, root, axis);
    SameIntervalSameQueries(s, sep, root, axis);
    if axis == Horizontal {
      s := RuleFour(s, root);
      SameIntervalSameQueries(s, sep, root, axis);
      s := RuleFive(s, root);
    }
  }

  /** Scores every separator of the pool in order; the intervals themselves are left as they are. */
  method ScorePool(pool: seq<Separator>, root: Block, axis: Axis) returns (scored: seq<Separator>)
    ensures |scored| == |pool|
    ensures forall k :: 0 <= k < |pool| ==>
              scored[k] == pool[k].(weight := pool[k].weight + RulesBonus(pool[k], root, axis))
  {
    scored := [];
    var k := 0;
    while k < |pool|
      invariant 0 <= k <= |pool|
      invariant |scored| == k
      invariant forall m :: 0 <= m < k ==>
                  scored[m] == pool[m].(weight := pool[m].weight + RulesBonus(pool[m], root, axis))
    {
      var s := ScoreSeparator(pool[k], root, axis);
      scored := scored + [s];
      k := k + 1;
    }
  }
}
