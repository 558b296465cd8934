/**
 * Carving one axis' separator pool against the projections of the visual blocks.
 *
 * The pool is an ordered list of separators. For each block the scan stops at the first
 * separator whose end is not before the block's start (the matched separator) and applies
 * exactly one of six cases to the pool. `Carve` states the effect of one block as a
 * function; `CarveBlock` is the scan as the detector runs it, proved to have that effect.
 */
module Carving {
  import opened Seqs
  import opened Geometry

  /** Separators narrower than this are dropped by the optional clean-up. */
  const ShortSeparatorWidth := 10

  /** How a block meets the pool: no separator reached, or one of the six cases. */
  datatype Case = NoMatch | Engulf | DisjointAfter | HeadClip | Split | Bridge | TailClip

  function Reaches(blockStart: int): Separator -> bool
  {
    (s: Separator) => blockStart <= s.endPoint
  }

  /** The position of the separator a block starting at `blockStart` is matched against (or `|pool|`). */
  function Matched(pool: seq<Separator>, blockStart: int): nat
  {
    FirstWhere(pool, Reaches(blockStart))
  }

  /** The separator lies strictly inside the block's projection. */
  predicate Engulfed(s: Separator, blockStart: int, blockEnd: int)
  {
    blockStart < s.startPoint && blockEnd > s.endPoint
  }

  function Survives(blockStart: int, blockEnd: int): Separator -> bool
  {
    s => !Engulfed(s, blockStart, blockEnd)
  }

  /** The block's end falls strictly inside the separator. */
  predicate Straddles(s: Separator, blockEnd: int)
  {
    blockEnd > s.startPoint && blockEnd < s.endPoint
  }

  function StraddleTest(blockEnd: int): Separator -> bool
  {
    s => Straddles(s, blockEnd)
  }

  /**
   * The separator starts inside the block. The vertical axis asks for a block start strictly
   * before the separator's start, the horizontal axis also accepts an equal start.
   */
  predicate HeadClips(s: Separator, blockStart: int, blockEnd: int, axis: Axis)
  {
    (if axis == Vertical then blockStart < s.startPoint else blockStart <= s.startPoint) &&
    blockEnd >= s.startPoint
  }

  /** The case that fires, tested in the detector's order; the first that holds wins. */
  function CaseOf(pool: seq<Separator>, blockStart: int, blockEnd: int, axis: Axis): (c: Case)
    ensures c != NoMatch <==> Matched(pool, blockStart) < |pool|
    ensures c == Bridge ==> Matched(pool, blockStart) + 1 < |pool|
  {
    var i := Matched(pool, blockStart);
    if i == |pool| then NoMatch
    else
      var s := pool[i];
      if Engulfed(s, blockStart, blockEnd) then Engulf
      else if blockEnd < s.startPoint then DisjointAfter
      else if HeadClips(s, blockStart, blockEnd, axis) then HeadClip
      else if blockStart > s.startPoint && blockEnd < s.endPoint then Split
      else if blockStart > s.startPoint && blockStart < s.endPoint && i + 1 < |pool| && Straddles(pool[i + 1], blockEnd) then Bridge
      else TailClip
  }

  /** Moves the start of the first separator the block's end falls into to just past the block. */
  function ClipStraddling(pool: seq<Separator>, blockEnd: int): seq<Separator>
  {
    var j := FirstWhere(pool, StraddleTest(blockEnd));
    if j == |pool| then pool else pool[j := pool[j].(startPoint := blockEnd + 1)]
  }

  /** The pool after one block with projection [blockStart, blockEnd] has been carved out of it. */
  function Carve(pool: seq<Separator>, blockStart: int, blockEnd: int, axis: Axis): seq<Separator>
  {
    var i := Matched(pool, blockStart);
    match CaseOf(pool, blockStart, blockEnd, axis)
    case NoMatch => pool
    case Engulf => ClipStraddling(Filter(pool, Survives(blockStart, blockEnd)), blockEnd)
    case DisjointAfter => pool
    case HeadClip => pool[i := pool[i].(startPoint := blockEnd + 1)]
    case Split =>
      pool[..i] + [pool[i].(endPoint := blockStart - 1), NewSeparator(blockEnd + 1, pool[i].endPoint)] + pool[i + 1..]
    case Bridge =>
      pool[i := pool[i].(endPoint := blockStart - 1)][i + 1 := pool[i + 1].(startPoint := blockEnd + 1)]
    case TailClip => pool[i := pool[i].(endPoint := blockStart - 1)]
  }

  /** The pool after the blocks, in order, have each been carved out of it. */
  function CarveAll(pool: seq<Separator>, blocks: seq<Block>, axis: Axis): seq<Separator>
    decreases |blocks|
  {
    if blocks == [] then pool
    else
      var b := blocks[|blocks| - 1];
      Carve(CarveAll(pool, blocks[..|blocks| - 1], axis), BlockStart(b, axis), BlockEnd(b, axis), axis)
  }

  /**
   * One iteration of the detector's loop over the visual blocks: scan the pool for the
   * matched separator and apply the first case whose condition holds.
   */
  method CarveBlock(pool: seq<Separator>, blockStart: int, blockEnd: int, axis: Axis) returns (r: seq<Separator>)
    ensures r == Carve(pool, blockStart, blockEnd, axis)
  {
    r := pool;
    var i := 0;
    while i < |pool| && blockStart > pool[i].endPoint
      invariant 0 <= i <= |pool|
      invariant forall k :: 0 <= k < i ==> pool[k].endPoint < blockStart
    {
      i := i + 1;
    }
    assert i == Matched(pool, blockStart);
    if i == |pool| {
      return;
    }
    var s := pool[i];
    if blockStart < s.startPoint && blockEnd > s.endPoint {
      // remove every separator the block engulfs
      var kept: seq<Separator> := [];
      var k := 0;
      while k < |pool|
        invariant 0 <= k <= |pool|
        invariant kept == Filter(pool[..k], Survives(blockStart, blockEnd))
      {
        assert pool[..k + 1] == pool[..k] + [pool[k]];
        FilterSnoc(pool[..k], pool[k], Survives(blockStart, blockEnd));
        if !(blockStart < pool[k].startPoint && blockEnd > pool[k].endPoint) {
          assert Survives(blockStart, blockEnd)(pool[k]);
          kept := kept + [pool[k]];
        } else {
          assert !Survives(blockStart, blockEnd)(pool[k]);
        }
        k := k + 1;
      }
      assert pool[..k] == pool;
      // move the start of the separator the block ends in, if there is one
      var j := 0;
      while j < |kept| && !(blockEnd > kept[j].startPoint && blockEnd < kept[j].endPoint)
        invariant 0 <= j <= |kept|
        invariant forall m :: 0 <= m < j ==> !Straddles(kept[m], blockEnd)
      {
        j := j + 1;
      }
      assert j == FirstWhere(kept, StraddleTest(blockEnd));
      r := if j < |kept| then kept[j := kept[j].(startPoint := blockEnd + 1)] else kept;
      assert r == ClipStraddling(kept, blockEnd);
      assert CaseOf(pool, blockStart, blockEnd, axis) == Engulf;
      return;
    }
    if blockEnd < s.startPoint {
      assert CaseOf(pool, blockStart, blockEnd, axis) == DisjointAfter;
      return;
    }
    if HeadClips(s, blockStart, blockEnd, axis) {
      r := pool[i := s.(startPoint := blockEnd + 1)];
      assert CaseOf(pool, blockStart, blockEnd, axis) == HeadClip;
      return;
    }
    if blockStart > s.startPoint && blockEnd < s.endPoint {
      r := pool[..i] + [s.(endPoint := blockStart - 1), NewSeparator(blockEnd + 1, s.endPoint)] + pool[i + 1..];
      assert CaseOf(pool, blockStart, blockEnd, axis) == Split;
      return;
    }
    if blockStart > s.startPoint && blockStart < s.endPoint && i + 1 < |pool| {
      var next := pool[i + 1];
      if blockEnd > next.startPoint && blockEnd < next.endPoint {
        r := pool[i := s.(endPoint := blockStart - 1)][i + 1 := next.(startPoint := blockEnd + 1)];
        assert CaseOf(pool, blockStart, blockEnd, axis) == Bridge;
        return;
      }
    }
    r := pool[i := s.(endPoint := blockStart - 1)];
    assert CaseOf(pool, blockStart, blockEnd, axis) == TailClip;
  }

  // ----- What one block does to the pool -----

  /**
   * The separators before the matched one stay where they are, unchanged. In the engulf case
   * this needs none of them to start after the block's start (an inverted separator there
   * would count as engulfed and be removed).
   */
  lemma CarveKeepsUnreachedPrefix(pool: seq<Separator>, blockStart: int, blockEnd: int, axis: Axis)
    requires CaseOf(pool, blockStart, blockEnd, axis) == Engulf ==>
               forall k :: 0 <= k < Matched(pool, blockStart) ==> pool[k].startPoint <= blockStart
    ensures Matched(pool, blockStart) <= |Carve(pool, blockStart, blockEnd, axis)|
    ensures Carve(pool, blockStart, blockEnd, axis)[..Matched(pool, blockStart)] == pool[..Matched(pool, blockStart)]
  {
    var i, c := Matched(pool, blockStart), CaseOf(pool, blockStart, blockEnd, axis);
    if c == Engulf {
      EngulfKeepsPrefix(pool, blockStart, blockEnd, i);
    } else if c == Split {
      var r := Carve(pool, blockStart, blockEnd, axis);
      var left := pool[..i] + [pool[i].(endPoint := blockStart - 1), NewSeparator(blockEnd + 1, pool[i].endPoint)];
      assert r == left + pool[i + 1..];
      assert r[..i] == left[..i];
    }
  }

  /**
   * The engulf-case requirement above is needed: the separators before the matched one can
   * be removed. On the horizontal axis with extent 100, the blocks (y, height) = (20, 10),
   * (50, 10) and (31, 25) leave [0, 19], an inverted [57, 49] from the head-clip, and
   * [61, 100]. The block (52, 50) is then matched against [61, 100] and engulfs it, and the
   * same removal also drops [57, 49], which lies before the matched separator.
   */
  lemma EngulfCanRemoveUnreachedSeparator()
    ensures var blocks := [Band(20, 10), Band(50, 10), Band(31, 25), Band(52, 50)];
      var before := CarveAll([NewSeparator(0, 100)], blocks[..3], Horizontal);
      before == [NewSeparator(0, 19), NewSeparator(57, 49), NewSeparator(61, 100)] &&
      Matched(before, 52) == 2 &&
      CaseOf(before, 52, 102, Horizontal) == Engulf &&
      CarveAll([NewSeparator(0, 100)], blocks, Horizontal) == [NewSeparator(0, 19)] &&
      CarveAll([NewSeparator(0, 100)], blocks, Horizontal)[..1] == before[..1] &&
      |CarveAll([NewSeparator(0, 100)], blocks, Horizontal)| < Matched(before, 52)
  {
    var blocks := [Band(20, 10), Band(50, 10), Band(31, 25), Band(52, 50)];
    var seed := [NewSeparator(0, 100)];
    assert blocks[..1][..0] == [];
    assert CarveAll(seed, blocks[..1], Horizontal) == Carve(seed, 20, 30, Horizontal);
    assert Reaches(20)(seed[0]);
    assert Matched(seed, 20) == 0;
    assert CaseOf(seed, 20, 30, Horizontal) == Split;
    var p1 := [NewSeparator(0, 19), NewSeparator(31, 100)];
    assert Carve(seed, 20, 30, Horizontal) == p1;

    assert blocks[..2][..1] == blocks[..1];
    assert CarveAll(seed, blocks[..2], Horizontal) == Carve(p1, 50, 60, Horizontal);
    assert !Reaches(50)(p1[0]) && Reaches(50)(p1[1]);
    assert FirstWhere(p1[1..], Reaches(50)) == 0;
    assert Matched(p1, 50) == 1;
    assert CaseOf(p1, 50, 60, Horizontal) == Split;
    var p2 := [NewSeparator(0, 19), NewSeparator(31, 49), NewSeparator(61, 100)];
    assert Carve(p1, 50, 60, Horizontal) == p2;

    assert blocks[..3][..2] == blocks[..2];
    assert CarveAll(seed, blocks[..3], Horizontal) == Carve(p2, 31, 56, Horizontal);
    assert !Reaches(31)(p2[0]) && Reaches(31)(p2[1]);
    assert FirstWhere(p2[1..], Reaches(31)) == 0;
    assert Matched(p2, 31) == 1;
    assert CaseOf(p2, 31, 56, Horizontal) == HeadClip;
    var p3 := [NewSeparator(0, 19), NewSeparator(57, 49), NewSeparator(61, 100)];
    assert Carve(p2, 31, 56, Horizontal) == p3;

    assert blocks[..4] == blocks;
    assert CarveAll(seed, blocks, Horizontal) == Carve(p3, 52, 102, Horizontal);
    assert !Reaches(52)(p3[0]) && !Reaches(52)(p3[1]) && Reaches(52)(p3[2]);
    assert FirstWhere(p3[2..], Reaches(52)) == 0;
    assert FirstWhere(p3[1..], Reaches(52)) == 1;
    assert Matched(p3, 52) == 2;
    assert CaseOf(p3, 52, 102, Horizontal) == Engulf;
    var sv := Survives(52, 102);
    assert sv(p3[0]) && !sv(p3[1]) && !sv(p3[2]);
    assert Filter(p3[2..], sv) == [];
    assert Filter(p3[1..], sv) == [];
    var kept := Filter(p3, sv);
    assert kept == [NewSeparator(0, 19)];
    assert !StraddleTest(102)(kept[0]);
    assert FirstWhere(kept, StraddleTest(102)) == 1;
  }

  /** A block that spans only [y, y + height] on the horizontal axis. */
  function Band(y: int, height: int): Block
  {
    Block(0, y, 0, height, 0, 0, "", true, false, [])
  }

  lemma EngulfKeepsPrefix(pool: seq<Separator>, blockStart: int, blockEnd: int, i: nat)
    requires i <= |pool| && blockStart < blockEnd
    requires forall k :: 0 <= k < i ==> pool[k].endPoint < blockStart && pool[k].startPoint <= blockStart
    ensures var r := ClipStraddling(Filter(pool, Survives(blockStart, blockEnd)), blockEnd);
      i <= |r| && r[..i] == pool[..i]
  {
    var sv := Survives(blockStart, blockEnd);
    assert pool == pool[..i] + pool[i..];
    FilterConcat(pool[..i], pool[i..], sv);
    FilterAllPass(pool[..i], sv);
    var kept := Filter(pool, sv);
    assert kept == pool[..i] + Filter(pool[i..], sv);
    assert kept[..i] == pool[..i];
    var j := FirstWhere(kept, StraddleTest(blockEnd));
    assert j >= i;
  }

  /**
   * Outside engulf and split the pool keeps its length and only the matched separator
   * changes, together with its successor in the bridge case. Head-clip moves the matched
   * start past the block, tail-clip moves its end before the block, bridge does both to the
   * matched separator's end and the successor's start; a block that ends before the matched
   * separator (or reaches none) leaves the pool as it was.
   */
  lemma CarveChangesOnlyMatched(pool: seq<Separator>, blockStart: int, blockEnd: int, axis: Axis)
    requires CaseOf(pool, blockStart, blockEnd, axis) !in {Engulf, Split}
    ensures var c, i, r := CaseOf(pool, blockStart, blockEnd, axis), Matched(pool, blockStart), Carve(pool, blockStart, blockEnd, axis);
      |r| == |pool| &&
      (forall k :: 0 <= k < |pool| && k != i && (c != Bridge || k != i + 1) ==> r[k] == pool[k]) &&
      (c == NoMatch || c == DisjointAfter ==> r == pool) &&
      (c == HeadClip ==> r[i] == pool[i].(startPoint := blockEnd + 1)) &&
      (c == TailClip || c == Bridge ==> r[i] == pool[i].(endPoint := blockStart - 1)) &&
      (c == Bridge ==> r[i + 1] == pool[i + 1].(startPoint := blockEnd + 1))
  {
  }

  /**
   * Split is the only case that grows the pool (by exactly one), engulf the only one that
   * shrinks it; every other case keeps its length.
   */
  lemma {:induction false} CarveLength(pool: seq<Separator>, blockStart: int, blockEnd: int, axis: Axis)
    ensures var c, r := CaseOf(pool, blockStart, blockEnd, axis), Carve(pool, blockStart, blockEnd, axis);
      (c == Split <==> |r| == |pool| + 1) &&
      (c == Engulf <==> |r| < |pool|) &&
      (c !in {Split, Engulf} <==> |r| == |pool|)
  {
    if CaseOf(pool, blockStart, blockEnd, axis) == Engulf {
      var i := Matched(pool, blockStart);
      FilterShrinks(pool, Survives(blockStart, blockEnd), i);
    }
  }

  /**
   * Split replaces the matched separator [s, e] by [s, blockStart - 1] followed by a fresh
   * [blockEnd + 1, e], leaving the rest of the pool around them as it was. Both pieces are
   * well-formed intervals.
   */
  lemma CarveSplitEffect(pool: seq<Separator>, blockStart: int, blockEnd: int, axis: Axis)
    requires CaseOf(pool, blockStart, blockEnd, axis) == Split
    ensures var i, r := Matched(pool, blockStart), Carve(pool, blockStart, blockEnd, axis);
      |r| == |pool| + 1 &&
      r[..i] == pool[..i] &&
      r[i] == pool[i].(endPoint := blockStart - 1) &&
      r[i + 1] == NewSeparator(blockEnd + 1, pool[i].endPoint) &&
      r[i + 2..] == pool[i + 1..] &&
      r[i].startPoint <= r[i].endPoint && r[i + 1].startPoint <= r[i + 1].endPoint
  {
    var i, r := Matched(pool, blockStart), Carve(pool, blockStart, blockEnd, axis);
    assert r[i + 2..] == pool[i + 1..];
  }

  /**
   * Engulf removes exactly the separators strictly inside the block, keeping the others in
   * order, and then moves the start of at most one survivor (the first one the block's end
   * falls into) to just past the block.
   */
  lemma CarveEngulfEffect(pool: seq<Separator>, blockStart: int, blockEnd: int, axis: Axis)
    requires CaseOf(pool, blockStart, blockEnd, axis) == Engulf
    ensures var kept, r := Filter(pool, Survives(blockStart, blockEnd)), Carve(pool, blockStart, blockEnd, axis);
      (forall x :: x in kept <==> x in pool && !Engulfed(x, blockStart, blockEnd)) &&
      |r| == |kept| < |pool| &&
      (forall k :: 0 <= k < |r| && r[k] != kept[k] ==>
         r[k] == kept[k].(startPoint := blockEnd + 1) && Straddles(kept[k], blockEnd) &&
         forall m :: 0 <= m < k ==> !Straddles(kept[m], blockEnd)) &&
      (forall j, k :: 0 <= j < |r| && 0 <= k < |r| && r[j] != kept[j] && r[k] != kept[k] ==> j == k) &&
      (var j := FirstWhere(kept, StraddleTest(blockEnd));
         (j < |kept| ==> r[j] == kept[j].(startPoint := blockEnd + 1)) &&
         (j == |kept| ==> r == kept))
  {
    CarveLength(pool, blockStart, blockEnd, axis);
  }

  /**
   * Carving never changes a weight: every separator it leaves carries the weight of some
   * separator of the pool, except the one a split inserts, which is new.
   */
  lemma CarveKeepsWeights(pool: seq<Separator>, blockStart: int, blockEnd: int, axis: Axis)
    ensures forall x :: x in Carve(pool, blockStart, blockEnd, axis) ==>
      (exists y :: y in pool && y.weight == x.weight) ||
      (CaseOf(pool, blockStart, blockEnd, axis) == Split &&
       x == NewSeparator(blockEnd + 1, pool[Matched(pool, blockStart)].endPoint))
  {
    var r, c, i := Carve(pool, blockStart, blockEnd, axis), CaseOf(pool, blockStart, blockEnd, axis), Matched(pool, blockStart);
    forall x | x in r
      ensures (exists y :: y in pool && y.weight == x.weight) ||
              (c == Split && x == NewSeparator(blockEnd + 1, pool[i].endPoint))
    {
      var k :| 0 <= k < |r| && r[k] == x;
      if c == Engulf {
        var kept := Filter(pool, Survives(blockStart, blockEnd));
        assert kept[k] in pool && kept[k].weight == x.weight;
      } else if c == Split {
        if k < i {
          assert pool[k] == x;
        } else if k == i {
          assert pool[i].weight == x.weight;
        } else if k > i + 1 {
          assert pool[k - 1] == x;
        }
      } else if c == Bridge && k == i + 1 {
        assert pool[k].weight == x.weight;
      } else if c != NoMatch && c != DisjointAfter && k == i {
        assert pool[k].weight == x.weight;
      } else {
        assert pool[k] == x;
      }
    }
  }

  lemma {:induction false} CarveAllKeepsZeroWeights(pool: seq<Separator>, blocks: seq<Block>, axis: Axis)
    requires forall k :: 0 <= k < |pool| ==> pool[k].weight == 0
    ensures forall x :: x in CarveAll(pool, blocks, axis) ==> x.weight == 0
    decreases |blocks|
  {
    if blocks != [] {
      var b := blocks[|blocks| - 1];
      var before := CarveAll(pool, blocks[..|blocks| - 1], axis);
      CarveAllKeepsZeroWeights(pool, blocks[..|blocks| - 1], axis);
      assert forall k :: 0 <= k < |before| ==> before[k] in before;
      CarveKeepsWeights(before, BlockStart(b, axis), BlockEnd(b, axis), axis);
    }
  }

  /**
   * The head-clip condition differs between the axes. A block that starts exactly where the
   * matched separator starts, and ends inside it, clips the head of a horizontal separator;
   * on the vertical axis it falls through to tail-clip, which leaves the separator inverted
   * (its end one before its start).
   */
  lemma HeadClipAxisAsymmetry(pool: seq<Separator>, blockStart: int, blockEnd: int)
    requires Matched(pool, blockStart) < |pool|
    requires pool[Matched(pool, blockStart)].startPoint == blockStart <= blockEnd < pool[Matched(pool, blockStart)].endPoint
    ensures CaseOf(pool, blockStart, blockEnd, Horizontal) == HeadClip
    ensures CaseOf(pool, blockStart, blockEnd, Vertical) == TailClip
    ensures var i := Matched(pool, blockStart);
      Carve(pool, blockStart, blockEnd, Horizontal)[i] == pool[i].(startPoint := blockEnd + 1) &&
      Carve(pool, blockStart, blockEnd, Vertical)[i] == pool[i].(endPoint := blockStart - 1) &&
      Carve(pool, blockStart, blockEnd, Vertical)[i].endPoint < Carve(pool, blockStart, blockEnd, Vertical)[i].startPoint
  {
  }

  // ----- Trimming the carved pool -----

  function AwayFromBorders(extent: int): Separator -> bool
  {
    (s: Separator) => s.startPoint != 0 && s.endPoint != extent
  }

  /** Drops every separator that touches the pool's border: starts at 0 or ends at `extent`. */
  method RemovePoolBorders(pool: seq<Separator>, extent: int) returns (r: seq<Separator>)
    ensures r == Filter(pool, AwayFromBorders(extent))
    ensures forall x :: x in r <==> x in pool && x.startPoint != 0 && x.endPoint != extent
  {
    r := [];
    var k := 0;
    while k < |pool|
      invariant 0 <= k <= |pool|
      invariant r == Filter(pool[..k], AwayFromBorders(extent))
    {
      FilterSnoc(pool[..k], pool[k], AwayFromBorders(extent));
      assert pool[..k + 1] == pool[..k] + [pool[k]];
      if pool[k].startPoint != 0 && pool[k].endPoint != extent {
        r := r + [pool[k]];
      }
      k := k + 1;
    }
    assert pool[..k] == pool;
  }

  predicate IsWide(s: Separator)
  {
    SeparatorWidth(s) >= ShortSeparatorWidth
  }

  /** Drops every separator whose width (end minus start) is below 10, keeping the rest in order. */
  method CleanUpSeparators(pool: seq<Separator>) returns (r: seq<Separator>)
    ensures r == Filter(pool, IsWide)
    ensures forall x :: x in r <==> x in pool && x.endPoint - x.startPoint >= 10
  {
    r := [];
    var k := 0;
    while k < |pool|
      invariant 0 <= k <= |pool|
      invariant r == Filter(pool[..k], IsWide)
    {
      FilterSnoc(pool[..k], pool[k], IsWide);
      assert pool[..k + 1] == pool[..k] + [pool[k]];
      var width := pool[k].endPoint - pool[k].startPoint;
      if !(width < 10) {
        r := r + [pool[k]];
      }
      k := k + 1;
    }
    assert pool[..k] == pool;
  }
}
