/**
 * The entities the separator detector works on: the visual-block tree handed over by the
 * layout engine, the two axes, and a separator (an integer interval with a weight).
 */
module Geometry {

  datatype Option<T> = None | Some(value: T)

  /**
   * One node of the visual-block tree. The layout engine owns it; the detector only reads
   * the content box (`x`, `y`, `width`, `height`), the background colour, the font size,
   * the element's tag name, whether the node is a visual block, whether its box is a text
   * box, and its children in document order.
   */
  datatype Block = Block(
    x: int,
    y: int,
    width: int,
    height: int,
    bgColor: int,
    fontSize: int,
    tag: string,
    isVisual: bool,
    isText: bool,
    children: seq<Block>)

  /** Vertical separators are intervals of x coordinates, horizontal ones of y coordinates. */
  datatype Axis = Vertical | Horizontal

  /** A candidate separator: the interval [startPoint, endPoint] on one axis and its weight. */
  datatype Separator = Separator(startPoint: int, endPoint: int, weight: int)

  /** A separator as the detector creates it, before any rule has scored it. */
  function NewSeparator(startPoint: int, endPoint: int): Separator
  {
    Separator(startPoint, endPoint, 0)
  }

  /** The width every rule and the clean-up use: the end minus the start, with no +1. */
  function SeparatorWidth(s: Separator): int
  {
    s.endPoint - s.startPoint
  }

  /** Where a block's content box begins along the axis. */
  function BlockStart(b: Block, axis: Axis): int
  {
    if axis == Vertical then b.x else b.y
  }

  /** A block's content size along the axis. */
  function BlockSize(b: Block, axis: Axis): int
  {
    if axis == Vertical then b.width else b.height
  }

  /** Where a block's projection ends: start plus size, with no -1. */
  function BlockEnd(b: Block, axis: Axis): int
  {
    BlockStart(b, axis) + BlockSize(b, axis)
  }

  /** Every node of the tree rooted at `b`, in pre-order (a node before its children). */
  function PreOrder(b: Block): seq<Block>
    decreases b, 1
  {
    [b] + PreOrderForest(b.children)
  }

  /** The pre-order sequences of the trees in `cs`, one after the other. */
  function PreOrderForest(cs: seq<Block>): seq<Block>
    decreases cs, 0
  {
    if cs == [] then [] else PreOrder(cs[0]) + PreOrderForest(cs[1..])
  }
}
