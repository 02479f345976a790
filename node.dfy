/**
 * The tile tree as a value.
 *
 * A node is a plain tile or a container: a tile with a container kind, a
 * padding and an ordered sequence of children. The layouts update this
 * tree in place in Java; the model computes the updated tree instead, and
 * the container classes are proved to perform the same updates.
 * Children are values, so one child object shared by two parents is not
 * expressible (the Java code never creates such sharing).
 */
module Nodes {

  import opened Wrappers
  import opened Geometry
  import opened Tiles
  import opened Reductions

  /** Which container class a node is; the lists carry their spacing. */
  datatype Kind =
    | LayoutKind
    | FrameKind
    | HorizontalKind(spacing: int)
    | VerticalKind(spacing: int)
    | FrameLayoutKind

  datatype Node =
    | Leaf(rec: TileRec)
    | Container(rec: TileRec, kind: Kind, padding: int, children: seq<Node>)

  /** The depth a node is ordered by. */
  function Depth(n: Node): int
  {
    n.rec.depth
  }

  /** The Java exceptions an update can raise. */
  datatype Failure =
    | NoSuchElement     // `getAsInt()` on an empty stream
    | DivisionByZero    // integer `/` by zero
    | IndexOutOfBounds  // `add(index, t)` with the index outside the list
    | IllegalState      // a scene initialised without an input handler

  /**
   * The state a computation leaves behind and the exception it raised, if
   * any: on an exception `value` is the state at the moment of the throw.
   */
  datatype Run<T> = Run(value: T, thrown: Option<Failure>)

  /** One container level: the container's own fields and its children. */
  datatype Box = Box(own: TileRec, children: seq<Node>)

  /** The tree with every tile's fields erased. */
  datatype Shape =
    | LeafShape
    | ContainerShape(kind: Kind, padding: int, children: seq<Shape>)

  function ShapeOf(n: Node): Shape
  {
    match n
    case Leaf(_) => LeafShape
    case Container(_, k, p, cs) => ContainerShape(k, p, ShapesOf(cs))
  }

  function ShapesOf(cs: seq<Node>): seq<Shape>
  {
    seq(|cs|, i requires 0 <= i < |cs| => ShapeOf(cs[i]))
  }

  function ShapeSize(s: Shape): nat
  {
    match s
    case LeafShape => 1
    case ContainerShape(_, _, cs) => 1 + ShapeSizes(cs)
  }

  function ShapeSizes(ss: seq<Shape>): nat
  {
    if ss == [] then 0 else ShapeSizes(ss[..|ss| - 1]) + ShapeSize(ss[|ss| - 1])
  }

  /** The number of tiles in a tree; a measure that updates preserve. */
  function Size(n: Node): nat
  {
    ShapeSize(ShapeOf(n))
  }

  function SizeSeq(cs: seq<Node>): nat
  {
    ShapeSizes(ShapesOf(cs))
  }

  lemma ContainerSize(n: Node)
    requires n.Container?
    ensures Size(n) == SizeSeq(n.children) + 1
  {
  }

  lemma SizeSeqSnoc(cs: seq<Node>)
    requires cs != []
    ensures SizeSeq(cs) == SizeSeq(cs[..|cs| - 1]) + Size(cs[|cs| - 1])
    ensures Size(cs[|cs| - 1]) >= 1
  {
    assert ShapesOf(cs)[..|cs| - 1] == ShapesOf(cs[..|cs| - 1]);
    match ShapeOf(cs[|cs| - 1])
    case LeafShape =>
    case ContainerShape(_, _, _) =>
  }

  lemma ShapesOfSnoc(cs: seq<Node>, c: Node)
    ensures ShapesOf(cs + [c]) == ShapesOf(cs) + [ShapeOf(c)]
  {
  }

  lemma {:induction false} ChildSize(cs: seq<Node>, i: nat)
    requires i < |cs|
    ensures Size(cs[i]) <= SizeSeq(cs)
    ensures Size(cs[i]) < SizeSeq(cs) + 1
  {
    SizeSeqSnoc(cs);
    if i < |cs| - 1 {
      ChildSize(cs[..|cs| - 1], i);
    }
  }

  /** Changing a node's own tile fields keeps its shape. */
  lemma WithRecShape(n: Node, r: TileRec)
    ensures ShapeOf(n.(rec := r)) == ShapeOf(n)
  {
  }

  /**
   * `b` differs from `a` at most in the children's own tile fields, the
   * effect of a pass that sets sizes or positions of direct children.
   */
  predicate RecsOnly(a: seq<Node>, b: seq<Node>)
  {
    |a| == |b| && forall i :: 0 <= i < |a| ==> b[i] == a[i].(rec := b[i].rec)
  }

  lemma RecsOnlyShapes(a: seq<Node>, b: seq<Node>)
    requires RecsOnly(a, b)
    ensures ShapesOf(a) == ShapesOf(b)
    ensures SizeSeq(a) == SizeSeq(b)
  {
    forall i | 0 <= i < |a|
      ensures ShapeOf(a[i]) == ShapeOf(b[i])
    {
      WithRecShape(a[i], b[i].rec);
    }
  }

  lemma RecsOnlyTransitive(a: seq<Node>, b: seq<Node>, c: seq<Node>)
    requires RecsOnly(a, b) && RecsOnly(b, c)
    ensures RecsOnly(a, c)
  {
  }

  // Projections of the children's fields, as the layouts stream them.

  function Widths(cs: seq<Node>): seq<int>
  {
    seq(|cs|, i requires 0 <= i < |cs| => cs[i].rec.width)
  }

  function Heights(cs: seq<Node>): seq<int>
  {
    seq(|cs|, i requires 0 <= i < |cs| => cs[i].rec.height)
  }

  function MinXs(cs: seq<Node>): seq<int>
  {
    seq(|cs|, i requires 0 <= i < |cs| => cs[i].rec.MinX())
  }

  function MaxXs(cs: seq<Node>): seq<int>
  {
    seq(|cs|, i requires 0 <= i < |cs| => cs[i].rec.MaxX())
  }

  function MinYs(cs: seq<Node>): seq<int>
  {
    seq(|cs|, i requires 0 <= i < |cs| => cs[i].rec.MinY())
  }

  function MaxYs(cs: seq<Node>): seq<int>
  {
    seq(|cs|, i requires 0 <= i < |cs| => cs[i].rec.MaxY())
  }

  lemma WidthsPrefix(cs: seq<Node>, i: nat)
    requires i < |cs|
    ensures Widths(cs[..i + 1]) == Widths(cs[..i]) + [cs[i].rec.width]
    ensures Heights(cs[..i + 1]) == Heights(cs[..i]) + [cs[i].rec.height]
  {
  }
}
