/**
 * The recursive `update` of every container kind, as a function of the
 * tree. A container runs its passes in its class's order; the passes that
 * recurse (the wrap branches, and a plain layout's update) update the
 * children one after another, and the first exception stops everything,
 * leaving the tree as it was at the throw.
 */
module Engine {

  import opened Wrappers
  import opened Geometry
  import opened Tiles
  import opened Reductions
  import opened Nodes
  import opened ChildPasses
  import H = HorizontalListSpec
  import V = VerticalListSpec
  import FL = FrameLayoutSpec
  import opened ListShares

  /** `tile.update()`: nothing for a plain tile, the container's passes otherwise. */
  function Update(n: Node): (r: Run<Node>)
    ensures ShapeOf(r.value) == ShapeOf(n)
    ensures n.Leaf? ==> r == Run(n, None)
    decreases Size(n), 4
  {
    match n
    case Leaf(_) => Run(n, None)
    case Container(rec, kind, p, cs) =>
      ContainerSize(n);
      var u := UpdateBox(kind, Box(rec, cs), p);
      Run(Container(u.value.own, kind, p, u.value.children), u.thrown)
  }

  function UpdateBox(kind: Kind, b: Box, padding: int): (r: Run<Box>)
    ensures ShapesOf(r.value.children) == ShapesOf(b.children)
    decreases SizeSeq(b.children) + 1, 3
  {
    match kind
    case LayoutKind =>
      var u := UpdateAll(b.children);
      Run(Box(b.own, u.value), u.thrown)
    case FrameKind => UpdateFrame(b, padding)
    case HorizontalKind(spacing) => UpdateHorizontal(b, padding, spacing)
    case VerticalKind(spacing) => UpdateVertical(b, padding, spacing)
    case FrameLayoutKind =>
      var u := FL.Update(b, padding);
      RecsOnlyShapes(b.children, u.value.children);
      u
  }

  /**
   * `children.forEach(Tile::update)`: each child updated in order; on an
   * exception the children before it are updated, the failing one is left
   * as it was at the throw and the later ones are untouched.
   */
  function UpdateAll(cs: seq<Node>): (r: Run<seq<Node>>)
    ensures |r.value| == |cs| && ShapesOf(r.value) == ShapesOf(cs)
    decreases SizeSeq(cs), 5
  {
    if cs == [] then Run([], None)
    else
      var n := |cs| - 1;
      SizeSeqSnoc(cs);
      var front := UpdateAll(cs[..n]);
      ShapesOfSnoc(front.value, cs[n]);
      if front.thrown.Some? then Run(front.value + [cs[n]], front.thrown)
      else
        var last := Update(cs[n]);
        ShapesOfSnoc(front.value, last.value);
        Run(front.value + [last.value], last.thrown)
  }

  // Frame: width, height, position.

  function UpdateFrame(b: Box, padding: int): (r: Run<Box>)
    ensures ShapesOf(r.value.children) == ShapesOf(b.children)
    decreases SizeSeq(b.children) + 1, 2
  {
    var w := FrameWidth(b, padding);
    if w.thrown.Some? then w
    else
      var h := FrameHeight(w.value, padding);
      RecsOnlyShapes(w.value.children, h.value.children);
      if h.thrown.Some? then h
      else FramePosition(h.value, padding)
  }

  /**
   * A wrapping frame updates its children and takes the widest; otherwise
   * filling children take the interior. A vertical list's cross-axis width
   * pass is the same code, so `UpdateVertical` uses this function too.
   */
  function FrameWidth(b: Box, padding: int): (r: Run<Box>)
    ensures r.value.own == b.own.(width := r.value.own.width)
    ensures r.thrown.Some? ==> r.value.own == b.own
    ensures ShapesOf(r.value.children) == ShapesOf(b.children)
    ensures b.own.hFill != WrapContent ==>
      r == Run(Box(b.own, FillWidths(b.children, b.own.width - 2 * padding)), None)
    decreases SizeSeq(b.children) + 1, 1
  {
    if b.own.hFill == WrapContent then
      var u := UpdateAll(b.children);
      if u.thrown.Some? then Run(Box(b.own, u.value), u.thrown)
      else WrapToWidest(Box(b.own, u.value), padding)
    else
      var cs := FillWidths(b.children, b.own.width - 2 * padding);
      RecsOnlyShapes(b.children, cs);
      Run(Box(b.own, cs), None)
  }

  /** The height pass never updates the children, even when wrapping. */
  function FrameHeight(b: Box, padding: int): (r: Run<Box>)
    ensures r.value.own == b.own.(height := r.value.own.height)
    ensures r.thrown.Some? ==> r.value.own == b.own
    ensures RecsOnly(b.children, r.value.children)
    ensures r.thrown.Some? <==> b.own.vFill == WrapContent && b.children == []
  {
    if b.own.vFill == WrapContent then WrapToTallest(b, padding)
    else Run(Box(b.own, FillHeights(b.children, b.own.height - 2 * padding)), None)
  }

  /** Every child aligned within the frame's padded interior on both axes. */
  function FramePosition(b: Box, padding: int): (r: Run<Box>)
    ensures r.thrown.None? && r.value.own == b.own
    ensures RecsOnly(b.children, r.value.children)
    ensures ShapesOf(r.value.children) == ShapesOf(b.children)
  {
    var xs := AlignXs(b.children, b.own.MinX() + padding, b.own.MaxX() - padding);
    var ys := AlignYs(xs, b.own.MinY() + padding, b.own.MaxY() - padding);
    RecsOnlyTransitive(b.children, xs, ys);
    RecsOnlyShapes(b.children, ys);
    Run(Box(b.own, ys), None)
  }

  // Horizontal list: width, height, x, y.

  function UpdateHorizontal(b: Box, padding: int, spacing: int): (r: Run<Box>)
    ensures ShapesOf(r.value.children) == ShapesOf(b.children)
    decreases SizeSeq(b.children) + 1, 2
  {
    var w := HorizontalWidth(b, padding, spacing);
    if w.thrown.Some? then w
    else
      var h := CrossHeight(w.value, padding);
      if h.thrown.Some? then h
      else
        var x := H.XPass(h.value, padding, spacing);
        RecsOnlyShapes(h.value.children, x.value.children);
        if x.thrown.Some? then x
        else
          var y := H.YPass(x.value, padding);
          RecsOnlyShapes(x.value.children, y.children);
          Run(y, None)
  }

  function HorizontalWidth(b: Box, padding: int, spacing: int): (r: Run<Box>)
    ensures r.value.own == b.own.(width := r.value.own.width)
    ensures r.thrown.Some? ==> r.value.own == b.own
    ensures ShapesOf(r.value.children) == ShapesOf(b.children)
    ensures b.own.hFill != WrapContent ==> r == H.ShareWidth(b, padding, spacing)
    decreases SizeSeq(b.children) + 1, 1
  {
    if b.own.hFill == WrapContent then
      var u := UpdateAll(b.children);
      if u.thrown.Some? then Run(Box(b.own, u.value), u.thrown)
      else Run(H.WrapWidth(Box(b.own, u.value), padding, spacing), None)
    else
      var s := H.ShareWidth(b, padding, spacing);
      RecsOnlyShapes(b.children, s.value.children);
      s
  }

  /** The cross-axis height of a horizontal list: wrap updates the children and takes the tallest. */
  function CrossHeight(b: Box, padding: int): (r: Run<Box>)
    ensures r.value.own == b.own.(height := r.value.own.height)
    ensures r.thrown.Some? ==> r.value.own == b.own
    ensures ShapesOf(r.value.children) == ShapesOf(b.children)
    ensures b.own.vFill != WrapContent ==>
      r == Run(Box(b.own, FillHeights(b.children, b.own.height - 2 * padding)), None)
    decreases SizeSeq(b.children) + 1, 1
  {
    if b.own.vFill == WrapContent then
      var u := UpdateAll(b.children);
      if u.thrown.Some? then Run(Box(b.own, u.value), u.thrown)
      else WrapToTallest(Box(b.own, u.value), padding)
    else
      var cs := FillHeights(b.children, b.own.height - 2 * padding);
      RecsOnlyShapes(b.children, cs);
      Run(Box(b.own, cs), None)
  }

  // Vertical list: height, width, y, x.

  function UpdateVertical(b: Box, padding: int, spacing: int): (r: Run<Box>)
    ensures ShapesOf(r.value.children) == ShapesOf(b.children)
    decreases SizeSeq(b.children) + 1, 2
  {
    var h := VerticalHeight(b, padding, spacing);
    if h.thrown.Some? then h
    else
      var w := FrameWidth(h.value, padding);
      if w.thrown.Some? then w
      else
        var y := V.YPass(w.value, padding, spacing);
        RecsOnlyShapes(w.value.children, y.value.children);
        if y.thrown.Some? then y
        else
          var x := V.XPass(y.value, padding);
          RecsOnlyShapes(y.value.children, x.children);
          Run(x, None)
  }

  function VerticalHeight(b: Box, padding: int, spacing: int): (r: Run<Box>)
    ensures r.value.own == b.own.(height := r.value.own.height)
    ensures r.thrown.Some? ==> r.value.own == b.own
    ensures ShapesOf(r.value.children) == ShapesOf(b.children)
    ensures b.own.vFill != WrapContent ==> r == V.ShareHeight(b, padding, spacing)
    decreases SizeSeq(b.children) + 1, 1
  {
    if b.own.vFill == WrapContent then
      var u := UpdateAll(b.children);
      if u.thrown.Some? then Run(Box(b.own, u.value), u.thrown)
      else Run(V.WrapHeight(Box(b.own, u.value), padding, spacing), None)
    else
      var s := V.ShareHeight(b, padding, spacing);
      RecsOnlyShapes(b.children, s.value.children);
      s
  }
}
