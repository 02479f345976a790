/**
 * The rules of the older frame layout: a wrapping frame layout takes the
 * bounding box of its children (which it does not update first), filling
 * children take the padded interior, and every child is then placed from
 * the frame layout's own centre and edges.
 */
module FrameLayoutSpec {

  import opened Wrappers
  import opened JavaInt
  import opened Geometry
  import opened Tiles
  import opened Reductions
  import opened Nodes
  import opened ChildPasses

  /**
   * The width pass: the bounding box of the children's x extents plus
   * padding, which has no minimum for no children; otherwise the interior
   * width given to filling children.
   */
  function BoundingWidth(b: Box, padding: int): (r: Run<Box>)
    ensures r.thrown.Some? <==> b.own.hFill == WrapContent && b.children == []
    ensures r.thrown.Some? ==> r == Run(b, Some(NoSuchElement))
    ensures r.value.own == b.own.(width := r.value.own.width)
    ensures b.own.hFill == WrapContent ==> r.value.children == b.children
    ensures b.own.hFill != WrapContent ==>
      r == Run(Box(b.own, FillWidths(b.children, b.own.width - 2 * padding)), None)
  {
    if b.own.hFill == WrapContent then
      if b.children == [] then Run(b, Some(NoSuchElement))
      else Run(Box(b.own.(width := (Max(MaxXs(b.children)) - Min(MinXs(b.children))) + 2 * padding), b.children), None)
    else Run(Box(b.own, FillWidths(b.children, b.own.width - 2 * padding)), None)
  }

  /** The height pass, the vertical analogue of `BoundingWidth`. */
  function BoundingHeight(b: Box, padding: int): (r: Run<Box>)
    ensures r.thrown.Some? <==> b.own.vFill == WrapContent && b.children == []
    ensures r.thrown.Some? ==> r == Run(b, Some(NoSuchElement))
    ensures r.value.own == b.own.(height := r.value.own.height)
    ensures b.own.vFill == WrapContent ==> r.value.children == b.children
    ensures b.own.vFill != WrapContent ==>
      r == Run(Box(b.own, FillHeights(b.children, b.own.height - 2 * padding)), None)
  {
    if b.own.vFill == WrapContent then
      if b.children == [] then Run(b, Some(NoSuchElement))
      else Run(Box(b.own.(height := (Max(MaxYs(b.children)) - Min(MinYs(b.children))) + 2 * padding), b.children), None)
    else Run(Box(b.own, FillHeights(b.children, b.own.height - 2 * padding)), None)
  }

  /** The x and y passes: each child placed from the frame layout's edges and centre. */
  function Place(b: Box, padding: int): (r: Box)
    ensures r.own == b.own && RecsOnly(b.children, r.children)
    ensures forall i :: 0 <= i < |b.children| ==>
      r.children[i].rec == b.children[i].rec.(x := r.children[i].rec.x, y := r.children[i].rec.y)
    ensures forall i :: 0 <= i < |b.children| && ColumnOf(b.children[i].rec.alignment) == MiddleColumn ==>
      r.children[i].rec.x == b.own.x
    ensures forall i :: 0 <= i < |b.children| && RowOf(b.children[i].rec.alignment) == MiddleRow ==>
      r.children[i].rec.y == b.own.y
  {
    var xs := InsetXs(b.children, b.own, padding);
    var ys := InsetYs(xs, b.own, padding);
    RecsOnlyTransitive(b.children, xs, ys);
    Box(b.own, ys)
  }

  /** Width, then height, then x, then y; the children are never updated. */
  function Update(b: Box, padding: int): (r: Run<Box>)
    ensures RecsOnly(b.children, r.value.children)
    ensures r.thrown.Some? <==>
      (b.own.hFill == WrapContent || b.own.vFill == WrapContent) && b.children == []
    ensures r.thrown == Some(NoSuchElement) || r.thrown == None
  {
    var w := BoundingWidth(b, padding);
    if w.thrown.Some? then w
    else
      var h := BoundingHeight(w.value, padding);
      if h.thrown.Some? then
        h
      else
        RecsOnlyTransitive(b.children, w.value.children, h.value.children);
        var p := Place(h.value, padding);
        RecsOnlyTransitive(b.children, h.value.children, p.children);
        Run(p, None)
  }

  /** Child `i` has the leftmost left edge (`MinX`) and child `j` the rightmost right edge (`MaxX`). */
  predicate SpansX(cs: seq<Node>, i: int, j: int)
  {
    0 <= i < |cs| && 0 <= j < |cs|
    && (forall k :: 0 <= k < |cs| ==> cs[i].rec.MinX() <= cs[k].rec.MinX())
    && (forall k :: 0 <= k < |cs| ==> cs[k].rec.MaxX() <= cs[j].rec.MaxX())
  }

  /** Child `i` has the lowest bottom edge (`MinY`) and child `j` the highest top edge (`MaxY`). */
  predicate SpansY(cs: seq<Node>, i: int, j: int)
  {
    0 <= i < |cs| && 0 <= j < |cs|
    && (forall k :: 0 <= k < |cs| ==> cs[i].rec.MinY() <= cs[k].rec.MinY())
    && (forall k :: 0 <= k < |cs| ==> cs[k].rec.MaxY() <= cs[j].rec.MaxY())
  }

  /**
   * A wrapping frame layout spans its children's bounding box: its width,
   * less padding, runs from the leftmost left edge of a child to the
   * rightmost right edge of a child.
   */
  lemma WrapSpansWidth(b: Box, padding: int)
    requires b.own.hFill == WrapContent && b.children != []
    ensures exists i, j ::
      SpansX(b.children, i, j)
      && BoundingWidth(b, padding).value.own.width == b.children[j].rec.MaxX() - b.children[i].rec.MinX() + 2 * padding
  {
    var cs := b.children;
    var lo, hi := Min(MinXs(cs)), Max(MaxXs(cs));
    var i :| 0 <= i < |cs| && MinXs(cs)[i] == lo;
    var j :| 0 <= j < |cs| && MaxXs(cs)[j] == hi;
    forall k | 0 <= k < |cs|
      ensures cs[i].rec.MinX() <= cs[k].rec.MinX() && cs[k].rec.MaxX() <= cs[j].rec.MaxX()
    {
      assert MinXs(cs)[k] == cs[k].rec.MinX() && MaxXs(cs)[k] == cs[k].rec.MaxX();
    }
    assert SpansX(cs, i, j);
    assert BoundingWidth(b, padding).value.own.width == cs[j].rec.MaxX() - cs[i].rec.MinX() + 2 * padding;
  }

  /** The vertical counterpart: from the lowest bottom edge to the highest top edge. */
  lemma WrapSpansHeight(b: Box, padding: int)
    requires b.own.vFill == WrapContent && b.children != []
    ensures exists i, j ::
      SpansY(b.children, i, j)
      && BoundingHeight(b, padding).value.own.height == b.children[j].rec.MaxY() - b.children[i].rec.MinY() + 2 * padding
  {
    var cs := b.children;
    var lo, hi := Min(MinYs(cs)), Max(MaxYs(cs));
    var i :| 0 <= i < |cs| && MinYs(cs)[i] == lo;
    var j :| 0 <= j < |cs| && MaxYs(cs)[j] == hi;
    forall k | 0 <= k < |cs|
      ensures cs[i].rec.MinY() <= cs[k].rec.MinY() && cs[k].rec.MaxY() <= cs[j].rec.MaxY()
    {
      assert MinYs(cs)[k] == cs[k].rec.MinY() && MaxYs(cs)[k] == cs[k].rec.MaxY();
    }
    assert SpansY(cs, i, j);
    assert BoundingHeight(b, padding).value.own.height == cs[j].rec.MaxY() - cs[i].rec.MinY() + 2 * padding;
  }

  /**
   * A lone child of even width and height wrapped on both axes gives the
   * frame layout exactly the child's size plus padding on each side.
   */
  lemma LoneChildWrap(b: Box, padding: int)
    requires |b.children| == 1
    requires b.own.hFill == WrapContent && b.own.vFill == WrapContent
    requires b.children[0].rec.width % 2 == 0 && b.children[0].rec.height % 2 == 0
    ensures Update(b, padding).value.own.width == b.children[0].rec.width + 2 * padding
    ensures Update(b, padding).value.own.height == b.children[0].rec.height + 2 * padding
  {
    EdgeSpan(b.children[0].rec.x, b.children[0].rec.width);
    EdgeSpan(b.children[0].rec.y, b.children[0].rec.height);
  }

  /**
   * The frame layout's placement rule is the frame's alignment rule on the
   * padded interior, so both kinds of frame place a child alike.
   */
  lemma PlacesLikeFrame(b: Box, padding: int)
    ensures Place(b, padding).children
         == AlignYs(AlignXs(b.children, b.own.MinX() + padding, b.own.MaxX() - padding),
                    b.own.MinY() + padding, b.own.MaxY() - padding)
  {
    var xs := InsetXs(b.children, b.own, padding);
    InsetXsIsAlignXs(b.children, b.own, padding);
    InsetYsIsAlignYs(xs, b.own, padding);
  }
}
