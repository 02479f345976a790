/**
 * The per-child passes that several containers share: giving FILL_PARENT
 * children the parent's interior size, sizing a wrapping parent to its
 * largest child, and the two placement rules (the layout's alignment rule
 * and the explicit inset formula).
 */
module ChildPasses {

  import opened Wrappers
  import opened Geometry
  import opened Tiles
  import opened Reductions
  import opened Nodes

  /** FILL_PARENT children take width `w`; every other child is untouched. */
  function FillWidths(cs: seq<Node>, w: int): (r: seq<Node>)
    ensures RecsOnly(cs, r)
    ensures forall i :: 0 <= i < |cs| && cs[i].rec.hFill == FillParent ==> r[i].rec == cs[i].rec.(width := w)
    ensures forall i :: 0 <= i < |cs| && cs[i].rec.hFill != FillParent ==> r[i] == cs[i]
  {
    seq(|cs|, i requires 0 <= i < |cs| =>
      if cs[i].rec.hFill == FillParent then cs[i].(rec := cs[i].rec.(width := w)) else cs[i])
  }

  /** FILL_PARENT children take height `h`; every other child is untouched. */
  function FillHeights(cs: seq<Node>, h: int): (r: seq<Node>)
    ensures RecsOnly(cs, r)
    ensures forall i :: 0 <= i < |cs| && cs[i].rec.vFill == FillParent ==> r[i].rec == cs[i].rec.(height := h)
    ensures forall i :: 0 <= i < |cs| && cs[i].rec.vFill != FillParent ==> r[i] == cs[i]
  {
    seq(|cs|, i requires 0 <= i < |cs| =>
      if cs[i].rec.vFill == FillParent then cs[i].(rec := cs[i].rec.(height := h)) else cs[i])
  }

  /** Filling twice with the same size is filling once. */
  lemma FillIdempotent(cs: seq<Node>, w: int, h: int)
    ensures FillWidths(FillWidths(cs, w), w) == FillWidths(cs, w)
    ensures FillHeights(FillHeights(cs, h), h) == FillHeights(cs, h)
  {
  }

  /**
   * A wrapping parent takes the width of its widest child plus padding on
   * both sides; with no children `max()` has no value and the pass throws.
   */
  function WrapToWidest(b: Box, padding: int): (r: Run<Box>)
    ensures r.value.children == b.children
    ensures r.thrown.Some? <==> b.children == []
    ensures r.thrown.Some? ==> r == Run(b, Some(NoSuchElement))
    ensures r.thrown.None? ==> r.value.own == b.own.(width := r.value.own.width)
    ensures r.thrown.None? ==> forall i :: 0 <= i < |b.children| ==>
      b.children[i].rec.width + 2 * padding <= r.value.own.width
    ensures r.thrown.None? ==>
      exists i :: 0 <= i < |b.children| && b.children[i].rec.width + 2 * padding == r.value.own.width
  {
    if b.children == [] then Run(b, Some(NoSuchElement))
    else
      var m := Max(Widths(b.children));
      assert forall i :: 0 <= i < |b.children| ==> Widths(b.children)[i] == b.children[i].rec.width;
      Run(Box(b.own.(width := m + 2 * padding), b.children), None)
  }

  /** The vertical counterpart: the tallest child plus padding. */
  function WrapToTallest(b: Box, padding: int): (r: Run<Box>)
    ensures r.value.children == b.children
    ensures r.thrown.Some? <==> b.children == []
    ensures r.thrown.Some? ==> r == Run(b, Some(NoSuchElement))
    ensures r.thrown.None? ==> r.value.own == b.own.(height := r.value.own.height)
    ensures r.thrown.None? ==> forall i :: 0 <= i < |b.children| ==>
      b.children[i].rec.height + 2 * padding <= r.value.own.height
    ensures r.thrown.None? ==>
      exists i :: 0 <= i < |b.children| && b.children[i].rec.height + 2 * padding == r.value.own.height
  {
    if b.children == [] then Run(b, Some(NoSuchElement))
    else
      var m := Max(Heights(b.children));
      assert forall i :: 0 <= i < |b.children| ==> Heights(b.children)[i] == b.children[i].rec.height;
      Run(Box(b.own.(height := m + 2 * padding), b.children), None)
  }

  /** The layout's horizontal alignment rule applied to one child. */
  function AlignX(c: Node, lo: int, hi: int): Node
  {
    c.(rec := c.rec.(x := AlignH(c.rec.alignment, c.rec.width, lo, hi)))
  }

  /** The layout's vertical alignment rule applied to one child. */
  function AlignY(c: Node, lo: int, hi: int): Node
  {
    c.(rec := c.rec.(y := AlignV(c.rec.alignment, c.rec.height, lo, hi)))
  }

  /** Every child aligned horizontally within [lo, hi]; only x changes. */
  function AlignXs(cs: seq<Node>, lo: int, hi: int): (r: seq<Node>)
    ensures RecsOnly(cs, r)
    ensures forall i :: 0 <= i < |cs| ==> r[i].rec == cs[i].rec.(x := r[i].rec.x)
    ensures forall i :: 0 <= i < |cs| && ColumnOf(cs[i].rec.alignment) == LeftColumn ==> r[i].rec.MinX() == lo
    ensures forall i :: 0 <= i < |cs| && ColumnOf(cs[i].rec.alignment) == RightColumn ==> r[i].rec.MaxX() == hi
    ensures forall i :: 0 <= i < |cs| && ColumnOf(cs[i].rec.alignment) == MiddleColumn ==>
      -1 <= lo + hi - 2 * r[i].rec.x <= 1
  {
    seq(|cs|, i requires 0 <= i < |cs| => AlignX(cs[i], lo, hi))
  }

  /** Every child aligned vertically within [lo, hi]; only y changes. */
  function AlignYs(cs: seq<Node>, lo: int, hi: int): (r: seq<Node>)
    ensures RecsOnly(cs, r)
    ensures forall i :: 0 <= i < |cs| ==> r[i].rec == cs[i].rec.(y := r[i].rec.y)
    ensures forall i :: 0 <= i < |cs| && RowOf(cs[i].rec.alignment) == BottomRow ==> r[i].rec.MinY() == lo
    ensures forall i :: 0 <= i < |cs| && RowOf(cs[i].rec.alignment) == TopRow ==> r[i].rec.MaxY() == hi
    ensures forall i :: 0 <= i < |cs| && RowOf(cs[i].rec.alignment) == MiddleRow ==>
      -1 <= lo + hi - 2 * r[i].rec.y <= 1
  {
    seq(|cs|, i requires 0 <= i < |cs| => AlignY(cs[i], lo, hi))
  }

  /** The explicit inset formula applied to one child's x. */
  function InsetX(c: Node, own: TileRec, padding: int): Node
  {
    c.(rec := c.rec.(x := Inset(ColumnOf(c.rec.alignment), c.rec.width, own.x, own.width, padding)))
  }

  /** The explicit inset formula applied to one child's y. */
  function InsetY(c: Node, own: TileRec, padding: int): Node
  {
    c.(rec := c.rec.(y := Inset(RowAsColumn(RowOf(c.rec.alignment)), c.rec.height, own.y, own.height, padding)))
  }

  function InsetXs(cs: seq<Node>, own: TileRec, padding: int): (r: seq<Node>)
    ensures RecsOnly(cs, r)
    ensures forall i :: 0 <= i < |cs| ==> r[i].rec == cs[i].rec.(x := r[i].rec.x)
    // a centred child takes the parent's own x
    ensures forall i :: 0 <= i < |cs| && ColumnOf(cs[i].rec.alignment) == MiddleColumn ==> r[i].rec.x == own.x
  {
    seq(|cs|, i requires 0 <= i < |cs| => InsetX(cs[i], own, padding))
  }

  function InsetYs(cs: seq<Node>, own: TileRec, padding: int): (r: seq<Node>)
    ensures RecsOnly(cs, r)
    ensures forall i :: 0 <= i < |cs| ==> r[i].rec == cs[i].rec.(y := r[i].rec.y)
    ensures forall i :: 0 <= i < |cs| && RowOf(cs[i].rec.alignment) == MiddleRow ==> r[i].rec.y == own.y
  {
    seq(|cs|, i requires 0 <= i < |cs| => InsetY(cs[i], own, padding))
  }

  /**
   * The inset formula places every child where the alignment rule places
   * it in the parent's padded interior.
   */
  lemma InsetXsIsAlignXs(cs: seq<Node>, own: TileRec, padding: int)
    ensures InsetXs(cs, own, padding) == AlignXs(cs, own.MinX() + padding, own.MaxX() - padding)
  {
    forall i | 0 <= i < |cs|
      ensures InsetX(cs[i], own, padding) == AlignX(cs[i], own.MinX() + padding, own.MaxX() - padding)
    {
      InsetIsAlignH(cs[i].rec.alignment, cs[i].rec.width, own.x, own.width, padding);
    }
  }

  lemma InsetYsIsAlignYs(cs: seq<Node>, own: TileRec, padding: int)
    ensures InsetYs(cs, own, padding) == AlignYs(cs, own.MinY() + padding, own.MaxY() - padding)
  {
    forall i | 0 <= i < |cs|
      ensures InsetY(cs[i], own, padding) == AlignY(cs[i], own.MinY() + padding, own.MaxY() - padding)
    {
      InsetIsAlignV(cs[i].rec.alignment, cs[i].rec.height, own.y, own.height, padding);
    }
  }
}
