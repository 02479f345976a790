/**
 * The rules of a vertical list: children stacked downwards from the top
 * edge, FILL_PARENT children sharing the leftover height by weight, and
 * the slack split evenly among all children when none of them fills.
 */
module VerticalListSpec {

  import opened Wrappers
  import opened JavaInt
  import opened Geometry
  import opened Tiles
  import opened Reductions
  import opened Nodes
  import opened ChildPasses
  import opened ListShares

  predicate FillsHeight(c: Node)
  {
    c.rec.vFill == FillParent
  }

  predicate AnyFillsHeight(cs: seq<Node>)
  {
    exists i :: 0 <= i < |cs| && FillsHeight(cs[i])
  }

  /** The heights of the children that do not fill (0 in place of the others). */
  function FixedHeights(cs: seq<Node>): seq<int>
  {
    seq(|cs|, i requires 0 <= i < |cs| => if FillsHeight(cs[i]) then 0 else cs[i].rec.height)
  }

  /** The heights of the children that fill (0 in place of the others). */
  function FilledHeights(cs: seq<Node>): seq<int>
  {
    seq(|cs|, i requires 0 <= i < |cs| => if FillsHeight(cs[i]) then cs[i].rec.height else 0)
  }

  /** The weights of the children that fill (0 in place of the others). */
  function FillWeights(cs: seq<Node>): seq<int>
  {
    seq(|cs|, i requires 0 <= i < |cs| => if FillsHeight(cs[i]) then cs[i].rec.vWeight else 0)
  }

  /** The height left for the filling children. */
  function Stretch(b: Box, padding: int, spacing: int): int
  {
    b.own.height - Sum(FixedHeights(b.children)) - Gaps(|b.children|, spacing, padding)
  }

  /** A wrapping list is as tall as its children plus padding and spacing. */
  function WrapHeight(b: Box, padding: int, spacing: int): (r: Box)
    ensures r.children == b.children
    ensures r.own == b.own.(height := r.own.height)
    ensures r.own.height == Sum(Heights(b.children)) + Gaps(|b.children|, spacing, padding)
  {
    Box(b.own.(height := Sum(Heights(b.children)) + Gaps(|b.children|, spacing, padding)), b.children)
  }

  /**
   * Otherwise the filling children share the stretch in proportion to their
   * weights, each share truncated; the list's own height is kept. Filling
   * children whose weights total 0 make the division throw before any
   * child is changed.
   */
  function ShareHeight(b: Box, padding: int, spacing: int): (r: Run<Box>)
    ensures r.value.own == b.own
    ensures RecsOnly(b.children, r.value.children)
    ensures r.thrown.Some? <==> AnyFillsHeight(b.children) && Sum(FillWeights(b.children)) == 0
    ensures r.thrown.Some? ==> r == Run(b, Some(DivisionByZero))
    ensures forall i :: 0 <= i < |b.children| && !FillsHeight(b.children[i]) ==>
      r.value.children[i] == b.children[i]
    ensures r.thrown.None? ==> forall i :: 0 <= i < |b.children| && FillsHeight(b.children[i]) ==>
      r.value.children[i].rec == b.children[i].rec.(height := JDiv(
        Stretch(b, padding, spacing) * b.children[i].rec.vWeight, Sum(FillWeights(b.children))))
  {
    var cs := b.children;
    var total := Sum(FillWeights(cs));
    if AnyFillsHeight(cs) && total == 0 then Run(b, Some(DivisionByZero))
    else
      var stretch := Stretch(b, padding, spacing);
      Run(Box(b.own, seq(|cs|, i requires 0 <= i < |cs| =>
        if FillsHeight(cs[i]) then cs[i].(rec := cs[i].rec.(height := JDiv(stretch * cs[i].rec.vWeight, total)))
        else cs[i])), None)
  }

  /** Every height is either a fixed or a filled height. */
  lemma HeightsSplit(cs: seq<Node>)
    ensures Sum(Heights(cs)) == Sum(FixedHeights(cs)) + Sum(FilledHeights(cs))
  {
    SumPointwise(FixedHeights(cs), FilledHeights(cs), Heights(cs));
  }

  /**
   * With room to share and positive total weight, the children's heights
   * together with padding and spacing fit the list's height, and the
   * filling children lose fewer pixels to truncation than there are of
   * them with a positive weight.
   */
  lemma SharedColumnFits(b: Box, padding: int, spacing: int)
    requires Stretch(b, padding, spacing) >= 0
    requires forall i :: 0 <= i < |b.children| && FillsHeight(b.children[i]) ==> b.children[i].rec.vWeight >= 0
    requires Sum(FillWeights(b.children)) > 0
    ensures ShareHeight(b, padding, spacing).thrown.None?
    ensures Sum(FilledHeights(ShareHeight(b, padding, spacing).value.children)) <= Stretch(b, padding, spacing)
    ensures Stretch(b, padding, spacing) - Positives(FillWeights(b.children))
          < Sum(FilledHeights(ShareHeight(b, padding, spacing).value.children))
    ensures Sum(Heights(ShareHeight(b, padding, spacing).value.children)) + Gaps(|b.children|, spacing, padding)
         <= b.own.height
  {
    var cs := b.children;
    var r := ShareHeight(b, padding, spacing).value.children;
    var stretch := Stretch(b, padding, spacing);
    var total := Sum(FillWeights(cs));
    forall i | 0 <= i < |cs|
      ensures FilledHeights(r)[i] == Shares(FillWeights(cs), stretch, total)[i]
      ensures FixedHeights(r)[i] == FixedHeights(cs)[i]
    {
      if !FillsHeight(cs[i]) {
        assert stretch * 0 == 0;
      }
    }
    assert FilledHeights(r) == Shares(FillWeights(cs), stretch, total);
    assert FixedHeights(r) == FixedHeights(cs);
    SharesWithinStretch(FillWeights(cs), stretch, total);
    HeightsSplit(r);
  }

  /**
   * The slack given to each cell: nothing when a child fills, else the
   * leftover height split evenly, which divides by zero for an empty list.
   */
  function Excess(b: Box, padding: int, spacing: int): (r: Run<int>)
    ensures AnyFillsHeight(b.children) ==> r == Run(0, None)
    ensures !AnyFillsHeight(b.children) && b.children == [] ==> r == Run(0, Some(DivisionByZero))
    ensures !AnyFillsHeight(b.children) && b.children != [] ==>
      r == Run(JDiv(Stretch(b, padding, spacing), |b.children|), None)
  {
    if AnyFillsHeight(b.children) then Run(0, None)
    else if b.children == [] then Run(0, Some(DivisionByZero))
    else Run(JDiv(Stretch(b, padding, spacing), |b.children|), None)
  }

  /** The cursor when child `i` is placed: its cell's top edge. */
  function CellTop(b: Box, padding: int, spacing: int, excess: int, i: nat): int
    requires i <= |b.children|
  {
    b.own.MaxY() - padding - Sum(Heights(b.children[..i])) - i * (excess + spacing)
  }

  /** How far below the cell's top a child sits, by its row. */
  function Offset(row: Row, excess: int): int
  {
    match row
    case TopRow => 0
    case MiddleRow => Half(excess)
    case BottomRow => excess
  }

  function PlaceY(c: Node, top: int, excess: int): Node
  {
    c.(rec := c.rec.(y := top - Half(c.rec.height) - Offset(RowOf(c.rec.alignment), excess)))
  }

  function PlaceYs(b: Box, padding: int, spacing: int, excess: int): (r: seq<Node>)
    ensures RecsOnly(b.children, r)
    ensures forall i :: 0 <= i < |b.children| ==> r[i].rec == b.children[i].rec.(y := r[i].rec.y)
  {
    seq(|b.children|, i requires 0 <= i < |b.children| =>
      PlaceY(b.children[i], CellTop(b, padding, spacing, excess, i), excess))
  }

  /** The y pass: place every child in its cell, or throw on an empty list. */
  function YPass(b: Box, padding: int, spacing: int): (r: Run<Box>)
    ensures r.value.own == b.own
    ensures RecsOnly(b.children, r.value.children)
    ensures r.thrown.Some? <==> b.children == []
    ensures r.thrown.Some? ==> r == Run(b, Some(DivisionByZero))
  {
    var e := Excess(b, padding, spacing);
    if e.thrown.Some? then Run(b, e.thrown)
    else Run(Box(b.own, PlaceYs(b, padding, spacing, e.value)), None)
  }

  /** The x pass: the cross-axis inset rule. */
  function XPass(b: Box, padding: int): (r: Box)
    ensures r.own == b.own && RecsOnly(b.children, r.children)
  {
    Box(b.own, InsetXs(b.children, b.own, padding))
  }

  /** The cursor moves down by the child's height, the slack and the spacing. */
  lemma CursorAdvance(b: Box, padding: int, spacing: int, excess: int, i: nat)
    requires i < |b.children|
    ensures CellTop(b, padding, spacing, excess, i + 1)
         == CellTop(b, padding, spacing, excess, i) - b.children[i].rec.height - excess - spacing
  {
    assert b.children[..i + 1] == b.children[..i] + [b.children[i]];
    WidthsPrefix(b.children, i);
    SumSnoc(Heights(b.children[..i]), b.children[i].rec.height);
  }

  /** A child of non-negative height lies inside its cell. */
  lemma PlacedInCell(b: Box, padding: int, spacing: int, excess: int, i: nat)
    requires i < |b.children| && b.children[i].rec.height >= 0 && excess >= 0
    ensures var c := PlaceYs(b, padding, spacing, excess)[i].rec;
      && CellTop(b, padding, spacing, excess, i) - b.children[i].rec.height - excess <= c.MinY()
      && c.MaxY() <= CellTop(b, padding, spacing, excess, i)
    ensures RowOf(b.children[i].rec.alignment) == TopRow ==>
      PlaceYs(b, padding, spacing, excess)[i].rec.MaxY() == CellTop(b, padding, spacing, excess, i)
  {
    JDivNonNegative(b.children[i].rec.height, 2);
    JDivNonNegative(excess, 2);
  }

  lemma {:induction false} CellsDecrease(b: Box, padding: int, spacing: int, excess: int, i: nat, j: nat)
    requires i < j <= |b.children| && excess >= 0 && spacing >= 0
    requires forall k :: 0 <= k < |b.children| ==> b.children[k].rec.height >= 0
    ensures CellTop(b, padding, spacing, excess, j)
         <= CellTop(b, padding, spacing, excess, i) - b.children[i].rec.height - excess
    decreases j - i
  {
    CursorAdvance(b, padding, spacing, excess, j - 1);
    if i < j - 1 {
      CellsDecrease(b, padding, spacing, excess, i, j - 1);
    }
  }

  /**
   * With non-negative heights, slack and spacing, the children are stacked
   * top to bottom without overlapping.
   */
  lemma PlacedInOrder(b: Box, padding: int, spacing: int, excess: int, i: nat, j: nat)
    requires i < j < |b.children| && excess >= 0 && spacing >= 0
    requires forall k :: 0 <= k < |b.children| ==> b.children[k].rec.height >= 0
    ensures PlaceYs(b, padding, spacing, excess)[j].rec.MaxY()
         <= PlaceYs(b, padding, spacing, excess)[i].rec.MinY()
  {
    PlacedInCell(b, padding, spacing, excess, i);
    PlacedInCell(b, padding, spacing, excess, j);
    CellsDecrease(b, padding, spacing, excess, i, j);
  }

  /**
   * When no child fills and the leftover is non-negative, the cells and
   * spacing end within the padded interior, fewer than n pixels short of
   * its bottom end `MaxY - H + padding`.
   */
  lemma EvenColumnFits(b: Box, padding: int, spacing: int)
    requires b.children != [] && !AnyFillsHeight(b.children)
    requires Stretch(b, padding, spacing) >= 0
    ensures var n := |b.children|;
      var e := Excess(b, padding, spacing).value;
      var end := CellTop(b, padding, spacing, e, n) + spacing;
      && b.own.MaxY() - b.own.height + padding <= end
      && end < b.own.MaxY() - b.own.height + padding + n
  {
    var cs := b.children;
    var n := |cs|;
    assert FixedHeights(cs) == Heights(cs);
    assert cs[..n] == cs;
    var e := JDiv(Stretch(b, padding, spacing), n);
    EvenSplit(Stretch(b, padding, spacing), n);
    assert n * (e + spacing) == n * e + n * spacing;
  }
}
