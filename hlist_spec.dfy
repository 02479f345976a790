/**
 * The rules of a horizontal list: children side by side from the left
 * edge, FILL_PARENT children sharing the leftover width by weight, and the
 * slack split evenly among all children when none of them fills.
 */
module HorizontalListSpec {

  import opened Wrappers
  import opened JavaInt
  import opened Geometry
  import opened Tiles
  import opened Reductions
  import opened Nodes
  import opened ChildPasses
  import opened ListShares

  predicate FillsWidth(c: Node)
  {
    c.rec.hFill == FillParent
  }

  predicate AnyFillsWidth(cs: seq<Node>)
  {
    exists i :: 0 <= i < |cs| && FillsWidth(cs[i])
  }

  /** The widths of the children that do not fill (0 in place of the others). */
  function FixedWidths(cs: seq<Node>): seq<int>
  {
    seq(|cs|, i requires 0 <= i < |cs| => if FillsWidth(cs[i]) then 0 else cs[i].rec.width)
  }

  /** The widths of the children that fill (0 in place of the others). */
  function FilledWidths(cs: seq<Node>): seq<int>
  {
    seq(|cs|, i requires 0 <= i < |cs| => if FillsWidth(cs[i]) then cs[i].rec.width else 0)
  }

  /** The weights of the children that fill (0 in place of the others). */
  function FillWeights(cs: seq<Node>): seq<int>
  {
    seq(|cs|, i requires 0 <= i < |cs| => if FillsWidth(cs[i]) then cs[i].rec.hWeight else 0)
  }

  /** The width left for the filling children. */
  function Stretch(b: Box, padding: int, spacing: int): int
  {
    b.own.width - Sum(FixedWidths(b.children)) - Gaps(|b.children|, spacing, padding)
  }

  /** A wrapping list is as wide as its children plus padding and spacing. */
  function WrapWidth(b: Box, padding: int, spacing: int): (r: Box)
    ensures r.children == b.children
    ensures r.own == b.own.(width := r.own.width)
    ensures r.own.width == Sum(Widths(b.children)) + Gaps(|b.children|, spacing, padding)
  {
    Box(b.own.(width := Sum(Widths(b.children)) + Gaps(|b.children|, spacing, padding)), b.children)
  }

  /**
   * Otherwise the filling children share the stretch in proportion to their
   * weights, each share truncated; the list's own width is kept. Filling
   * children whose weights total 0 make the division throw before any
   * child is changed.
   */
  function ShareWidth(b: Box, padding: int, spacing: int): (r: Run<Box>)
    ensures r.value.own == b.own
    ensures RecsOnly(b.children, r.value.children)
    ensures r.thrown.Some? <==> AnyFillsWidth(b.children) && Sum(FillWeights(b.children)) == 0
    ensures r.thrown.Some? ==> r == Run(b, Some(DivisionByZero))
    ensures forall i :: 0 <= i < |b.children| && !FillsWidth(b.children[i]) ==>
      r.value.children[i] == b.children[i]
    ensures r.thrown.None? ==> forall i :: 0 <= i < |b.children| && FillsWidth(b.children[i]) ==>
      r.value.children[i].rec == b.children[i].rec.(width := JDiv(
        Stretch(b, padding, spacing) * b.children[i].rec.hWeight, Sum(FillWeights(b.children))))
  {
    var cs := b.children;
    var total := Sum(FillWeights(cs));
    if AnyFillsWidth(cs) && total == 0 then Run(b, Some(DivisionByZero))
    else
      var stretch := Stretch(b, padding, spacing);
      Run(Box(b.own, seq(|cs|, i requires 0 <= i < |cs| =>
        if FillsWidth(cs[i]) then cs[i].(rec := cs[i].rec.(width := JDiv(stretch * cs[i].rec.hWeight, total)))
        else cs[i])), None)
  }

  /** Every width is either a fixed or a filled width. */
  lemma WidthsSplit(cs: seq<Node>)
    ensures Sum(Widths(cs)) == Sum(FixedWidths(cs)) + Sum(FilledWidths(cs))
  {
    SumPointwise(FixedWidths(cs), FilledWidths(cs), Widths(cs));
  }

  /**
   * With room to share and positive total weight, the children's widths
   * together with padding and spacing fit the list's width, and the
   * filling children lose fewer pixels to truncation than there are of
   * them with a positive weight.
   */
  lemma SharedRowFits(b: Box, padding: int, spacing: int)
    requires Stretch(b, padding, spacing) >= 0
    requires forall i :: 0 <= i < |b.children| && FillsWidth(b.children[i]) ==> b.children[i].rec.hWeight >= 0
    requires Sum(FillWeights(b.children)) > 0
    ensures ShareWidth(b, padding, spacing).thrown.None?
    ensures Sum(FilledWidths(ShareWidth(b, padding, spacing).value.children)) <= Stretch(b, padding, spacing)
    ensures Stretch(b, padding, spacing) - Positives(FillWeights(b.children))
          < Sum(FilledWidths(ShareWidth(b, padding, spacing).value.children))
    ensures Sum(Widths(ShareWidth(b, padding, spacing).value.children)) + Gaps(|b.children|, spacing, padding)
         <= b.own.width
  {
    var cs := b.children;
    var r := ShareWidth(b, padding, spacing).value.children;
    var stretch := Stretch(b, padding, spacing);
    var total := Sum(FillWeights(cs));
    forall i | 0 <= i < |cs|
      ensures FilledWidths(r)[i] == Shares(FillWeights(cs), stretch, total)[i]
      ensures FixedWidths(r)[i] == FixedWidths(cs)[i]
    {
      if !FillsWidth(cs[i]) {
        assert stretch * 0 == 0;
      }
    }
    assert FilledWidths(r) == Shares(FillWeights(cs), stretch, total);
    assert FixedWidths(r) == FixedWidths(cs);
    SharesWithinStretch(FillWeights(cs), stretch, total);
    WidthsSplit(r);
  }

  /**
   * The slack given to each cell: nothing when a child fills, else the
   * leftover width split evenly, which divides by zero for an empty list.
   */
  function Excess(b: Box, padding: int, spacing: int): (r: Run<int>)
    ensures AnyFillsWidth(b.children) ==> r == Run(0, None)
    ensures !AnyFillsWidth(b.children) && b.children == [] ==> r == Run(0, Some(DivisionByZero))
    ensures !AnyFillsWidth(b.children) && b.children != [] ==>
      r == Run(JDiv(Stretch(b, padding, spacing), |b.children|), None)
  {
    if AnyFillsWidth(b.children) then Run(0, None)
    else if b.children == [] then Run(0, Some(DivisionByZero))
    else Run(JDiv(Stretch(b, padding, spacing), |b.children|), None)
  }

  /** The cursor when child `i` is placed: its cell's left edge. */
  function CellLeft(b: Box, padding: int, spacing: int, excess: int, i: nat): int
    requires i <= |b.children|
  {
    b.own.MinX() + padding + Sum(Widths(b.children[..i])) + i * (excess + spacing)
  }

  /** Where a child sits in its cell of width `w + excess`, by its column. */
  function Offset(column: Column, excess: int): int
  {
    match column
    case LeftColumn => 0
    case MiddleColumn => Half(excess)
    case RightColumn => excess
  }

  function PlaceX(c: Node, left: int, excess: int): Node
  {
    c.(rec := c.rec.(x := left + Half(c.rec.width) + Offset(ColumnOf(c.rec.alignment), excess)))
  }

  function PlaceXs(b: Box, padding: int, spacing: int, excess: int): (r: seq<Node>)
    ensures RecsOnly(b.children, r)
    ensures forall i :: 0 <= i < |b.children| ==> r[i].rec == b.children[i].rec.(x := r[i].rec.x)
  {
    seq(|b.children|, i requires 0 <= i < |b.children| =>
      PlaceX(b.children[i], CellLeft(b, padding, spacing, excess, i), excess))
  }

  /** The x pass: place every child in its cell, or throw on an empty list. */
  function XPass(b: Box, padding: int, spacing: int): (r: Run<Box>)
    ensures r.value.own == b.own
    ensures RecsOnly(b.children, r.value.children)
    ensures r.thrown.Some? <==> b.children == []
    ensures r.thrown.Some? ==> r == Run(b, Some(DivisionByZero))
  {
    var e := Excess(b, padding, spacing);
    if e.thrown.Some? then Run(b, e.thrown)
    else Run(Box(b.own, PlaceXs(b, padding, spacing, e.value)), None)
  }

  /** The y pass: the cross-axis inset rule. */
  function YPass(b: Box, padding: int): (r: Box)
    ensures r.own == b.own && RecsOnly(b.children, r.children)
  {
    Box(b.own, InsetYs(b.children, b.own, padding))
  }

  /** The cursor advances by the child's width, the slack and the spacing. */
  lemma CursorAdvance(b: Box, padding: int, spacing: int, excess: int, i: nat)
    requires i < |b.children|
    ensures CellLeft(b, padding, spacing, excess, i + 1)
         == CellLeft(b, padding, spacing, excess, i) + b.children[i].rec.width + excess + spacing
  {
    assert b.children[..i + 1] == b.children[..i] + [b.children[i]];
    WidthsPrefix(b.children, i);
    SumSnoc(Widths(b.children[..i]), b.children[i].rec.width);
  }

  /** A child of non-negative width lies inside its cell. */
  lemma PlacedInCell(b: Box, padding: int, spacing: int, excess: int, i: nat)
    requires i < |b.children| && b.children[i].rec.width >= 0 && excess >= 0
    ensures var c := PlaceXs(b, padding, spacing, excess)[i].rec;
      && CellLeft(b, padding, spacing, excess, i) <= c.MinX()
      && c.MaxX() <= CellLeft(b, padding, spacing, excess, i) + b.children[i].rec.width + excess
    ensures ColumnOf(b.children[i].rec.alignment) == LeftColumn ==>
      PlaceXs(b, padding, spacing, excess)[i].rec.MinX() == CellLeft(b, padding, spacing, excess, i)
  {
    JDivNonNegative(b.children[i].rec.width, 2);
    JDivNonNegative(excess, 2);
  }

  lemma {:induction false} CellsIncrease(b: Box, padding: int, spacing: int, excess: int, i: nat, j: nat)
    requires i < j <= |b.children| && excess >= 0 && spacing >= 0
    requires forall k :: 0 <= k < |b.children| ==> b.children[k].rec.width >= 0
    ensures CellLeft(b, padding, spacing, excess, i) + b.children[i].rec.width + excess
         <= CellLeft(b, padding, spacing, excess, j)
    decreases j - i
  {
    CursorAdvance(b, padding, spacing, excess, j - 1);
    if i < j - 1 {
      CellsIncrease(b, padding, spacing, excess, i, j - 1);
    }
  }

  /**
   * With non-negative widths, slack and spacing, the children are placed
   * left to right without overlapping.
   */
  lemma PlacedInOrder(b: Box, padding: int, spacing: int, excess: int, i: nat, j: nat)
    requires i < j < |b.children| && excess >= 0 && spacing >= 0
    requires forall k :: 0 <= k < |b.children| ==> b.children[k].rec.width >= 0
    ensures PlaceXs(b, padding, spacing, excess)[i].rec.MaxX()
         <= PlaceXs(b, padding, spacing, excess)[j].rec.MinX()
  {
    PlacedInCell(b, padding, spacing, excess, i);
    PlacedInCell(b, padding, spacing, excess, j);
    CellsIncrease(b, padding, spacing, excess, i, j);
  }

  /**
   * When no child fills and the leftover is non-negative, the cells and
   * spacing end within the padded interior, fewer than n pixels short of
   * its right end `MinX + W - padding`.
   */
  lemma EvenRowFits(b: Box, padding: int, spacing: int)
    requires b.children != [] && !AnyFillsWidth(b.children)
    requires Stretch(b, padding, spacing) >= 0
    ensures var n := |b.children|;
      var e := Excess(b, padding, spacing).value;
      var end := CellLeft(b, padding, spacing, e, n) - spacing;
      && b.own.MinX() + b.own.width - padding - n < end
      && end <= b.own.MinX() + b.own.width - padding
  {
    var cs := b.children;
    var n := |cs|;
    assert FixedWidths(cs) == Widths(cs);
    assert cs[..n] == cs;
    var e := JDiv(Stretch(b, padding, spacing), n);
    EvenSplit(Stretch(b, padding, spacing), n);
    assert n * (e + spacing) == n * e + n * spacing;
  }
}
