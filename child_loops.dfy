/**
 * The containers' `forEach` and `for` loops over their children, each
 * proved to compute the pass it implements. The classes assign the result
 * to their `children` field.
 */
module ChildLoops {

  import opened Wrappers
  import opened JavaInt
  import opened Geometry
  import opened Tiles
  import opened Reductions
  import opened Nodes
  import opened ChildPasses
  import opened Engine
  import opened EngineFacts
  import H = HorizontalListSpec
  import V = VerticalListSpec
  import opened ListShares

  /** `children.forEach(Tile::update)`, stopping at the first exception. */
  method UpdateEach(cs: seq<Node>) returns (r: seq<Node>, thrown: Option<Failure>)
    ensures Run(r, thrown) == UpdateAll(cs)
  {
    r := cs;
    var i := 0;
    while i < |cs|
      invariant 0 <= i <= |cs| && |r| == |cs|
      invariant UpdateAll(cs[..i]) == Run(r[..i], None)
      invariant r[i..] == cs[i..]
    {
      var u := Update(cs[i]);
      UpdateAllStep(cs, i);
      r := r[i := u.value];
      assert r[..i + 1] == r[..i] + [u.value];
      if u.thrown.Some? {
        UpdateAllAfterThrow(cs, i + 1);
        assert r == r[..i + 1] + cs[i + 1..];
        thrown := u.thrown;
        return;
      }
      i := i + 1;
    }
    assert cs[..i] == cs && r[..i] == r;
    thrown := None;
  }

  /** Every filling child given width `w`. */
  method FillEachWidth(cs: seq<Node>, w: int) returns (r: seq<Node>)
    ensures r == FillWidths(cs, w)
  {
    r := cs;
    for i := 0 to |cs|
      invariant |r| == |cs|
      invariant forall j :: 0 <= j < i ==> r[j] == FillWidths(cs, w)[j]
      invariant forall j :: i <= j < |cs| ==> r[j] == cs[j]
    {
      if cs[i].rec.hFill == FillParent {
        r := r[i := cs[i].(rec := cs[i].rec.(width := w))];
      }
    }
  }

  /** Every filling child given height `h`. */
  method FillEachHeight(cs: seq<Node>, h: int) returns (r: seq<Node>)
    ensures r == FillHeights(cs, h)
  {
    r := cs;
    for i := 0 to |cs|
      invariant |r| == |cs|
      invariant forall j :: 0 <= j < i ==> r[j] == FillHeights(cs, h)[j]
      invariant forall j :: i <= j < |cs| ==> r[j] == cs[j]
    {
      if cs[i].rec.vFill == FillParent {
        r := r[i := cs[i].(rec := cs[i].rec.(height := h))];
      }
    }
  }

  /**
   * A frame's or a vertical list's width pass: when wrapping, update every
   * child and take the widest; otherwise give filling children the interior.
   */
  method WidestOrFill(b: Box, padding: int) returns (r: Box, thrown: Option<Failure>)
    ensures Run(r, thrown) == FrameWidth(b, padding)
  {
    if b.own.hFill == WrapContent {
      var cs, t := UpdateEach(b.children);
      assert FrameWidth(b, padding) == if t.Some? then Run(Box(b.own, cs), t) else WrapToWidest(Box(b.own, cs), padding);
      if t.Some? {
        r, thrown := Box(b.own, cs), t;
      } else if cs == [] {
        r, thrown := Box(b.own, cs), Some(NoSuchElement);
      } else {
        r, thrown := Box(b.own.(width := Max(Widths(cs)) + 2 * padding), cs), None;
      }
    } else {
      var cs := FillEachWidth(b.children, b.own.width - 2 * padding);
      r, thrown := Box(b.own, cs), None;
    }
  }

  /**
   * A horizontal list's height pass: when wrapping, update every child and
   * take the tallest; otherwise give filling children the interior.
   */
  method TallestOrFill(b: Box, padding: int) returns (r: Box, thrown: Option<Failure>)
    ensures Run(r, thrown) == CrossHeight(b, padding)
  {
    if b.own.vFill == WrapContent {
      var cs, t := UpdateEach(b.children);
      assert CrossHeight(b, padding) == if t.Some? then Run(Box(b.own, cs), t) else WrapToTallest(Box(b.own, cs), padding);
      if t.Some? {
        r, thrown := Box(b.own, cs), t;
      } else if cs == [] {
        r, thrown := Box(b.own, cs), Some(NoSuchElement);
      } else {
        r, thrown := Box(b.own.(height := Max(Heights(cs)) + 2 * padding), cs), None;
      }
    } else {
      var cs := FillEachHeight(b.children, b.own.height - 2 * padding);
      r, thrown := Box(b.own, cs), None;
    }
  }

  /**
   * A horizontal list's width pass: when wrapping, update every child and
   * take the row's length; otherwise share the width out.
   */
  method RowOrShare(b: Box, padding: int, spacing: int) returns (r: Box, thrown: Option<Failure>)
    ensures Run(r, thrown) == HorizontalWidth(b, padding, spacing)
  {
    if b.own.hFill == WrapContent {
      var cs, t := UpdateEach(b.children);
      if t.Some? {
        r, thrown := Box(b.own, cs), t;
      } else {
        r, thrown := Box(b.own.(width := Sum(Widths(cs)) + Gaps(|cs|, spacing, padding)), cs), None;
      }
    } else {
      var cs, t := ShareEachWidth(b, padding, spacing);
      r, thrown := Box(b.own, cs), t;
    }
  }

  /**
   * A vertical list's height pass: when wrapping, update every child and
   * take the column's length; otherwise share the height out.
   */
  method ColumnOrShare(b: Box, padding: int, spacing: int) returns (r: Box, thrown: Option<Failure>)
    ensures Run(r, thrown) == VerticalHeight(b, padding, spacing)
  {
    if b.own.vFill == WrapContent {
      var cs, t := UpdateEach(b.children);
      if t.Some? {
        r, thrown := Box(b.own, cs), t;
      } else {
        r, thrown := Box(b.own.(height := Sum(Heights(cs)) + Gaps(|cs|, spacing, padding)), cs), None;
      }
    } else {
      var cs, t := ShareEachHeight(b, padding, spacing);
      r, thrown := Box(b.own, cs), t;
    }
  }

  /**
   * The horizontal list's share loop: each filling child's width set to
   * its share of the stretch; the division throws at the first filling
   * child when the weights total 0.
   */
  method ShareEachWidth(b: Box, padding: int, spacing: int) returns (r: seq<Node>, thrown: Option<Failure>)
    ensures Run(Box(b.own, r), thrown) == H.ShareWidth(b, padding, spacing)
  {
    var cs := b.children;
    var stretch := H.Stretch(b, padding, spacing);
    var total := Sum(H.FillWeights(cs));
    var goal := H.ShareWidth(b, padding, spacing);
    r := cs;
    for i := 0 to |cs|
      invariant |r| == |cs|
      invariant total == 0 ==> forall j :: 0 <= j < i ==> !H.FillsWidth(cs[j])
      invariant total != 0 ==> forall j :: 0 <= j < i ==> r[j] == goal.value.children[j]
      invariant forall j :: 0 <= j < |cs| && (i <= j || !H.FillsWidth(cs[j])) ==> r[j] == cs[j]
    {
      if H.FillsWidth(cs[i]) {
        if total == 0 {
          thrown := Some(DivisionByZero);
          assert r == cs;
          return;
        }
        r := r[i := cs[i].(rec := cs[i].rec.(width := JDiv(stretch * cs[i].rec.hWeight, total)))];
      }
    }
    if total == 0 {
      assert !H.AnyFillsWidth(cs);
    }
    assert r == goal.value.children;
    thrown := None;
  }

  /** The vertical list's share loop, on heights and vertical weights. */
  method ShareEachHeight(b: Box, padding: int, spacing: int) returns (r: seq<Node>, thrown: Option<Failure>)
    ensures Run(Box(b.own, r), thrown) == V.ShareHeight(b, padding, spacing)
  {
    var cs := b.children;
    var stretch := V.Stretch(b, padding, spacing);
    var total := Sum(V.FillWeights(cs));
    var goal := V.ShareHeight(b, padding, spacing);
    r := cs;
    for i := 0 to |cs|
      invariant |r| == |cs|
      invariant total == 0 ==> forall j :: 0 <= j < i ==> !V.FillsHeight(cs[j])
      invariant total != 0 ==> forall j :: 0 <= j < i ==> r[j] == goal.value.children[j]
      invariant forall j :: 0 <= j < |cs| && (i <= j || !V.FillsHeight(cs[j])) ==> r[j] == cs[j]
    {
      if V.FillsHeight(cs[i]) {
        if total == 0 {
          thrown := Some(DivisionByZero);
          assert r == cs;
          return;
        }
        r := r[i := cs[i].(rec := cs[i].rec.(height := JDiv(stretch * cs[i].rec.vWeight, total)))];
      }
    }
    if total == 0 {
      assert !V.AnyFillsHeight(cs);
    }
    assert r == goal.value.children;
    thrown := None;
  }

  /**
   * The horizontal list's `updateX` loop: a cursor that starts at the
   * padded left edge and advances past each child, its slack and the
   * spacing.
   */
  method PlaceEachX(b: Box, padding: int, spacing: int, excess: int) returns (r: seq<Node>)
    ensures r == H.PlaceXs(b, padding, spacing, excess)
  {
    var cs := b.children;
    var x := b.own.MinX() + padding;
    assert cs[..0] == [];
    r := cs;
    for i := 0 to |cs|
      invariant |r| == |cs|
      invariant x == H.CellLeft(b, padding, spacing, excess, i)
      invariant forall j :: 0 <= j < i ==> r[j] == H.PlaceXs(b, padding, spacing, excess)[j]
    {
      r := r[i := H.PlaceX(cs[i], x, excess)];
      H.CursorAdvance(b, padding, spacing, excess, i);
      x := x + cs[i].rec.width + excess + spacing;
    }
  }

  /**
   * The vertical list's `updateY` loop: a cursor that starts at the padded
   * top edge and moves down past each child, its slack and the spacing.
   */
  method PlaceEachY(b: Box, padding: int, spacing: int, excess: int) returns (r: seq<Node>)
    ensures r == V.PlaceYs(b, padding, spacing, excess)
  {
    var cs := b.children;
    var y := b.own.MaxY() - padding;
    assert cs[..0] == [];
    r := cs;
    for i := 0 to |cs|
      invariant |r| == |cs|
      invariant y == V.CellTop(b, padding, spacing, excess, i)
      invariant forall j :: 0 <= j < i ==> r[j] == V.PlaceYs(b, padding, spacing, excess)[j]
    {
      r := r[i := V.PlaceY(cs[i], y, excess)];
      V.CursorAdvance(b, padding, spacing, excess, i);
      y := y - (cs[i].rec.height + excess + spacing);
    }
  }

  /** The cross-axis `forEach`: each child's x from the parent's centre and padded edges. */
  method InsetEachX(cs: seq<Node>, own: TileRec, padding: int) returns (r: seq<Node>)
    ensures r == InsetXs(cs, own, padding)
  {
    r := cs;
    for i := 0 to |cs|
      invariant |r| == |cs|
      invariant forall j :: 0 <= j < i ==> r[j] == InsetXs(cs, own, padding)[j]
    {
      r := r[i := InsetX(cs[i], own, padding)];
    }
  }

  /** The cross-axis `forEach`: each child's y from the parent's centre and padded edges. */
  method InsetEachY(cs: seq<Node>, own: TileRec, padding: int) returns (r: seq<Node>)
    ensures r == InsetYs(cs, own, padding)
  {
    r := cs;
    for i := 0 to |cs|
      invariant |r| == |cs|
      invariant forall j :: 0 <= j < i ==> r[j] == InsetYs(cs, own, padding)[j]
    {
      r := r[i := InsetY(cs[i], own, padding)];
    }
  }

  /** The frame's `updatePosition`: each child aligned on both axes in turn. */
  method AlignEach(b: Box, padding: int) returns (r: seq<Node>)
    ensures r == FramePosition(b, padding).value.children
  {
    var cs := b.children;
    var lo, hi := b.own.MinX() + padding, b.own.MaxX() - padding;
    var bottom, top := b.own.MinY() + padding, b.own.MaxY() - padding;
    ghost var goal := AlignYs(AlignXs(cs, lo, hi), bottom, top);
    r := cs;
    for i := 0 to |cs|
      invariant |r| == |cs|
      invariant forall j :: 0 <= j < i ==> r[j] == goal[j]
    {
      r := r[i := AlignY(AlignX(cs[i], lo, hi), bottom, top)];
    }
  }
}
