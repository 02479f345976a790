/** What the recursive update guarantees, stated over whole containers. */
module EngineFacts {

  import opened Wrappers
  import opened Geometry
  import opened Tiles
  import opened Reductions
  import opened Nodes
  import opened ChildPasses
  import opened Engine
  import H = HorizontalListSpec
  import V = VerticalListSpec
  import FL = FrameLayoutSpec
  import opened ListShares

  /**
   * Updating children in order stops at the first exception: without one
   * every child is updated; with one, the children before the failing child
   * are updated, it is left as it was at the throw, and the rest are
   * untouched.
   */
  lemma {:induction false} UpdateAllStopsAtFirstFailure(cs: seq<Node>)
    ensures UpdateAll(cs).thrown.None? <==> forall i :: 0 <= i < |cs| ==> Update(cs[i]).thrown.None?
    ensures UpdateAll(cs).thrown.None? ==> forall i :: 0 <= i < |cs| ==> UpdateAll(cs).value[i] == Update(cs[i]).value
    ensures UpdateAll(cs).thrown.Some? ==> exists k :: 0 <= k < |cs| && Failed(cs, UpdateAll(cs), k)
    decreases |cs|
  {
    if cs != [] {
      var n := |cs| - 1;
      var r := UpdateAll(cs);
      var front := UpdateAll(cs[..n]);
      UpdateAllStopsAtFirstFailure(cs[..n]);
      if front.thrown.Some? {
        assert r == Run(front.value + [cs[n]], front.thrown);
        var k :| 0 <= k < n && Failed(cs[..n], front, k);
        FailedExtends(cs, front, k);
      } else {
        var last := Update(cs[n]);
        assert r == Run(front.value + [last.value], last.thrown);
        assert forall i :: 0 <= i < n ==> r.value[i] == front.value[i] && cs[..n][i] == cs[i];
        if last.thrown.Some? {
          assert r.value[n + 1..] == [] == cs[n + 1..];
          assert Failed(cs, r, n);
        }
      }
    }
  }

  lemma FailedExtends(cs: seq<Node>, front: Run<seq<Node>>, k: nat)
    requires cs != [] && k < |cs| - 1 && |front.value| == |cs| - 1
    requires Failed(cs[..|cs| - 1], front, k)
    ensures Failed(cs, Run(front.value + [cs[|cs| - 1]], front.thrown), k)
  {
    var n := |cs| - 1;
    var v := front.value + [cs[n]];
    assert forall i :: 0 <= i < n ==> v[i] == front.value[i] && cs[..n][i] == cs[i];
    assert v[k + 1..] == front.value[k + 1..] + [cs[n]];
    assert cs[k + 1..] == cs[..n][k + 1..] + [cs[n]];
  }

  /** `Update` on a container is its kind's update of its own box. */
  lemma UnfoldUpdate(n: Node)
    requires n.Container?
    ensures var u := UpdateBox(n.kind, Box(n.rec, n.children), n.padding);
      Update(n) == Run(Container(u.value.own, n.kind, n.padding, u.value.children), u.thrown)
    ensures n.kind == LayoutKind ==>
      UpdateBox(n.kind, Box(n.rec, n.children), n.padding)
        == Run(Box(n.rec, UpdateAll(n.children).value), UpdateAll(n.children).thrown)
    ensures n.kind == FrameKind ==>
      UpdateBox(n.kind, Box(n.rec, n.children), n.padding) == UpdateFrame(Box(n.rec, n.children), n.padding)
    ensures n.kind.HorizontalKind? ==>
      UpdateBox(n.kind, Box(n.rec, n.children), n.padding) == UpdateHorizontal(Box(n.rec, n.children), n.padding, n.kind.spacing)
    ensures n.kind.VerticalKind? ==>
      UpdateBox(n.kind, Box(n.rec, n.children), n.padding) == UpdateVertical(Box(n.rec, n.children), n.padding, n.kind.spacing)
    ensures n.kind == FrameLayoutKind ==>
      UpdateBox(n.kind, Box(n.rec, n.children), n.padding) == FL.Update(Box(n.rec, n.children), n.padding)
  {
  }

  /** Once a prefix has thrown, the rest of the children are left as they are. */
  lemma {:induction false} UpdateAllAfterThrow(cs: seq<Node>, k: nat)
    requires k <= |cs| && UpdateAll(cs[..k]).thrown.Some?
    ensures UpdateAll(cs) == Run(UpdateAll(cs[..k]).value + cs[k..], UpdateAll(cs[..k]).thrown)
    decreases |cs|
  {
    if k == |cs| {
      assert cs[..k] == cs;
      assert cs[k..] == [];
      assert UpdateAll(cs).value + [] == UpdateAll(cs).value;
    } else {
      var n := |cs| - 1;
      assert cs[..n][..k] == cs[..k];
      UpdateAllAfterThrow(cs[..n], k);
      var front := UpdateAll(cs[..n]);
      assert front.thrown.Some?;
      assert UpdateAll(cs) == Run(front.value + [cs[n]], front.thrown);
      assert cs[k..] == cs[..n][k..] + [cs[n]];
      assert front.value + [cs[n]] == UpdateAll(cs[..k]).value + cs[k..];
    }
  }

  /** One more child updated after a prefix that did not throw. */
  lemma UpdateAllStep(cs: seq<Node>, i: nat)
    requires i < |cs| && UpdateAll(cs[..i]).thrown.None?
    ensures UpdateAll(cs[..i + 1])
         == Run(UpdateAll(cs[..i]).value + [Update(cs[i]).value], Update(cs[i]).thrown)
  {
    assert cs[..i + 1][..i] == cs[..i];
  }

  /** Child `k` threw: the ones before it succeeded, the ones after it are untouched. */
  ghost predicate Failed(cs: seq<Node>, r: Run<seq<Node>>, k: nat)
    requires k < |cs| && |r.value| == |cs|
  {
    && (forall i :: 0 <= i < k ==> Update(cs[i]).thrown.None? && r.value[i] == Update(cs[i]).value)
    && r.value[k] == Update(cs[k]).value && r.thrown == Update(cs[k]).thrown && r.thrown.Some?
    && r.value[k + 1..] == cs[k + 1..]
  }

  /** An empty horizontal list always throws: a tallest child is missing, or the slack divides by zero. */
  lemma EmptyHorizontalThrows(rec: TileRec, padding: int, spacing: int)
    ensures var r := Update(Container(rec, HorizontalKind(spacing), padding, []));
      && (rec.vFill == WrapContent ==> r.thrown == Some(NoSuchElement))
      && (rec.vFill != WrapContent ==> r.thrown == Some(DivisionByZero))
  {
    var n := Container(rec, HorizontalKind(spacing), padding, []);
    var b := Box(rec, []);
    UnfoldUpdate(n);
    assert UpdateBox(n.kind, b, padding) == UpdateHorizontal(b, padding, spacing);
    assert UpdateAll([]) == Run([], None);
    var w := HorizontalWidth(b, padding, spacing);
    assert w.thrown.None? && w.value.children == [] && w.value.own.vFill == rec.vFill;
    var h := CrossHeight(w.value, padding);
    assert h.value.children == [];
    if h.thrown.None? {
      assert H.XPass(h.value, padding, spacing).thrown == Some(DivisionByZero);
    }
  }

  /** An empty vertical list always throws, by the mirror argument. */
  lemma EmptyVerticalThrows(rec: TileRec, padding: int, spacing: int)
    ensures var r := Update(Container(rec, VerticalKind(spacing), padding, []));
      && (rec.hFill == WrapContent ==> r.thrown == Some(NoSuchElement))
      && (rec.hFill != WrapContent ==> r.thrown == Some(DivisionByZero))
  {
    var n := Container(rec, VerticalKind(spacing), padding, []);
    var b := Box(rec, []);
    UnfoldUpdate(n);
    assert UpdateBox(n.kind, b, padding) == UpdateVertical(b, padding, spacing);
    assert UpdateAll([]) == Run([], None);
    var h := VerticalHeight(b, padding, spacing);
    assert h.thrown.None? && h.value.children == [] && h.value.own.hFill == rec.hFill;
    var w := FrameWidth(h.value, padding);
    assert w.value.children == [];
    if w.thrown.None? {
      assert V.YPass(w.value, padding, spacing).thrown == Some(DivisionByZero);
    }
  }

  /**
   * A frame that does not wrap its width never updates its children: only
   * their own sizes and positions change. The same holds for every frame
   * layout.
   */
  lemma FixedFrameDoesNotRecurse(n: Node)
    requires n.Container? && (n.kind == FrameLayoutKind || (n.kind == FrameKind && n.rec.hFill != WrapContent))
    ensures RecsOnly(n.children, Update(n).value.children)
  {
    var b := Box(n.rec, n.children);
    UnfoldUpdate(n);
    if n.kind == FrameKind {
      var w := FrameWidth(b, n.padding);
      if w.thrown.None? {
        var h := FrameHeight(w.value, n.padding);
        RecsOnlyTransitive(b.children, w.value.children, h.value.children);
        if h.thrown.None? {
          RecsOnlyTransitive(b.children, h.value.children, FramePosition(h.value, n.padding).value.children);
        }
      }
    }
  }

  /**
   * After a frame's update, a centred child shares the frame's centre, a
   * left (bottom) child touches the padded left (bottom) edge and a right
   * (top) child the padded right (top) edge.
   */
  lemma FrameAlignsChildren(n: Node, i: nat)
    requires n.Container? && n.kind == FrameKind && i < |n.children|
    requires Update(n).thrown.None?
    ensures var r := Update(n).value;
      var c := r.children[i].rec;
      && (ColumnOf(c.alignment) == MiddleColumn ==> c.x == r.rec.x)
      && (ColumnOf(c.alignment) == LeftColumn ==> c.MinX() == r.rec.MinX() + n.padding)
      && (ColumnOf(c.alignment) == RightColumn ==> c.MaxX() == r.rec.MaxX() - n.padding)
      && (RowOf(c.alignment) == MiddleRow ==> c.y == r.rec.y)
      && (RowOf(c.alignment) == BottomRow ==> c.MinY() == r.rec.MinY() + n.padding)
      && (RowOf(c.alignment) == TopRow ==> c.MaxY() == r.rec.MaxY() - n.padding)
  {
    var b := Box(n.rec, n.children);
    var p := n.padding;
    UnfoldUpdate(n);
    var w := FrameWidth(b, p);
    var h := FrameHeight(w.value, p);
    assert UpdateFrame(b, p) == FramePosition(h.value, p);
    PositionAligns(h.value, p, i);
  }

  /** The position pass puts each child where its alignment asks, inside the padded interior. */
  lemma PositionAligns(b: Box, p: int, i: nat)
    requires i < |b.children|
    ensures var c := FramePosition(b, p).value.children[i].rec;
      && (ColumnOf(c.alignment) == MiddleColumn ==> c.x == b.own.x)
      && (ColumnOf(c.alignment) == LeftColumn ==> c.MinX() == b.own.MinX() + p)
      && (ColumnOf(c.alignment) == RightColumn ==> c.MaxX() == b.own.MaxX() - p)
      && (RowOf(c.alignment) == MiddleRow ==> c.y == b.own.y)
      && (RowOf(c.alignment) == BottomRow ==> c.MinY() == b.own.MinY() + p)
      && (RowOf(c.alignment) == TopRow ==> c.MaxY() == b.own.MaxY() - p)
  {
    var own := b.own;
    var xs := AlignXs(b.children, own.MinX() + p, own.MaxX() - p);
    var ys := AlignYs(xs, own.MinY() + p, own.MaxY() - p);
    assert xs[i].rec.alignment == b.children[i].rec.alignment;
    assert ys[i].rec.x == xs[i].rec.x && ys[i].rec.width == xs[i].rec.width;
  }

  /**
   * A horizontal list that wraps its width and not its height ends exactly
   * as wide as its children, spacing and padding.
   */
  lemma WrappedRowIsExact(n: Node)
    requires n.Container? && n.kind.HorizontalKind?
    requires n.rec.hFill == WrapContent && n.rec.vFill != WrapContent
    requires Update(n).thrown.None?
    ensures var r := Update(n).value;
      r.rec.width == Sum(Widths(r.children)) + Gaps(|r.children|, n.kind.spacing, n.padding)
  {
    var b := Box(n.rec, n.children);
    var p, sp := n.padding, n.kind.spacing;
    var u := UpdateHorizontal(b, p, sp);
    assert Update(n) == Run(Container(u.value.own, n.kind, p, u.value.children), u.thrown) by {
      UnfoldUpdate(n);
    }
    assert n.children != [] by {
      if n.children == [] {
        EmptyHorizontalThrows(n.rec, p, sp);
      }
    }
    FixedHeightRowKeepsWidths(b, p, sp);
  }

  /** The mirror: a vertical list wrapping its height is exactly as tall as its contents. */
  lemma WrappedColumnIsExact(n: Node)
    requires n.Container? && n.kind.VerticalKind?
    requires n.rec.vFill == WrapContent && n.rec.hFill != WrapContent
    requires Update(n).thrown.None?
    ensures var r := Update(n).value;
      r.rec.height == Sum(Heights(r.children)) + Gaps(|r.children|, n.kind.spacing, n.padding)
  {
    var b := Box(n.rec, n.children);
    var p, sp := n.padding, n.kind.spacing;
    var u := UpdateVertical(b, p, sp);
    assert Update(n) == Run(Container(u.value.own, n.kind, p, u.value.children), u.thrown) by {
      UnfoldUpdate(n);
    }
    assert n.children != [] by {
      if n.children == [] {
        EmptyVerticalThrows(n.rec, p, sp);
      }
    }
    FixedWidthColumnKeepsHeights(b, p, sp);
  }

  /**
   * A horizontal list that shares its width among filling children of
   * non-negative weights (some positive) and does not wrap its height
   * succeeds, and its children, spacing and padding fit its width.
   */
  lemma SharedRowFitsAfterUpdate(n: Node)
    requires n.Container? && n.kind.HorizontalKind?
    requires n.rec.hFill != WrapContent && n.rec.vFill != WrapContent
    requires H.Stretch(Box(n.rec, n.children), n.padding, n.kind.spacing) >= 0
    requires forall i :: 0 <= i < |n.children| && H.FillsWidth(n.children[i]) ==> n.children[i].rec.hWeight >= 0
    requires Sum(H.FillWeights(n.children)) > 0
    ensures Update(n).thrown.None?
    ensures Sum(Widths(Update(n).value.children)) + Gaps(|n.children|, n.kind.spacing, n.padding) <= n.rec.width
  {
    var b := Box(n.rec, n.children);
    var p, sp := n.padding, n.kind.spacing;
    assert n.children != [] by {
      if n.children == [] {
        SumEmptyWeights(n.children);
      }
    }
    H.SharedRowFits(b, p, sp);
    FixedHeightRowKeepsWidths(b, p, sp);
    var u := UpdateHorizontal(b, p, sp);
    assert Update(n) == Run(Container(u.value.own, n.kind, p, u.value.children), u.thrown) by {
      UnfoldUpdate(n);
    }
  }

  /** The mirror for a vertical list sharing its height. */
  lemma SharedColumnFitsAfterUpdate(n: Node)
    requires n.Container? && n.kind.VerticalKind?
    requires n.rec.vFill != WrapContent && n.rec.hFill != WrapContent
    requires V.Stretch(Box(n.rec, n.children), n.padding, n.kind.spacing) >= 0
    requires forall i :: 0 <= i < |n.children| && V.FillsHeight(n.children[i]) ==> n.children[i].rec.vWeight >= 0
    requires Sum(V.FillWeights(n.children)) > 0
    ensures Update(n).thrown.None?
    ensures Sum(Heights(Update(n).value.children)) + Gaps(|n.children|, n.kind.spacing, n.padding) <= n.rec.height
  {
    var b := Box(n.rec, n.children);
    var p, sp := n.padding, n.kind.spacing;
    assert n.children != [] by {
      if n.children == [] {
        SumEmptyWeights(n.children);
      }
    }
    V.SharedColumnFits(b, p, sp);
    FixedWidthColumnKeepsHeights(b, p, sp);
    var u := UpdateVertical(b, p, sp);
    assert Update(n) == Run(Container(u.value.own, n.kind, p, u.value.children), u.thrown) by {
      UnfoldUpdate(n);
    }
  }

  /**
   * A non-empty row whose height does not wrap, once its width pass
   * succeeds, updates without exception and keeps the widths that pass gave.
   */
  lemma FixedHeightRowKeepsWidths(b: Box, padding: int, spacing: int)
    requires b.own.vFill != WrapContent && b.children != []
    requires HorizontalWidth(b, padding, spacing).thrown.None?
    ensures UpdateHorizontal(b, padding, spacing).thrown.None?
    ensures UpdateHorizontal(b, padding, spacing).value.own.width == HorizontalWidth(b, padding, spacing).value.own.width
    ensures Widths(UpdateHorizontal(b, padding, spacing).value.children)
      == Widths(HorizontalWidth(b, padding, spacing).value.children)
  {
    var w := HorizontalWidth(b, padding, spacing);
    var h := CrossHeight(w.value, padding);
    var x := H.XPass(h.value, padding, spacing);
    var y := H.YPass(x.value, padding);
    assert Widths(y.children) == Widths(w.value.children);
  }

  /** The mirror: a column whose width does not wrap keeps the heights its height pass gave. */
  lemma FixedWidthColumnKeepsHeights(b: Box, padding: int, spacing: int)
    requires b.own.hFill != WrapContent && b.children != []
    requires VerticalHeight(b, padding, spacing).thrown.None?
    ensures UpdateVertical(b, padding, spacing).thrown.None?
    ensures UpdateVertical(b, padding, spacing).value.own.height == VerticalHeight(b, padding, spacing).value.own.height
    ensures Heights(UpdateVertical(b, padding, spacing).value.children)
      == Heights(VerticalHeight(b, padding, spacing).value.children)
  {
    var h := VerticalHeight(b, padding, spacing);
    var w := FrameWidth(h.value, padding);
    var y := V.YPass(w.value, padding, spacing);
    var x := V.XPass(y.value, padding);
    assert Heights(x.children) == Heights(h.value.children);
  }

  lemma SumEmptyWeights(cs: seq<Node>)
    requires cs == []
    ensures Sum(H.FillWeights(cs)) == 0 && Sum(V.FillWeights(cs)) == 0
  {
    assert H.FillWeights(cs) == [] && V.FillWeights(cs) == [];
  }

  /**
   * Why the exact-width rule needs a height that does not wrap: a row
   * wrapping both axes updates its children once in each wrap branch, and
   * a wrapping frame layout measures its children before it re-centres
   * them. With two 10 x 10 leaves at different x, the frame layout shrinks
   * on its second update, after the row took its width from the first: the
   * row is c - a + 10 wide while its one child, with no spacing or padding,
   * is 10 wide.
   */
  lemma WrappedBothAxesRowNotExact(own: TileRec, a: int, c: int, fl: Node)
    requires own.hFill == WrapContent && own.vFill == WrapContent && own.x == 0 && own.y == 0
    requires a < c
    requires fl == Container(own, FrameLayoutKind, 0,
      [Leaf(DefaultTile.(width := 10, height := 10, x := a)), Leaf(DefaultTile.(width := 10, height := 10, x := c))])
    ensures var r := Update(Container(own, HorizontalKind(0), 0, [fl]));
      && r.thrown.None?
      && r.value.rec.width == c - a + 10
      && Widths(r.value.children) == [10]
  {
    var l := DefaultTile.(width := 10, height := 10);
    assert fl == Container(own, FrameLayoutKind, 0, [Leaf(l.(x := a)), Leaf(l.(x := c))]);
    var own1 := own.(width := c - a + 10, height := 10);
    var once := Container(own1, FrameLayoutKind, 0, [Leaf(l), Leaf(l)]);
    var twice := Container(own1.(width := 10, height := 10), FrameLayoutKind, 0, [Leaf(l), Leaf(l)]);
    assert Update(fl) == Run(once, None) by {
      FrameLayoutOfTwo(own, a, c);
    }
    assert Update(once) == Run(twice, None) by {
      FrameLayoutOfTwo(own1, 0, 0);
      assert l.(x := 0) == l;
    }
    RowUpdatesItsChildTwice(own, 0, fl, once, twice);
  }

  /**
   * A horizontal list wrapping both axes updates a lone child twice: its
   * width is taken from the child after one update, while the child ends
   * as its second update left it.
   */
  lemma RowUpdatesItsChildTwice(rec: TileRec, spacing: int, c: Node, once: Node, twice: Node)
    requires rec.hFill == WrapContent && rec.vFill == WrapContent
    requires Update(c) == Run(once, None) && Update(once) == Run(twice, None)
    ensures var r := Update(Container(rec, HorizontalKind(spacing), 0, [c]));
      && r.thrown.None?
      && r.value.rec.width == once.rec.width
      && Widths(r.value.children) == [twice.rec.width]
  {
    var row := Container(rec, HorizontalKind(spacing), 0, [c]);
    var u := UpdateHorizontal(Box(rec, [c]), 0, spacing);
    assert Update(row) == Run(Container(u.value.own, row.kind, 0, u.value.children), u.thrown) by {
      UnfoldUpdate(row);
    }
    WrappedPassesOfOne(rec, spacing, c, once, twice);
  }

  /** The passes of `RowUpdatesItsChildTwice`, on the row's box. */
  lemma WrappedPassesOfOne(rec: TileRec, spacing: int, c: Node, once: Node, twice: Node)
    requires rec.hFill == WrapContent && rec.vFill == WrapContent
    requires Update(c) == Run(once, None) && Update(once) == Run(twice, None)
    ensures var u := UpdateHorizontal(Box(rec, [c]), 0, spacing);
      && u.thrown.None?
      && u.value.own.width == once.rec.width
      && Widths(u.value.children) == [twice.rec.width]
  {
    UpdateAllSingle(c);
    UpdateAllSingle(once);
    var w := HorizontalWidth(Box(rec, [c]), 0, spacing);
    assert w == Run(H.WrapWidth(Box(rec, [once]), 0, spacing), None);
    assert Widths([once]) == [once.rec.width];
    var h := CrossHeight(w.value, 0);
    assert h.value.children == [twice];
    var x := H.XPass(h.value, 0, spacing);
    var y := H.YPass(x.value, 0);
    assert Widths(y.children) == Widths(h.value.children) == [twice.rec.width];
  }

  /** Updating a single child is updating it. */
  lemma UpdateAllSingle(c: Node)
    ensures UpdateAll([c]) == Run([Update(c).value], Update(c).thrown)
  {
    assert [c][..0] == [];
    assert UpdateAll([]) == Run([], None);
    assert [] + [Update(c).value] == [Update(c).value];
  }

  /**
   * A wrapping frame layout at the origin holding two centred 10 x 10
   * leaves at x = a and x = c (a <= c) takes their horizontal bounding box
   * as its width and then moves both leaves to its own centre.
   */
  lemma FrameLayoutOfTwo(own: TileRec, a: int, c: int)
    requires own.hFill == WrapContent && own.vFill == WrapContent && own.x == 0 && own.y == 0
    requires a <= c
    ensures var l := DefaultTile.(width := 10, height := 10);
      Update(Container(own, FrameLayoutKind, 0, [Leaf(l.(x := a)), Leaf(l.(x := c))]))
        == Run(Container(own.(width := c - a + 10, height := 10), FrameLayoutKind, 0, [Leaf(l), Leaf(l)]), None)
  {
    var l := DefaultTile.(width := 10, height := 10);
    var n := Container(own, FrameLayoutKind, 0, [Leaf(l.(x := a)), Leaf(l.(x := c))]);
    UnfoldUpdate(n);
    FrameLayoutPassesOfTwo(own, a, c);
  }

  /** The frame layout's passes for `FrameLayoutOfTwo`. */
  lemma FrameLayoutPassesOfTwo(own: TileRec, a: int, c: int)
    requires own.hFill == WrapContent && own.vFill == WrapContent && own.x == 0 && own.y == 0
    requires a <= c
    ensures var l := DefaultTile.(width := 10, height := 10);
      FL.Update(Box(own, [Leaf(l.(x := a)), Leaf(l.(x := c))]), 0)
        == Run(Box(own.(width := c - a + 10, height := 10), [Leaf(l), Leaf(l)]), None)
  {
    var l := DefaultTile.(width := 10, height := 10);
    var cs := [Leaf(l.(x := a)), Leaf(l.(x := c))];
    var own1 := own.(width := c - a + 10);
    var w := FL.BoundingWidth(Box(own, cs), 0);
    assert w == Run(Box(own1, cs), None) by {
      WidthOfTwo(own, a, c);
    }
    var h := FL.BoundingHeight(Box(own1, cs), 0);
    assert h == Run(Box(own1.(height := 10), cs), None) by {
      HeightOfTwo(own1, a, c);
    }
    var own2 := own.(width := c - a + 10, height := 10);
    assert own1.(height := 10) == own2;
    var p := FL.Place(Box(own2, cs), 0);
    assert p == Box(own2, [Leaf(l), Leaf(l)]) by {
      PlaceOfTwo(own2, a, c);
    }
    assert FL.Update(Box(own, cs), 0) == Run(p, None);
  }

  /** The x and y passes of `FrameLayoutPassesOfTwo` centre both leaves on the origin. */
  lemma PlaceOfTwo(own: TileRec, a: int, c: int)
    requires own.x == 0 && own.y == 0
    ensures var l := DefaultTile.(width := 10, height := 10);
      FL.Place(Box(own, [Leaf(l.(x := a)), Leaf(l.(x := c))]), 0) == Box(own, [Leaf(l), Leaf(l)])
  {
    var l := DefaultTile.(width := 10, height := 10);
    var p := FL.Place(Box(own, [Leaf(l.(x := a)), Leaf(l.(x := c))]), 0);
    assert ColumnOf(Center) == MiddleColumn && RowOf(Center) == MiddleRow;
    assert p.children[0].rec == l && p.children[1].rec == l;
    assert p.children == [Leaf(l), Leaf(l)];
  }

  /** The width pass of `FrameLayoutPassesOfTwo`. */
  lemma WidthOfTwo(own: TileRec, a: int, c: int)
    requires own.hFill == WrapContent && a <= c
    ensures var l := DefaultTile.(width := 10, height := 10);
      var cs := [Leaf(l.(x := a)), Leaf(l.(x := c))];
      FL.BoundingWidth(Box(own, cs), 0) == Run(Box(own.(width := c - a + 10), cs), None)
  {
    var l := DefaultTile.(width := 10, height := 10);
    var cs := [Leaf(l.(x := a)), Leaf(l.(x := c))];
    assert Max(MaxXs(cs)) == c + 5 && Min(MinXs(cs)) == a - 5 by {
      BoundsOfTwo(l, a, c);
    }
    WrappedWidthPass(Box(own, cs), 0);
  }

  /** The height pass of `FrameLayoutPassesOfTwo`. */
  lemma HeightOfTwo(own: TileRec, a: int, c: int)
    requires own.vFill == WrapContent && a <= c
    ensures var l := DefaultTile.(width := 10, height := 10);
      var cs := [Leaf(l.(x := a)), Leaf(l.(x := c))];
      FL.BoundingHeight(Box(own, cs), 0) == Run(Box(own.(height := 10), cs), None)
  {
    var l := DefaultTile.(width := 10, height := 10);
    var cs := [Leaf(l.(x := a)), Leaf(l.(x := c))];
    assert Max(MaxYs(cs)) == 5 && Min(MinYs(cs)) == -5 by {
      BoundsOfTwo(l, a, c);
    }
    WrappedHeightPass(Box(own, cs), 0);
  }

  /**
   * The wrapping case of the width pass, unfolded for non-empty children. It
   * exists only so that `FrameLayoutOfTwo` can rewrite that one case; the
   * general facts are the function's contract and `FrameLayoutSpec.WrapSpansWidth`.
   */
  lemma WrappedWidthPass(b: Box, padding: int)
    requires b.own.hFill == WrapContent && b.children != []
    ensures FL.BoundingWidth(b, padding)
      == Run(Box(b.own.(width := (Max(MaxXs(b.children)) - Min(MinXs(b.children))) + 2 * padding), b.children), None)
  {
  }

  /**
   * The wrapping case of the height pass, unfolded for non-empty children. It
   * exists only so that `FrameLayoutOfTwo` can rewrite that one case; the
   * general facts are the function's contract and `FrameLayoutSpec.WrapSpansHeight`.
   */
  lemma WrappedHeightPass(b: Box, padding: int)
    requires b.own.vFill == WrapContent && b.children != []
    ensures FL.BoundingHeight(b, padding)
      == Run(Box(b.own.(height := (Max(MaxYs(b.children)) - Min(MinYs(b.children))) + 2 * padding), b.children), None)
  {
  }

  /** The edges of two 10 x 10 leaves at the origin's height, at x = a and x = c. */
  lemma BoundsOfTwo(l: TileRec, a: int, c: int)
    requires l == DefaultTile.(width := 10, height := 10) && a <= c
    ensures var cs := [Leaf(l.(x := a)), Leaf(l.(x := c))];
      && Max(MaxXs(cs)) == c + 5 && Min(MinXs(cs)) == a - 5
      && Max(MaxYs(cs)) == 5 && Min(MinYs(cs)) == -5
  {
    var cs := [Leaf(l.(x := a)), Leaf(l.(x := c))];
    assert MaxXs(cs) == [a + 5, c + 5] && MinXs(cs) == [a - 5, c - 5];
    assert MaxYs(cs) == [5, 5] && MinYs(cs) == [-5, -5];
  }
}
