/**
 * `ListLayout` with its two subclasses: `HorizontalList` (children left to
 * right) and `VerticalList` (children top to bottom), told apart by the
 * `horizontal` flag fixed at construction. Every change to the list's
 * contents or settings re-runs `update()`, which may throw.
 */
module Lists {

  import opened Wrappers
  import opened JavaInt
  import opened Geometry
  import opened Tiles
  import opened Reductions
  import opened Nodes
  import opened ChildList
  import opened ChildPasses
  import opened Engine
  import opened EngineFacts
  import opened ChildLoops
  import opened ListShares
  import opened Layouts
  import H = HorizontalListSpec
  import V = VerticalListSpec

  /** The tree kind of a list with the given orientation and spacing. */
  function ListKind(horizontal: bool, spacing: int): Kind
  {
    if horizontal then HorizontalKind(spacing) else VerticalKind(spacing)
  }

  class ListLayout {
    const tile: Tile
    var children: seq<Node>
    var padding: int
    var spacing: int
    const horizontal: bool

    function Contents(): Box
      reads this, tile
    {
      Box(tile.Value(), children)
    }

    function AsNode(): Node
      reads this, tile
    {
      Container(tile.Value(), ListKind(horizontal, spacing), padding, children)
    }

    /** The field initialisation of the list constructor, before its `update()`. */
    constructor Init(children: seq<Node>, horizontal: bool)
      ensures fresh(tile) && this.horizontal == horizontal
      ensures tile.Value() == LayoutDefaults && this.children == children && padding == 0 && spacing == 0
    {
      tile := new Tile();
      this.horizontal := horizontal;
      this.children := children;
      padding, spacing := 0, 0;
      new;
      var self := tile.SetFills(FillParent, FillParent);
      self := tile.SetVisible(false);
      self := tile.SetDepth(1);
    }

    /** `new HorizontalList(scene, children...)`: initialise, then update. */
    static method HorizontalList(children: seq<Node>) returns (l: ListLayout, thrown: Option<Failure>)
      ensures fresh(l) && fresh(l.tile) && l.horizontal
      ensures Run(l.AsNode(), thrown) == Engine.Update(Container(LayoutDefaults, HorizontalKind(0), 0, children))
    {
      l := new ListLayout.Init(children, true);
      thrown := l.Update();
    }

    /** `new VerticalList(scene, children...)`: initialise, then update. */
    static method VerticalList(children: seq<Node>) returns (l: ListLayout, thrown: Option<Failure>)
      ensures fresh(l) && fresh(l.tile) && !l.horizontal
      ensures Run(l.AsNode(), thrown) == Engine.Update(Container(LayoutDefaults, VerticalKind(0), 0, children))
    {
      l := new ListLayout.Init(children, false);
      thrown := l.Update();
    }

    /** `addTile(tile)`: append, then update. */
    method AddTile(t: Node) returns (thrown: Option<Failure>)
      modifies this, tile
      ensures Run(AsNode(), thrown) == Engine.Update(Container(old(tile.Value()), ListKind(horizontal, old(spacing)), old(padding), old(children) + [t]))
    {
      children := children + [t];
      thrown := Update();
    }

    /** `addTile(tile, index)`: the insertion throws for an index outside the list; otherwise update. */
    method AddTileAt(t: Node, index: int) returns (thrown: Option<Failure>)
      modifies this, tile
      ensures 0 <= index <= |old(children)| ==>
        Run(AsNode(), thrown) == Engine.Update(Container(old(tile.Value()), ListKind(horizontal, old(spacing)), old(padding), InsertAt(old(children), index, t)))
      ensures !(0 <= index <= |old(children)|) ==>
        thrown == Some(IndexOutOfBounds) && AsNode() == old(AsNode())
    {
      if 0 <= index <= |children| {
        children := InsertAt(children, index, t);
        thrown := Update();
      } else {
        thrown := Some(IndexOutOfBounds);
      }
    }

    /** `removeTile(tile)`: drop the first occurrence, then update. */
    method RemoveTile(t: Node) returns (thrown: Option<Failure>)
      modifies this, tile
      ensures Run(AsNode(), thrown) == Engine.Update(Container(old(tile.Value()), ListKind(horizontal, old(spacing)), old(padding), RemoveFirst(old(children), t)))
    {
      children := RemoveFirst(children, t);
      thrown := Update();
    }

    method GetChildren() returns (cs: seq<Node>)
      ensures cs == children
    {
      cs := children;
    }

    /** `setPadding(padding)`: store, then update. */
    method SetPadding(padding: int) returns (thrown: Option<Failure>)
      modifies this, tile
      ensures Run(AsNode(), thrown) == Engine.Update(Container(old(tile.Value()), ListKind(horizontal, old(spacing)), padding, old(children)))
    {
      this.padding := padding;
      thrown := Update();
    }

    /** `setSpacing(spacing)`: store, then update. */
    method SetSpacing(spacing: int) returns (thrown: Option<Failure>)
      modifies this, tile
      ensures Run(AsNode(), thrown) == Engine.Update(Container(old(tile.Value()), ListKind(horizontal, spacing), old(padding), old(children)))
    {
      this.spacing := spacing;
      thrown := Update();
    }

    /**
     * `update()`: width, height, x, y for a horizontal list; height, width,
     * y, x for a vertical one.
     */
    method Update() returns (thrown: Option<Failure>)
      modifies this, tile
      ensures Run(AsNode(), thrown) == Engine.Update(old(AsNode()))
    {
      UnfoldUpdate(AsNode());
      if horizontal {
        thrown := UpdateRowWidth();
        if thrown.Some? { return; }
        thrown := UpdateRowHeight();
        if thrown.Some? { return; }
        thrown := UpdateRowX();
        if thrown.Some? { return; }
        UpdateRowY();
      } else {
        thrown := UpdateColumnHeight();
        if thrown.Some? { return; }
        thrown := UpdateColumnWidth();
        if thrown.Some? { return; }
        thrown := UpdateColumnY();
        if thrown.Some? { return; }
        UpdateColumnX();
      }
    }

    /** `HorizontalList.updateWidth`: wrap to the row of updated children, or share the width out. */
    method UpdateRowWidth() returns (thrown: Option<Failure>)
      requires horizontal
      modifies this, tile
      ensures padding == old(padding) && spacing == old(spacing)
      ensures Run(Contents(), thrown) == HorizontalWidth(old(Contents()), padding, spacing)
    {
      var r, t := RowOrShare(Contents(), padding, spacing);
      children := r.children;
      var self := tile.SetWidth(r.own.width);
      thrown := t;
    }

    /** `HorizontalList.updateHeight`: wrap to the tallest updated child, or fill. */
    method UpdateRowHeight() returns (thrown: Option<Failure>)
      requires horizontal
      modifies this, tile
      ensures padding == old(padding) && spacing == old(spacing)
      ensures Run(Contents(), thrown) == CrossHeight(old(Contents()), padding)
    {
      var r, t := TallestOrFill(Contents(), padding);
      children := r.children;
      var self := tile.SetHeight(r.own.height);
      thrown := t;
    }

    /**
     * `HorizontalList.updateX`: the cursor pass; the slack per cell divides
     * by the number of children when none fills.
     */
    method UpdateRowX() returns (thrown: Option<Failure>)
      requires horizontal
      modifies this
      ensures padding == old(padding) && spacing == old(spacing)
      ensures Run(Contents(), thrown) == H.XPass(old(Contents()), padding, spacing)
    {
      var excess := 0;
      if !H.AnyFillsWidth(children) {
        if |children| == 0 {
          thrown := Some(DivisionByZero);
          return;
        }
        excess := JDiv(tile.width - Sum(H.FixedWidths(children)) - Gaps(|children|, spacing, padding), |children|);
      }
      children := PlaceEachX(Contents(), padding, spacing, excess);
      thrown := None;
    }

    /** `HorizontalList.updateY`: every child placed by its row. */
    method UpdateRowY()
      requires horizontal
      modifies this
      ensures padding == old(padding) && spacing == old(spacing)
      ensures Contents() == H.YPass(old(Contents()), padding)
    {
      children := InsetEachY(children, tile.Value(), padding);
    }

    /** `VerticalList.updateHeight`: wrap to the column of updated children, or share the height out. */
    method UpdateColumnHeight() returns (thrown: Option<Failure>)
      requires !horizontal
      modifies this, tile
      ensures padding == old(padding) && spacing == old(spacing)
      ensures Run(Contents(), thrown) == VerticalHeight(old(Contents()), padding, spacing)
    {
      var r, t := ColumnOrShare(Contents(), padding, spacing);
      children := r.children;
      var self := tile.SetHeight(r.own.height);
      thrown := t;
    }

    /** `VerticalList.updateWidth`: wrap to the widest updated child, or fill. */
    method UpdateColumnWidth() returns (thrown: Option<Failure>)
      requires !horizontal
      modifies this, tile
      ensures padding == old(padding) && spacing == old(spacing)
      ensures Run(Contents(), thrown) == FrameWidth(old(Contents()), padding)
    {
      var r, t := WidestOrFill(Contents(), padding);
      children := r.children;
      var self := tile.SetWidth(r.own.width);
      thrown := t;
    }

    /** `VerticalList.updateY`: the cursor pass, from the top down. */
    method UpdateColumnY() returns (thrown: Option<Failure>)
      requires !horizontal
      modifies this
      ensures padding == old(padding) && spacing == old(spacing)
      ensures Run(Contents(), thrown) == V.YPass(old(Contents()), padding, spacing)
    {
      var excess := 0;
      if !V.AnyFillsHeight(children) {
        if |children| == 0 {
          thrown := Some(DivisionByZero);
          return;
        }
        excess := JDiv(tile.height - Sum(V.FixedHeights(children)) - Gaps(|children|, spacing, padding), |children|);
      }
      children := PlaceEachY(Contents(), padding, spacing, excess);
      thrown := None;
    }

    /** `VerticalList.updateX`: every child placed by its column. */
    method UpdateColumnX()
      requires !horizontal
      modifies this
      ensures padding == old(padding) && spacing == old(spacing)
      ensures Contents() == V.XPass(old(Contents()), padding)
    {
      children := InsetEachX(children, tile.Value(), padding);
    }
  }
}
