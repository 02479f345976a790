/**
 * `FrameLayout`: the older frame, which extends the plain tile directly.
 * It sizes itself to the bounding box of its children without updating
 * them, and places them with the explicit inset formula.
 */
module FrameLayouts {

  import opened Wrappers
  import opened Geometry
  import opened Tiles
  import opened Reductions
  import opened Nodes
  import opened ChildList
  import opened ChildPasses
  import opened Engine
  import opened EngineFacts
  import opened ChildLoops
  import FL = FrameLayoutSpec

  /** Fill on both axes, invisible, depth 2. */
  const FrameLayoutDefaults: TileRec :=
    DefaultTile.(hFill := FillParent, vFill := FillParent, visible := false, depth := 2)

  class FrameLayout {
    const tile: Tile
    var children: seq<Node>
    var padding: int

    function Contents(): Box
      reads this, tile
    {
      Box(tile.Value(), children)
    }

    function AsNode(): Node
      reads this, tile
    {
      Container(tile.Value(), FrameLayoutKind, padding, children)
    }

    /** The field initialisation of the constructor, before its `update()`. */
    constructor Init(children: seq<Node>)
      ensures fresh(tile)
      ensures tile.Value() == FrameLayoutDefaults && this.children == children && padding == 0
    {
      tile := new Tile();
      this.children := children;
      padding := 0;
      new;
      var self := tile.SetFills(FillParent, FillParent);
      self := tile.SetVisible(false);
      self := tile.SetDepth(2);
    }

    /** `new FrameLayout(scene, children...)`: initialise, then update. */
    static method Create(children: seq<Node>) returns (l: FrameLayout, thrown: Option<Failure>)
      ensures fresh(l) && fresh(l.tile)
      ensures Run(l.AsNode(), thrown) == Engine.Update(Container(FrameLayoutDefaults, FrameLayoutKind, 0, children))
    {
      l := new FrameLayout.Init(children);
      thrown := l.Update();
    }

    /** `addTile(tile)`: append, then update. */
    method AddTile(t: Node) returns (thrown: Option<Failure>)
      modifies this, tile
      ensures Run(AsNode(), thrown)
           == Engine.Update(Container(old(tile.Value()), FrameLayoutKind, old(padding), old(children) + [t]))
    {
      children := children + [t];
      thrown := Update();
    }

    /** `removeTile(tile)`: drop the first occurrence, then update. */
    method RemoveTile(t: Node) returns (thrown: Option<Failure>)
      modifies this, tile
      ensures Run(AsNode(), thrown)
           == Engine.Update(Container(old(tile.Value()), FrameLayoutKind, old(padding), RemoveFirst(old(children), t)))
    {
      children := RemoveFirst(children, t);
      thrown := Update();
    }

    method GetChildren() returns (cs: seq<Node>)
      ensures cs == children
    {
      cs := children;
    }

    /** `setPadding(padding)`: store, then update. */
    method SetPadding(padding: int) returns (thrown: Option<Failure>)
      modifies this, tile
      ensures Run(AsNode(), thrown)
           == Engine.Update(Container(old(tile.Value()), FrameLayoutKind, padding, old(children)))
    {
      this.padding := padding;
      thrown := Update();
    }

    /** `update()`: width, height, then the x and the y of every child. */
    method Update() returns (thrown: Option<Failure>)
      modifies this, tile
      ensures Run(AsNode(), thrown) == Engine.Update(old(AsNode()))
    {
      UnfoldUpdate(AsNode());
      thrown := UpdateWidth();
      if thrown.Some? { return; }
      thrown := UpdateHeight();
      if thrown.Some? { return; }
      ghost var before := Contents();
      UpdateX();
      UpdateY();
      assert Contents() == FL.Place(before, padding);
    }

    /** The wrapping width is the children's x extent; otherwise filling children take the interior. */
    method UpdateWidth() returns (thrown: Option<Failure>)
      modifies this, tile
      ensures padding == old(padding)
      ensures Run(Contents(), thrown) == FL.BoundingWidth(old(Contents()), padding)
    {
      if tile.hFill == WrapContent {
        if children == [] {
          thrown := Some(NoSuchElement);
          return;
        }
        var minX := Min(MinXs(children));
        var maxX := Max(MaxXs(children));
        var self := tile.SetWidth(maxX - minX + 2 * padding);
      } else {
        children := FillEachWidth(children, tile.width - 2 * padding);
      }
      thrown := None;
    }

    /** The vertical counterpart of `UpdateWidth`. */
    method UpdateHeight() returns (thrown: Option<Failure>)
      modifies this, tile
      ensures padding == old(padding)
      ensures Run(Contents(), thrown) == FL.BoundingHeight(old(Contents()), padding)
    {
      if tile.vFill == WrapContent {
        if children == [] {
          thrown := Some(NoSuchElement);
          return;
        }
        var minY := Min(MinYs(children));
        var maxY := Max(MaxYs(children));
        var self := tile.SetHeight(maxY - minY + 2 * padding);
      } else {
        children := FillEachHeight(children, tile.height - 2 * padding);
      }
      thrown := None;
    }

    /** Every child's x from its column, the frame layout's centre and its edges. */
    method UpdateX()
      modifies this
      ensures padding == old(padding)
      ensures children == InsetXs(old(children), tile.Value(), padding)
    {
      children := InsetEachX(children, tile.Value(), padding);
    }

    /** Every child's y from its row, the frame layout's centre and its edges. */
    method UpdateY()
      modifies this
      ensures padding == old(padding)
      ensures children == InsetYs(old(children), tile.Value(), padding)
    {
      children := InsetEachY(children, tile.Value(), padding);
    }
  }
}
