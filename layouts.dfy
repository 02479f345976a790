/**
 * `Layout` and its subclass `Frame`: a tile holding an ordered list of
 * children and a padding. A plain layout updates its children in order; a
 * frame sizes itself or its filling children and aligns every child inside
 * its padded interior. The subclass is the `isFrame` flag, fixed at
 * construction.
 */
module Layouts {

  import opened Wrappers
  import opened Geometry
  import opened Tiles
  import opened Reductions
  import opened Nodes
  import opened ChildList
  import opened ChildPasses
  import opened Engine
  import opened EngineFacts
  import opened ChildLoops

  /** A new layout: filling its parent on both axes, invisible, at depth 1. */
  const LayoutDefaults: TileRec := DefaultTile.(hFill := FillParent, vFill := FillParent, visible := false, depth := 1)

  /** A new frame: a layout made visible at depth 2. */
  const FrameDefaults: TileRec := LayoutDefaults.(visible := true, depth := 2)

  class Layout {
    const tile: Tile
    var children: seq<Node>
    var padding: int
    const isFrame: bool

    function Contents(): Box
      reads this, tile
    {
      Box(tile.Value(), children)
    }

    /** This layout as a node of the tile tree. */
    function AsNode(): Node
      reads this, tile
    {
      Container(tile.Value(), if isFrame then FrameKind else LayoutKind, padding, children)
    }

    /** `new Layout(children...)`. */
    constructor (children: seq<Node>)
      ensures fresh(tile) && !isFrame
      ensures tile.Value() == LayoutDefaults && this.children == children && padding == 0
    {
      tile := new Tile();
      isFrame := false;
      this.children := [];
      padding := 0;
      new;
      for i := 0 to |children|
        invariant this.children == children[..i] && padding == 0
        invariant tile.Value() == DefaultTile
      {
        AddTile(children[i]);
        assert children[..i + 1] == children[..i] + [children[i]];
      }
      assert children[..|children|] == children;
      var self := tile.SetFills(FillParent, FillParent);
      self := tile.SetVisible(false);
      self := tile.SetDepth(1);
    }

    /** `new Frame(children...)`: the layout constructor, then visible at depth 2. */
    constructor Frame(children: seq<Node>)
      ensures fresh(tile) && isFrame
      ensures tile.Value() == FrameDefaults && this.children == children && padding == 0
    {
      tile := new Tile();
      isFrame := true;
      this.children := [];
      padding := 0;
      new;
      for i := 0 to |children|
        invariant this.children == children[..i] && padding == 0
        invariant tile.Value() == DefaultTile
      {
        AddTile(children[i]);
        assert children[..i + 1] == children[..i] + [children[i]];
      }
      assert children[..|children|] == children;
      var self := tile.SetFills(FillParent, FillParent);
      self := tile.SetVisible(false);
      self := tile.SetDepth(1);
      self := tile.SetVisible(true);
      self := tile.SetDepth(2);
    }

    /** `addTile(tile)`: append. */
    method AddTile(t: Node)
      modifies this
      ensures children == old(children) + [t] && padding == old(padding)
    {
      children := children + [t];
    }

    /** `addTile(tile, index)`: insert at an index, which must lie within the list. */
    method AddTileAt(t: Node, index: int) returns (thrown: Option<Failure>)
      modifies this
      ensures padding == old(padding)
      ensures 0 <= index <= |old(children)| ==> thrown == None && children == InsertAt(old(children), index, t)
      ensures !(0 <= index <= |old(children)|) ==> thrown == Some(IndexOutOfBounds) && children == old(children)
    {
      if 0 <= index <= |children| {
        children := InsertAt(children, index, t);
        thrown := None;
      } else {
        thrown := Some(IndexOutOfBounds);
      }
    }

    /** `removeTile(tile)`: drop the first occurrence, if any. */
    method RemoveTile(t: Node)
      modifies this
      ensures children == RemoveFirst(old(children), t) && padding == old(padding)
    {
      children := RemoveFirst(children, t);
    }

    /** `getChildren()`: the children, in order (the Java list is a read-only view). */
    method GetChildren() returns (cs: seq<Node>)
      ensures cs == children
    {
      cs := children;
    }

    method SetPadding(padding: int)
      modifies this
      ensures this.padding == padding && children == old(children)
    {
      this.padding := padding;
    }

    /** `update()`: the layout's or the frame's passes, as the tree update computes them. */
    method Update() returns (thrown: Option<Failure>)
      modifies this, tile
      ensures Run(AsNode(), thrown) == Engine.Update(old(AsNode()))
    {
      UnfoldUpdate(AsNode());
      if !isFrame {
        var r, t := UpdateEach(children);
        children := r;
        thrown := t;
      } else {
        thrown := UpdateWidth();
        if thrown.Some? {
          return;
        }
        thrown := UpdateHeight();
        if thrown.Some? {
          return;
        }
        UpdatePosition();
      }
    }

    /** The frame's width pass. */
    method UpdateWidth() returns (thrown: Option<Failure>)
      requires isFrame
      modifies this, tile
      ensures padding == old(padding)
      ensures Run(Contents(), thrown) == FrameWidth(old(Contents()), padding)
    {
      var r, t := WidestOrFill(Contents(), padding);
      children := r.children;
      var self := tile.SetWidth(r.own.width);
      thrown := t;
    }

    /** The frame's height pass; the children are not updated here. */
    method UpdateHeight() returns (thrown: Option<Failure>)
      requires isFrame
      modifies this, tile
      ensures padding == old(padding)
      ensures Run(Contents(), thrown) == FrameHeight(old(Contents()), padding)
    {
      if tile.vFill == WrapContent {
        if children == [] {
          thrown := Some(NoSuchElement);
          return;
        }
        var self := tile.SetHeight(Max(Heights(children)) + 2 * padding);
        thrown := None;
      } else {
        children := FillEachHeight(children, tile.height - 2 * padding);
        thrown := None;
      }
    }

    /** The frame's position pass. */
    method UpdatePosition()
      requires isFrame
      modifies this
      ensures padding == old(padding)
      ensures Contents() == FramePosition(old(Contents()), padding).value
    {
      children := AlignEach(Contents(), padding);
    }
  }
}
