/**
 * `Scene2D`: a root layout whose first child is the window-sized
 * background frame, and the depth-ordered collection of every tile the
 * root reaches, rebuilt on each update.
 */
module Scenes {

  import opened Wrappers
  import opened Tiles
  import opened Nodes
  import opened DepthOrder
  import opened Ancestry
  import opened Engine
  import opened Layouts

  /** The background: an empty, visible frame at depth 0. */
  const Background: Node := Container(FrameDefaults.(depth := 0, visible := true), FrameKind, 0, [])

  /**
   * The children with the first one given the window's size: that is where
   * the scene's constructor puts the background.
   */
  function Resized(cs: seq<Node>, width: int, height: int): seq<Node>
  {
    if cs == [] then cs
    else cs[0 := cs[0].(rec := cs[0].rec.(width := width, height := height))]
  }

  /** What the scene draws for a root with these children, back to front. */
  function DrawOrder(cs: seq<Node>): seq<Node>
  {
    SortBy(Ancestors(cs), Depth)
  }

  /**
   * The draw order holds exactly the tiles the root reaches, deepest last,
   * keeps tiles of equal depth in their tree order, and leaves out the
   * root itself.
   */
  lemma DrawOrderFacts(root: Node)
    requires root.Container?
    ensures SortedBy(DrawOrder(root.children), Depth)
    ensures multiset(DrawOrder(root.children)) == multiset(Ancestors(root.children))
    ensures forall k :: WithKey(DrawOrder(root.children), k, Depth) == WithKey(Ancestors(root.children), k, Depth)
    ensures root !in DrawOrder(root.children)
  {
    var all := Ancestors(root.children);
    SortBySorted(all, Depth);
    SortByMultiset(all, Depth);
    forall k
      ensures WithKey(SortBy(all, Depth), k, Depth) == WithKey(all, k, Depth)
    {
      SortByWithKey(all, k, Depth);
    }
    RootNotAncestor(root);
    assert root !in multiset(all);
  }

  /** Every child of the root and everything inside a nested layout is drawn. */
  lemma ReachedTilesDrawn(cs: seq<Node>, x: Node)
    requires x in cs || exists i :: 0 <= i < |cs| && IsLayout(cs[i]) && x in Ancestors(cs[i].children)
    ensures x in DrawOrder(cs)
  {
    AncestorMember(cs, x);
    SortByMultiset(Ancestors(cs), Depth);
    assert x in multiset(Ancestors(cs));
  }

  /** `tiles.addAll(...)` on an empty set: each tile inserted by depth in turn. */
  method AddAll(all: seq<Node>) returns (tiles: seq<Node>)
    ensures tiles == SortBy(all, Depth)
  {
    tiles := [];
    for i := 0 to |all|
      invariant tiles == SortBy(all[..i], Depth)
    {
      assert all[..i + 1][..i] == all[..i];
      tiles := InsertBy(tiles, all[i], Depth);
    }
    assert all[..|all|] == all;
  }

  class Scene {
    const root: Layout
    var tiles: seq<Node>

    /** The root is a plain layout. */
    ghost predicate Valid()
    {
      !root.isFrame
    }

    /** The scene's fields: the background wrapped in a new root layout, no tiles yet. */
    constructor ()
      ensures Valid() && fresh(root) && fresh(root.tile)
      ensures root.AsNode() == Container(LayoutDefaults, LayoutKind, 0, [Background])
      ensures tiles == []
    {
      root := new Layout([Background]);
      tiles := [];
    }

    /**
     * `init(width, height, handler)`: refused without an input handler;
     * otherwise the background takes the window's size and the scene updates.
     */
    method Init(width: int, height: int, isInputHandler: bool) returns (thrown: Option<Failure>)
      requires Valid()
      modifies this, root, root.tile
      ensures !isInputHandler ==>
        thrown == Some(IllegalState) && tiles == old(tiles) && root.AsNode() == old(root.AsNode())
      ensures isInputHandler ==>
        Run(root.AsNode(), thrown) == Engine.Update(Container(old(root.tile.Value()), LayoutKind, old(root.padding), Resized(old(root.children), width, height)))
      ensures isInputHandler && thrown.None? ==> tiles == DrawOrder(root.children)
      ensures isInputHandler && thrown.Some? ==> tiles == []
    {
      if !isInputHandler {
        thrown := Some(IllegalState);
        return;
      }
      thrown := Resize(width, height);
    }

    /** The window-resize handler: resize the background, then update. */
    method Resize(width: int, height: int) returns (thrown: Option<Failure>)
      requires Valid()
      modifies this, root, root.tile
      ensures Run(root.AsNode(), thrown) ==
        Engine.Update(Container(old(root.tile.Value()), LayoutKind, old(root.padding), Resized(old(root.children), width, height)))
      ensures thrown.None? ==> tiles == DrawOrder(root.children)
      ensures thrown.Some? ==> tiles == []
    {
      root.children := Resized(root.children, width, height);
      thrown := Update();
    }

    /**
     * `update()`: clear the tiles, update the root, then add every tile it
     * reaches to the depth-ordered set. An exception from the root leaves
     * the set empty.
     */
    method Update() returns (thrown: Option<Failure>)
      modifies this, root, root.tile
      ensures Run(root.AsNode(), thrown) == Engine.Update(old(root.AsNode()))
      ensures thrown.None? ==> tiles == DrawOrder(root.children)
      ensures thrown.Some? ==> tiles == []
    {
      tiles := [];
      thrown := root.Update();
      if thrown.Some? {
        return;
      }
      tiles := AddAll(Ancestors(root.children));
    }
  }
}
