/**
 * `Button`: a frame that watches the cursor. Moving onto or off the button
 * raises an enter or a leave event; a mouse button pressed while the
 * cursor is over it raises a click event, a left-click when it is the left
 * button being pressed. Events carry the cursor position relative to the
 * button's centre. Raised events are kept, in order, in a log.
 */
module Buttons {

  import opened Wrappers
  import opened Geometry
  import opened Tiles
  import opened Gradients
  import opened Nodes
  import opened Engine
  import opened Layouts

  /** The window library's code for the left mouse button. */
  const MouseButtonLeft := 0

  /** The window library's code for a press. */
  const Press := 1

  datatype ButtonEvent =
    | MouseEnter(relX: int, relY: int)
    | MouseLeave(relX: int, relY: int)
    | Click(relX: int, relY: int, button: int, action: int)
    | LeftClick(relX: int, relY: int)
  {
    predicate IsClick() { Click? || LeftClick? }

    /** The mouse button a click reports; a left-click reports the left button. */
    function ButtonCode(): int
      requires IsClick()
    {
      if LeftClick? then MouseButtonLeft else button
    }

    /** The action a click reports; a left-click reports a press. */
    function ActionCode(): int
      requires IsClick()
    {
      if LeftClick? then Press else action
    }
  }

  /** Whether the cursor lies on the tile, edges included. */
  predicate Over(rec: TileRec, mx: int, my: int)
  {
    mx >= rec.MinX() && mx <= rec.MaxX() && my >= rec.MinY() && my <= rec.MaxY()
  }

  /**
   * The events one cursor position raises: an enter when the cursor comes
   * onto the tile, a leave when it goes off, nothing when it stays.
   */
  function CursorEvents(wasOver: bool, rec: TileRec, mx: int, my: int): (r: seq<ButtonEvent>)
    ensures |r| <= 1
    ensures r != [] <==> wasOver != Over(rec, mx, my)
    ensures r != [] ==> (r[0].MouseEnter? <==> !wasOver) && !r[0].IsClick()
    ensures r != [] ==> r[0].relX == mx - rec.x && r[0].relY == my - rec.y
  {
    var still := Over(rec, mx, my);
    if !wasOver && still then [MouseEnter(mx - rec.x, my - rec.y)]
    else if wasOver && !still then [MouseLeave(mx - rec.x, my - rec.y)]
    else []
  }

  /**
   * The events one mouse-button action raises: a click, reporting the
   * button and the action, only while the cursor is over the tile.
   */
  function ClickEvents(over: bool, rec: TileRec, mx: int, my: int, button: int, action: int): (r: seq<ButtonEvent>)
    ensures |r| <= 1
    ensures r != [] <==> over
    ensures r != [] ==> r[0].IsClick() && r[0].ButtonCode() == button && r[0].ActionCode() == action
    ensures r != [] ==> r[0].relX == mx - rec.x && r[0].relY == my - rec.y
    ensures r != [] ==> (r[0].LeftClick? <==> button == MouseButtonLeft && action == Press)
  {
    if !over then []
    else if button == MouseButtonLeft && action == Press then [LeftClick(mx - rec.x, my - rec.y)]
    else [Click(mx - rec.x, my - rec.y, button, action)]
  }

  /** A second report of the same cursor position raises nothing. */
  lemma CursorIdempotent(rec: TileRec, mx: int, my: int)
    ensures CursorEvents(Over(rec, mx, my), rec, mx, my) == []
  {
  }

  /** A tile of non-negative size contains its centre and its four corners. */
  lemma CentreAndCornersOver(rec: TileRec)
    requires rec.width >= 0 && rec.height >= 0
    ensures Over(rec, rec.x, rec.y)
    ensures Over(rec, rec.MinX(), rec.MinY()) && Over(rec, rec.MaxX(), rec.MaxY())
    ensures Over(rec, rec.MinX(), rec.MaxY()) && Over(rec, rec.MaxX(), rec.MinY())
  {
    TileEdges(rec);
  }

  /** Whether the cursor is over the tile after the moves `ps`. */
  function OverAfter(wasOver: bool, rec: TileRec, ps: seq<(int, int)>): bool
  {
    if ps == [] then wasOver
    else Over(rec, ps[|ps| - 1].0, ps[|ps| - 1].1)
  }

  /** The events the cursor moves `ps` raise, one move after another. */
  function MoveEvents(wasOver: bool, rec: TileRec, ps: seq<(int, int)>): seq<ButtonEvent>
  {
    if ps == [] then []
    else
      var n := |ps| - 1;
      MoveEvents(wasOver, rec, ps[..n]) + CursorEvents(OverAfter(wasOver, rec, ps[..n]), rec, ps[n].0, ps[n].1)
  }

  /**
   * Over any sequence of moves, enters and leaves alternate, beginning with
   * an enter exactly when the cursor started off the tile; after an even
   * number of events the cursor is where it started, after an odd number it
   * is on the other side.
   */
  lemma {:induction false} EnterLeaveAlternate(wasOver: bool, rec: TileRec, ps: seq<(int, int)>)
    ensures var es := MoveEvents(wasOver, rec, ps);
      forall i :: 0 <= i < |es| ==> !es[i].IsClick() && (es[i].MouseEnter? <==> (wasOver == (i % 2 == 1)))
    ensures OverAfter(wasOver, rec, ps) == (wasOver == (|MoveEvents(wasOver, rec, ps)| % 2 == 0))
  {
    if ps != [] {
      var n := |ps| - 1;
      EnterLeaveAlternate(wasOver, rec, ps[..n]);
      var front := MoveEvents(wasOver, rec, ps[..n]);
      var before := OverAfter(wasOver, rec, ps[..n]);
      var step := CursorEvents(before, rec, ps[n].0, ps[n].1);
      var es := front + step;
      assert es == MoveEvents(wasOver, rec, ps);
      forall i | 0 <= i < |es|
        ensures !es[i].IsClick() && (es[i].MouseEnter? <==> (wasOver == (i % 2 == 1)))
      {
        if i >= |front| {
          assert i == |front| && es[i] == step[0];
        } else {
          assert es[i] == front[i];
        }
      }
    }
  }

  class Button {
    const frame: Layout
    var mouseOver: bool
    var events: seq<ButtonEvent>

    /** The button is a frame. */
    ghost predicate Valid()
    {
      frame.isFrame
    }

    /** `new Button(input)`: an empty frame, the cursor not over it. */
    constructor ()
      ensures Valid() && fresh(frame) && fresh(frame.tile)
      ensures frame.AsNode() == Container(FrameDefaults, FrameKind, 0, [])
      ensures !mouseOver && events == []
    {
      frame := new Layout.Frame([]);
      mouseOver := false;
      events := [];
    }

    /** `new Button(input, x, y, width, height)`: the same, moved and sized. */
    constructor Placed(x: int, y: int, width: int, height: int)
      ensures Valid() && fresh(frame) && fresh(frame.tile)
      ensures frame.AsNode() == Container(FrameDefaults.(x := x, y := y, width := width, height := height), FrameKind, 0, [])
      ensures !mouseOver && events == []
    {
      frame := new Layout.Frame([]);
      mouseOver := false;
      events := [];
      new;
      var self := frame.tile.SetPosition(x, y);
      self := frame.tile.SetSize(width, height);
    }

    /** The cursor is at (mx, my): raise an enter or a leave, then record where it is. */
    method UpdateCursor(mx: int, my: int)
      modifies this
      ensures mouseOver == Over(frame.tile.Value(), mx, my)
      ensures events == old(events) + CursorEvents(old(mouseOver), frame.tile.Value(), mx, my)
    {
      var still := mx >= frame.tile.Value().MinX() && mx <= frame.tile.Value().MaxX()
        && my >= frame.tile.Value().MinY() && my <= frame.tile.Value().MaxY();
      if !mouseOver && still {
        events := events + [MouseEnter(mx - frame.tile.x, my - frame.tile.y)];
      } else if mouseOver && !still {
        events := events + [MouseLeave(mx - frame.tile.x, my - frame.tile.y)];
      }
      mouseOver := still;
    }

    /** The mouse-button handler: a click only while the cursor is over the button. */
    method OnMouseButton(mx: int, my: int, button: int, action: int)
      modifies this
      ensures mouseOver == old(mouseOver)
      ensures events == old(events) + ClickEvents(mouseOver, frame.tile.Value(), mx, my, button, action)
    {
      if mouseOver {
        if button == MouseButtonLeft && action == Press {
          events := events + [LeftClick(mx - frame.tile.x, my - frame.tile.y)];
        } else {
          events := events + [Click(mx - frame.tile.x, my - frame.tile.y, button, action)];
        }
      }
    }

    /**
     * `update()`: the cursor check against the button's current place, then
     * the frame's update.
     */
    method Update(mx: int, my: int) returns (thrown: Option<Failure>)
      modifies this, frame, frame.tile
      ensures mouseOver == Over(old(frame.tile.Value()), mx, my)
      ensures events == old(events) + CursorEvents(old(mouseOver), old(frame.tile.Value()), mx, my)
      ensures Run(frame.AsNode(), thrown) == Engine.Update(old(frame.AsNode()))
    {
      UpdateCursor(mx, my);
      thrown := frame.Update();
    }

    /** The frame's colour, darkened by 15 while the cursor is over the button. */
    method GetColour() returns (g: Gradient)
      requires |frame.tile.colour.corners| >= 4
      ensures mouseOver ==> g == Darken(frame.tile.colour, 15)
      ensures !mouseOver ==> g.corners == frame.tile.colour.corners[..4]
    {
      g := Darken(frame.tile.colour, if mouseOver then 15 else 0);
      if !mouseOver {
        DarkenByZero(frame.tile.colour);
      }
    }
  }
}
