/**
 * The rectangular window element every layout is built from.
 *
 * `TileRec` is the value of a tile's layout-relevant fields; the class
 * `Tile` is the mutable object with chainable setters. Fill modes are kept
 * per axis (horizontal and vertical), as the layouts read them.
 */
module Tiles {

  import opened Geometry
  import opened Gradients

  datatype TileRec = TileRec(
    alignment: Align,
    x: int,
    y: int,
    hFill: Fill,
    vFill: Fill,
    width: int,
    height: int,
    hWeight: int,
    vWeight: int,
    angle: int,
    depth: int,
    visible: bool)
  {
    /** Left edge. */
    function MinX(): int { MinEdge(x, width) }

    /** Right edge. */
    function MaxX(): int { MaxEdge(x, width) }

    /** Bottom edge. */
    function MinY(): int { MinEdge(y, height) }

    /** Top edge. */
    function MaxY(): int { MaxEdge(y, height) }
  }

  /** A new tile: centred at the origin, 100 x 100, absolute size, depth 50. */
  const DefaultTile: TileRec :=
    TileRec(Center, 0, 0, Absolute, Absolute, 100, 100, 1, 1, 0, 50, true)

  /** The edges of a tile that has not moved or grown. */
  lemma DefaultEdges()
    ensures DefaultTile.MinX() == -50 && DefaultTile.MaxX() == 50
    ensures DefaultTile.MinY() == -50 && DefaultTile.MaxY() == 50
  {
  }

  /** Edges follow centre +- half size on both axes, with truncating halves. */
  lemma TileEdges(t: TileRec)
    ensures t.MaxX() - t.MinX() == 2 * Half(t.width)
    ensures t.MaxY() - t.MinY() == 2 * Half(t.height)
    ensures t.MaxX() - t.MinX() == t.width <==> t.width % 2 == 0
    ensures t.MaxY() - t.MinY() == t.height <==> t.height % 2 == 0
    ensures t.width >= 0 ==> t.MinX() <= t.x <= t.MaxX()
    ensures t.height >= 0 ==> t.MinY() <= t.y <= t.MaxY()
  {
    EdgeSpan(t.x, t.width);
    EdgeSpan(t.y, t.height);
    if t.width >= 0 { CentreBetweenEdges(t.x, t.width); }
    if t.height >= 0 { CentreBetweenEdges(t.y, t.height); }
  }

  class Tile {
    var alignment: Align
    var x: int
    var y: int
    var hFill: Fill
    var vFill: Fill
    var width: int
    var height: int
    var hWeight: int
    var vWeight: int
    var angle: int
    var depth: int
    var colour: Gradient
    var visible: bool

    /** The current value of every field except the colour. */
    function Value(): TileRec
      reads this
    {
      TileRec(alignment, x, y, hFill, vFill, width, height, hWeight, vWeight, angle, depth, visible)
    }

    /** A tile with the defaults; its initial colour is not modelled. */
    constructor ()
      ensures Value() == DefaultTile
    {
      alignment, x, y := Center, 0, 0;
      hFill, vFill := Absolute, Absolute;
      width, height := 100, 100;
      hWeight, vWeight := 1, 1;
      angle, depth := 0, 50;
      visible := true;
    }

    /** A tile at a position with a size; everything else has its default. */
    constructor Placed(x: int, y: int, width: int, height: int)
      ensures Value() == DefaultTile.(x := x, y := y, width := width, height := height)
    {
      alignment, this.x, this.y := Center, x, y;
      hFill, vFill := Absolute, Absolute;
      this.width, this.height := width, height;
      hWeight, vWeight := 1, 1;
      angle, depth := 0, 50;
      visible := true;
    }

    method SetAlignment(alignment: Align) returns (self: Tile)
      modifies this
      ensures self == this
      ensures Value() == old(Value()).(alignment := alignment) && colour == old(colour)
    {
      this.alignment := alignment;
      self := this;
    }

    method SetX(x: int) returns (self: Tile)
      modifies this
      ensures self == this
      ensures Value() == old(Value()).(x := x) && colour == old(colour)
    {
      this.x := x;
      self := this;
    }

    method SetY(y: int) returns (self: Tile)
      modifies this
      ensures self == this
      ensures Value() == old(Value()).(y := y) && colour == old(colour)
    {
      this.y := y;
      self := this;
    }

    method SetPosition(x: int, y: int) returns (self: Tile)
      modifies this
      ensures self == this
      ensures Value() == old(Value()).(x := x, y := y) && colour == old(colour)
    {
      this.x, this.y := x, y;
      self := this;
    }

    /** One fill mode for both axes. */
    method SetFill(fill: Fill) returns (self: Tile)
      modifies this
      ensures self == this
      ensures Value() == old(Value()).(hFill := fill, vFill := fill) && colour == old(colour)
    {
      hFill, vFill := fill, fill;
      self := this;
    }

    /** Separate fill modes for the two axes. */
    method SetFills(hFill: Fill, vFill: Fill) returns (self: Tile)
      modifies this
      ensures self == this
      ensures Value() == old(Value()).(hFill := hFill, vFill := vFill) && colour == old(colour)
    {
      this.hFill, this.vFill := hFill, vFill;
      self := this;
    }

    method SetWidth(width: int) returns (self: Tile)
      modifies this
      ensures self == this
      ensures Value() == old(Value()).(width := width) && colour == old(colour)
    {
      this.width := width;
      self := this;
    }

    method SetHeight(height: int) returns (self: Tile)
      modifies this
      ensures self == this
      ensures Value() == old(Value()).(height := height) && colour == old(colour)
    {
      this.height := height;
      self := this;
    }

    method SetSize(width: int, height: int) returns (self: Tile)
      modifies this
      ensures self == this
      ensures Value() == old(Value()).(width := width, height := height) && colour == old(colour)
    {
      this.width, this.height := width, height;
      self := this;
    }

    method SetHWeight(hWeight: int) returns (self: Tile)
      modifies this
      ensures self == this
      ensures Value() == old(Value()).(hWeight := hWeight) && colour == old(colour)
    {
      this.hWeight := hWeight;
      self := this;
    }

    method SetVWeight(vWeight: int) returns (self: Tile)
      modifies this
      ensures self == this
      ensures Value() == old(Value()).(vWeight := vWeight) && colour == old(colour)
    {
      this.vWeight := vWeight;
      self := this;
    }

    method SetWeights(hWeight: int, vWeight: int) returns (self: Tile)
      modifies this
      ensures self == this
      ensures Value() == old(Value()).(hWeight := hWeight, vWeight := vWeight) && colour == old(colour)
    {
      this.hWeight, this.vWeight := hWeight, vWeight;
      self := this;
    }

    method SetAngle(angle: int) returns (self: Tile)
      modifies this
      ensures self == this
      ensures Value() == old(Value()).(angle := angle) && colour == old(colour)
    {
      this.angle := angle;
      self := this;
    }

    method SetDepth(depth: int) returns (self: Tile)
      modifies this
      ensures self == this
      ensures Value() == old(Value()).(depth := depth) && colour == old(colour)
    {
      this.depth := depth;
      self := this;
    }

    method SetColour(colour: Gradient) returns (self: Tile)
      modifies this
      ensures self == this
      ensures Value() == old(Value()) && this.colour == colour
    {
      this.colour := colour;
      self := this;
    }

    method SetVisible(visible: bool) returns (self: Tile)
      modifies this
      ensures self == this
      ensures Value() == old(Value()).(visible := visible) && colour == old(colour)
    {
      this.visible := visible;
      self := this;
    }

    /**
     * A plain tile's `update()` is a no-op: with no `modifies` clause the
     * method can change nothing, which is the whole promise; the ensures
     * spells out that the value and colour stay as they were.
     */
    method Update()
      ensures Value() == old(Value()) && colour == old(colour)
    {
    }
  }
}
