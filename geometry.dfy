/**
 * The shared layout vocabulary: fill modes, the nine alignments, tile edges
 * and the alignment rules that place a child inside a band of its parent.
 *
 * Positions are tile centres; the edge of a tile lies half its size away,
 * with the half computed by Java's truncating division.
 */
module Geometry {

  import opened JavaInt

  /** How a tile's size along one axis is determined. */
  datatype Fill = Absolute | FillParent | WrapContent

  /** Where a tile sits inside the band its container gives it. */
  datatype Align =
    | BottomLeft | Bottom | BottomRight
    | Left | Center | Right
    | TopLeft | Top | TopRight

  /** The horizontal component of an alignment. */
  datatype Column = LeftColumn | MiddleColumn | RightColumn

  /** The vertical component of an alignment. */
  datatype Row = BottomRow | MiddleRow | TopRow

  function ColumnOf(a: Align): Column
  {
    match a
    case BottomLeft | Left | TopLeft => LeftColumn
    case Bottom | Center | Top => MiddleColumn
    case BottomRight | Right | TopRight => RightColumn
  }

  function RowOf(a: Align): Row
  {
    match a
    case BottomLeft | Bottom | BottomRight => BottomRow
    case Left | Center | Right => MiddleRow
    case TopLeft | Top | TopRight => TopRow
  }

  /** An alignment is exactly a column together with a row. */
  lemma AlignmentIsColumnAndRow(a: Align, b: Align)
    ensures a == b <==> (ColumnOf(a) == ColumnOf(b) && RowOf(a) == RowOf(b))
  {
  }

  /** Half of a size, rounded toward zero as Java does. */
  function Half(size: int): int
  {
    JDiv(size, 2)
  }

  /** The low edge (left or bottom) of a tile with this centre and size. */
  function MinEdge(centre: int, size: int): int
  {
    centre - Half(size)
  }

  /** The high edge (right or top) of a tile with this centre and size. */
  function MaxEdge(centre: int, size: int): int
  {
    centre + Half(size)
  }

  /**
   * The distance between the two edges is twice the truncated half: the
   * full size when it is even, one less when a positive size is odd.
   */
  lemma EdgeSpan(centre: int, size: int)
    ensures MaxEdge(centre, size) - MinEdge(centre, size) == 2 * Half(size)
    ensures MaxEdge(centre, size) - MinEdge(centre, size) == size <==> size % 2 == 0
    ensures size > 0 && size % 2 == 1 ==> MaxEdge(centre, size) - MinEdge(centre, size) == size - 1
  {
    var h := Half(size);
    assert Abs(size - 2 * h) < 2;
    if size % 2 == 0 {
      var k := size / 2;
      assert size == k * 2;
      JDivExact(k, 2);
    }
  }

  /** A tile of non-negative size contains its own centre. */
  lemma CentreBetweenEdges(centre: int, size: int)
    requires size >= 0
    ensures MinEdge(centre, size) <= centre <= MaxEdge(centre, size)
  {
    JDivNonNegative(size, 2);
  }

  /**
   * The centre x of a child of width `size` aligned within [lo, hi]
   * (the horizontal alignment rule of a layout).
   */
  function AlignH(a: Align, size: int, lo: int, hi: int): (x: int)
    // left-aligned: the child's left edge is on the band's left edge
    ensures ColumnOf(a) == LeftColumn ==> MinEdge(x, size) == lo
    // right-aligned: the child's right edge is on the band's right edge
    ensures ColumnOf(a) == RightColumn ==> MaxEdge(x, size) == hi
    // centred: the band's midpoint, up to rounding toward zero
    ensures ColumnOf(a) == MiddleColumn ==> -1 <= lo + hi - 2 * x <= 1
    ensures ColumnOf(a) == MiddleColumn && (lo + hi) % 2 == 0 ==> 2 * x == lo + hi
  {
    match ColumnOf(a)
    case LeftColumn => lo + Half(size)
    case MiddleColumn => Midpoint(lo, hi)
    case RightColumn => hi - Half(size)
  }

  /**
   * The centre y of a child of height `size` aligned within [lo, hi]
   * (the vertical alignment rule of a layout).
   */
  function AlignV(a: Align, size: int, lo: int, hi: int): (y: int)
    ensures RowOf(a) == BottomRow ==> MinEdge(y, size) == lo
    ensures RowOf(a) == TopRow ==> MaxEdge(y, size) == hi
    ensures RowOf(a) == MiddleRow ==> -1 <= lo + hi - 2 * y <= 1
    ensures RowOf(a) == MiddleRow && (lo + hi) % 2 == 0 ==> 2 * y == lo + hi
  {
    match RowOf(a)
    case BottomRow => lo + Half(size)
    case MiddleRow => Midpoint(lo, hi)
    case TopRow => hi - Half(size)
  }

  /** `(lo + hi) / 2` in Java. */
  function Midpoint(lo: int, hi: int): (m: int)
    ensures -1 <= lo + hi - 2 * m <= 1
    ensures (lo + hi) % 2 == 0 ==> 2 * m == lo + hi
  {
    var s := lo + hi;
    assert (s % 2 == 0) ==> s == (s / 2) * 2;
    if s % 2 == 0 then JDivExact(s / 2, 2); JDiv(s, 2) else JDiv(s, 2)
  }

  /**
   * A child no wider than the band, once aligned, lies inside the band,
   * whichever column it is aligned to.
   */
  lemma AlignedWithinBand(a: Align, size: int, lo: int, hi: int)
    requires 0 <= size && 2 * Half(size) <= hi - lo
    ensures lo <= MinEdge(AlignH(a, size, lo, hi), size)
    ensures MaxEdge(AlignH(a, size, lo, hi), size) <= hi
    ensures lo <= MinEdge(AlignV(a, size, lo, hi), size)
    ensures MaxEdge(AlignV(a, size, lo, hi), size) <= hi
  {
    JDivNonNegative(size, 2);
  }

  /**
   * The explicit placement formula used by the cross axis of the lists and
   * by the frame layout: the low, centre or high side of a parent with
   * centre `centre` and extent `extent`, inset by `padding`.
   */
  function Inset(column: Column, size: int, centre: int, extent: int, padding: int): int
  {
    match column
    case LeftColumn => centre - Half(extent) + padding + Half(size)
    case MiddleColumn => centre
    case RightColumn => centre + Half(extent) - padding - Half(size)
  }

  /** The row of an alignment read as the low/middle/high column of `Inset`. */
  function RowAsColumn(r: Row): Column
  {
    match r
    case BottomRow => LeftColumn
    case MiddleRow => MiddleColumn
    case TopRow => RightColumn
  }

  /**
   * The explicit formula places a child exactly where the alignment rule
   * places it in the parent's padded interior [min + p, max - p].
   */
  lemma InsetIsAlignH(a: Align, size: int, centre: int, extent: int, padding: int)
    ensures Inset(ColumnOf(a), size, centre, extent, padding)
         == AlignH(a, size, MinEdge(centre, extent) + padding, MaxEdge(centre, extent) - padding)
  {
    var lo := MinEdge(centre, extent) + padding;
    var hi := MaxEdge(centre, extent) - padding;
    assert lo + hi == 2 * centre;
    JDivExact(centre, 2);
  }

  lemma InsetIsAlignV(a: Align, size: int, centre: int, extent: int, padding: int)
    ensures Inset(RowAsColumn(RowOf(a)), size, centre, extent, padding)
         == AlignV(a, size, MinEdge(centre, extent) + padding, MaxEdge(centre, extent) - padding)
  {
    var lo := MinEdge(centre, extent) + padding;
    var hi := MaxEdge(centre, extent) - padding;
    assert lo + hi == 2 * centre;
    JDivExact(centre, 2);
  }
}
