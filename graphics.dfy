/**
 * The older rendering-side tile and the shader's registry of visible
 * tiles. A tile registers itself when it is built and unregisters when it
 * is deleted; the registry keeps its list stable-sorted by depth, sorting
 * the whole list by the tiles' current depths after every addition.
 * The shader is passed explicitly where the source uses its singleton.
 */
module GraphicsTiles {

  import opened Colours
  import opened Geometry
  import opened ChildList
  import opened DepthOrder

  /** A registered tile together with its depth at the time of reading. */
  datatype Entry = Entry(tile: Tile, depth: int)

  function EntryDepth(e: Entry): int
  {
    e.depth
  }

  /** The tiles of `ts` paired with their current depths. */
  function Entries(ts: seq<Tile>): (r: seq<Entry>)
    reads set i | 0 <= i < |ts| :: ts[i]
    ensures |r| == |ts|
    ensures forall i :: 0 <= i < |ts| ==> r[i] == Entry(ts[i], ts[i].depth)
  {
    if ts == [] then []
    else Entries(ts[..|ts| - 1]) + [Entry(ts[|ts| - 1], ts[|ts| - 1].depth)]
  }

  /** The tiles of some entries, in order. */
  function Items(es: seq<Entry>): (r: seq<Tile>)
    ensures |r| == |es|
    ensures forall i :: 0 <= i < |es| ==> r[i] == es[i].tile
  {
    if es == [] then []
    else Items(es[..|es| - 1]) + [es[|es| - 1].tile]
  }

  /** Every entry records its tile's current depth. */
  ghost predicate Current(es: seq<Entry>)
    reads set i | 0 <= i < |es| :: es[i].tile
  {
    forall i :: 0 <= i < |es| ==> es[i].depth == es[i].tile.depth
  }

  /** Entries that are current are the entries of their own tiles. */
  lemma CurrentEntries(es: seq<Entry>)
    requires Current(es)
    ensures Entries(Items(es)) == es
  {
  }

  /** Sorting current entries keeps them current: it only reorders them. */
  lemma SortKeepsCurrent(ts: seq<Tile>)
    ensures Current(SortBy(Entries(ts), EntryDepth))
    ensures Entries(Items(SortBy(Entries(ts), EntryDepth))) == SortBy(Entries(ts), EntryDepth)
  {
    var es := Entries(ts);
    var s := SortBy(es, EntryDepth);
    SortByMultiset(es, EntryDepth);
    forall i | 0 <= i < |s|
      ensures s[i].depth == s[i].tile.depth
    {
      assert s[i] in multiset(s);
      assert s[i] in es;
    }
    CurrentEntries(s);
  }

  /**
   * Adding to a registry that is sorted by depth puts the new tile after
   * every tile of smaller or equal depth and before every deeper one,
   * leaving the others in their order.
   */
  lemma AddToSorted(es: seq<Entry>, e: Entry)
    requires SortedBy(es, EntryDepth)
    ensures SortBy(es + [e], EntryDepth) == InsertBy(es, e, EntryDepth)
    ensures SortedBy(SortBy(es + [e], EntryDepth), EntryDepth)
    ensures var k := Position(es, e, EntryDepth);
      SortBy(es + [e], EntryDepth) == es[..k] + [e] + es[k..]
      && (forall i :: 0 <= i < k ==> es[i].depth <= e.depth)
      && (forall i :: k <= i < |es| ==> e.depth < es[i].depth)
  {
    assert (es + [e])[..|es|] == es;
    SortBySortedIdentity(es, EntryDepth);
    InsertByPlacement(es, e, EntryDepth);
    InsertBySorted(es, e, EntryDepth);
  }

  /** Dropping position `k` from the tiles drops it from their entries. */
  lemma EntriesWithout(ts: seq<Tile>, k: nat)
    requires k < |ts|
    ensures Entries(ts[..k] + ts[k + 1..]) == Entries(ts)[..k] + Entries(ts)[k + 1..]
  {
    var r := ts[..k] + ts[k + 1..];
    var er := Entries(r);
    var es := Entries(ts);
    var want := es[..k] + es[k + 1..];
    assert |er| == |want|;
    forall i | 0 <= i < |r|
      ensures er[i] == want[i]
    {
      if i < k {
        assert r[i] == ts[i] && want[i] == es[i];
      } else {
        assert r[i] == ts[i + 1] && want[i] == es[i + 1];
      }
    }
  }

  /** Removing a tile from a depth-sorted list leaves it sorted. */
  lemma RemoveKeepsSorted(ts: seq<Tile>, t: Tile)
    requires SortedBy(Entries(ts), EntryDepth)
    ensures SortedBy(Entries(RemoveFirst(ts, t)), EntryDepth)
  {
    if t in ts {
      var k := FirstIndex(ts, t);
      SortedWithout(Entries(ts), k, EntryDepth);
      EntriesWithout(ts, k);
      assert RemoveFirst(ts, t) == ts[..k] + ts[k + 1..];
    }
  }

  /** The registry after sorting `ts`: its entries are the sorted entries, and it holds the same tiles. */
  lemma SortedRegistry(ts: seq<Tile>)
    ensures Entries(Items(SortBy(Entries(ts), EntryDepth))) == SortBy(Entries(ts), EntryDepth)
    ensures SortedBy(Entries(Items(SortBy(Entries(ts), EntryDepth))), EntryDepth)
    ensures multiset(Items(SortBy(Entries(ts), EntryDepth))) == multiset(ts)
  {
    SortKeepsCurrent(ts);
    SortBySorted(Entries(ts), EntryDepth);
    ItemsMultiset(ts);
  }

  class TileShader {
    var tiles: seq<Tile>

    /** An empty registry. */
    constructor ()
      ensures tiles == []
    {
      tiles := [];
    }

    /** `addTile(tile)`: append, then stable-sort the whole list by current depth. */
    method AddTile(t: Tile)
      modifies this
      ensures Entries(tiles) == SortBy(Entries(old(tiles) + [t]), EntryDepth)
      ensures SortedBy(Entries(tiles), EntryDepth)
      ensures multiset(tiles) == multiset(old(tiles)) + multiset{t}
    {
      var all := tiles + [t];
      SortedRegistry(all);
      tiles := Items(SortBy(Entries(all), EntryDepth));
    }

    /** `removeTile(tile)`: drop its first occurrence, if any. */
    method RemoveTile(t: Tile)
      modifies this
      ensures tiles == RemoveFirst(old(tiles), t)
      ensures SortedBy(Entries(old(tiles)), EntryDepth) ==> SortedBy(Entries(tiles), EntryDepth)
    {
      if SortedBy(Entries(tiles), EntryDepth) {
        RemoveKeepsSorted(tiles, t);
      }
      tiles := RemoveFirst(tiles, t);
    }
  }

  /** Sorting the entries of `ts` and taking their tiles gives `ts` back as a multiset. */
  lemma ItemsMultiset(ts: seq<Tile>)
    ensures multiset(Items(SortBy(Entries(ts), EntryDepth))) == multiset(ts)
  {
    var es := Entries(ts);
    SortByMultiset(es, EntryDepth);
    ItemsOfMultiset(SortBy(es, EntryDepth), es);
    assert Items(es) == ts;
  }

  /** Entry sequences that are permutations of each other have tiles that are. */
  lemma {:induction false} ItemsOfMultiset(a: seq<Entry>, b: seq<Entry>)
    requires multiset(a) == multiset(b)
    ensures multiset(Items(a)) == multiset(Items(b))
    decreases |a|
  {
    if a != [] {
      var n := |a| - 1;
      var x := a[n];
      assert a == a[..n] + [x];
      assert x in multiset(b);
      var k :| 0 <= k < |b| && b[k] == x;
      var b' := b[..k] + b[k + 1..];
      MultisetWithout(b, k);
      assert multiset(a[..n]) == multiset(b');
      ItemsOfMultiset(a[..n], b');
      ItemsWithout(b, k);
      assert Items(a) == Items(a[..n]) + [x.tile];
    }
  }

  lemma MultisetWithout<T>(b: seq<T>, k: nat)
    requires k < |b|
    ensures b == b[..k] + [b[k]] + b[k + 1..]
    ensures multiset(b[..k] + b[k + 1..]) == multiset(b) - multiset{b[k]}
  {
    assert b == b[..k] + [b[k]] + b[k + 1..];
  }

  lemma ItemsWithout(b: seq<Entry>, k: nat)
    requires k < |b|
    ensures multiset(Items(b)) == multiset(Items(b[..k] + b[k + 1..])) + multiset{b[k].tile}
  {
    var front, back := b[..k], b[k + 1..];
    MultisetWithout(b, k);
    ItemsConcat(front + [b[k]], back);
    ItemsConcat(front, [b[k]]);
    ItemsConcat(front, back);
    var p, q := Items(front), Items(back);
    assert Items(b) == p + [b[k].tile] + q;
    assert multiset(Items(b)) == multiset(p) + multiset{b[k].tile} + multiset(q);
    assert multiset(Items(front + back)) == multiset(p) + multiset(q);
  }

  lemma ItemsConcat(a: seq<Entry>, c: seq<Entry>)
    ensures Items(a + c) == Items(a) + Items(c)
  {
    var r := Items(a + c);
    var s := Items(a) + Items(c);
    assert |r| == |s|;
    forall i | 0 <= i < |r|
      ensures r[i] == s[i]
    {
      if i >= |a| {
        assert s[i] == Items(c)[i - |a|];
      }
    }
  }

  class Tile {
    var x: int
    var y: int
    var width: int
    var height: int
    var angle: int
    var depth: int
    var colour: Colour

    /**
     * `new Tile(x, y, width, height)`: at depth 0, unrotated, white, and
     * registered with the shader.
     */
    constructor (x: int, y: int, width: int, height: int, shader: TileShader)
      modifies shader
      ensures this.x == x && this.y == y && this.width == width && this.height == height
      ensures angle == 0 && depth == 0 && colour == White
      ensures Entries(shader.tiles) == SortBy(Entries(old(shader.tiles) + [this]), EntryDepth)
      ensures multiset(shader.tiles) == multiset(old(shader.tiles)) + multiset{this}
    {
      this.x, this.y := x, y;
      this.width, this.height := width, height;
      angle, depth := 0, 0;
      colour := White;
      new;
      shader.AddTile(this);
    }

    /** `delete()`: unregister from the shader. */
    method Delete(shader: TileShader)
      modifies shader
      ensures shader.tiles == RemoveFirst(old(shader.tiles), this)
    {
      shader.RemoveTile(this);
    }

    method SetX(x: int)
      modifies this
      ensures this.x == x && y == old(y) && width == old(width) && height == old(height)
      ensures angle == old(angle) && depth == old(depth) && colour == old(colour)
    {
      this.x := x;
    }

    method SetY(y: int)
      modifies this
      ensures this.y == y && x == old(x) && width == old(width) && height == old(height)
      ensures angle == old(angle) && depth == old(depth) && colour == old(colour)
    {
      this.y := y;
    }

    method SetWidth(width: int)
      modifies this
      ensures this.width == width && x == old(x) && y == old(y) && height == old(height)
      ensures angle == old(angle) && depth == old(depth) && colour == old(colour)
    {
      this.width := width;
    }

    method SetHeight(height: int)
      modifies this
      ensures this.height == height && x == old(x) && y == old(y) && width == old(width)
      ensures angle == old(angle) && depth == old(depth) && colour == old(colour)
    {
      this.height := height;
    }

    method SetAngle(angle: int)
      modifies this
      ensures this.angle == angle && x == old(x) && y == old(y) && width == old(width)
      ensures height == old(height) && depth == old(depth) && colour == old(colour)
    {
      this.angle := angle;
    }

    /** A new depth does not re-sort the registry: that happens at the next addition. */
    method SetDepth(depth: int)
      modifies this
      ensures this.depth == depth && x == old(x) && y == old(y) && width == old(width)
      ensures height == old(height) && angle == old(angle) && colour == old(colour)
    {
      this.depth := depth;
    }

    method SetColour(colour: Colour)
      modifies this
      ensures this.colour == colour && x == old(x) && y == old(y) && width == old(width)
      ensures height == old(height) && angle == old(angle) && depth == old(depth)
    {
      this.colour := colour;
    }

    /** Left edge: the centre less half the width, halved toward zero. */
    function MinX(): int
      reads this
    {
      MinEdge(x, width)
    }

    function MaxX(): int
      reads this
    {
      MaxEdge(x, width)
    }

    function MinY(): int
      reads this
    {
      MinEdge(y, height)
    }

    function MaxY(): int
      reads this
    {
      MaxEdge(y, height)
    }

    /** The edges are as far apart as the size, less one for an odd size. */
    lemma Edges()
      ensures MaxX() - MinX() == 2 * Half(width) && MaxY() - MinY() == 2 * Half(height)
      ensures width >= 0 ==> MinX() <= x <= MaxX()
      ensures height >= 0 ==> MinY() <= y <= MaxY()
    {
      EdgeSpan(x, width);
      EdgeSpan(y, height);
      if width >= 0 { CentreBetweenEdges(x, width); }
      if height >= 0 { CentreBetweenEdges(y, height); }
    }
  }
}
