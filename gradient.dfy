/**
 * Four-corner colour gradients. The corners are listed anti-clockwise from
 * the bottom-left; every factory builds exactly four, and the corner-wise
 * operations read the first four (fewer would be an index error in Java).
 */
module Gradients {

  import opened Colours

  /** `corners` is the list given at construction and returned unchanged. */
  datatype Gradient = Gradient(corners: seq<Colour>)

  function Horizontal(left: Colour, right: Colour): (g: Gradient)
    ensures g.corners == [left, left, right, right]
  {
    Gradient([left, left, right, right])
  }

  function Vertical(top: Colour, bottom: Colour): (g: Gradient)
    ensures g.corners == [bottom, top, top, bottom]
  {
    Gradient([bottom, top, top, bottom])
  }

  /** Top-right to bottom-left; the two other corners get the even mix. */
  function PositiveDiagonal(topRight: Colour, bottomLeft: Colour): (g: Gradient)
    ensures |g.corners| == 4
    ensures g.corners[1] == topRight && g.corners[3] == bottomLeft
    ensures g.corners[0] == g.corners[2] == Colours.Mix(topRight, bottomLeft, 50)
  {
    var m := Colours.Mix(topRight, bottomLeft, 50);
    Gradient([m, topRight, m, bottomLeft])
  }

  /** Bottom-right to top-left; the two other corners get the even mix. */
  function NegativeDiagonal(bottomRight: Colour, topLeft: Colour): (g: Gradient)
    ensures |g.corners| == 4
    ensures g.corners[0] == bottomRight && g.corners[2] == topLeft
    ensures g.corners[1] == g.corners[3] == Colours.Mix(bottomRight, topLeft, 50)
  {
    var m := Colours.Mix(bottomRight, topLeft, 50);
    Gradient([bottomRight, m, topLeft, m])
  }

  /** A displayable gradient: four corners, each displayable. */
  predicate Displayable(g: Gradient)
  {
    |g.corners| == 4 && forall i :: 0 <= i < 4 ==> InRange(g.corners[i])
  }

  /** The diagonal factories keep displayable end colours displayable. */
  lemma DiagonalsDisplayable(c: Colour, d: Colour)
    requires InRange(c) && InRange(d)
    ensures Displayable(PositiveDiagonal(c, d))
    ensures Displayable(NegativeDiagonal(c, d))
  {
    MixInRange(c, d, 50);
  }

  function Lighten(g: Gradient, amount: int): (l: Gradient)
    requires |g.corners| >= 4
    ensures |l.corners| == 4
    ensures forall i :: 0 <= i < 4 ==> l.corners[i] == Colours.Lighten(g.corners[i], amount)
  {
    var c := g.corners;
    Gradient([Colours.Lighten(c[0], amount), Colours.Lighten(c[1], amount),
              Colours.Lighten(c[2], amount), Colours.Lighten(c[3], amount)])
  }

  function Darken(g: Gradient, amount: int): (d: Gradient)
    requires |g.corners| >= 4
    ensures |d.corners| == 4
    ensures forall i :: 0 <= i < 4 ==> d.corners[i] == Colours.Darken(g.corners[i], amount)
  {
    var c := g.corners;
    Gradient([Colours.Darken(c[0], amount), Colours.Darken(c[1], amount),
              Colours.Darken(c[2], amount), Colours.Darken(c[3], amount)])
  }

  /** Darkening by nothing keeps the four corners. */
  lemma DarkenByZero(g: Gradient)
    requires |g.corners| >= 4
    ensures Darken(g, 0).corners == g.corners[..4]
  {
  }

  /** Lightening undoes darkening corner by corner. */
  lemma LightenUndoesDarken(g: Gradient, amount: int)
    requires |g.corners| >= 4 && amount >= 0
    ensures Lighten(Darken(g, amount), amount).corners == g.corners[..4]
  {
    forall i | 0 <= i < 4
      ensures Lighten(Darken(g, amount), amount).corners[i] == g.corners[i]
    {
      Colours.LightenUndoesDarken(g.corners[i], amount);
    }
  }

  /** Corner i of the result mixes corner i of both gradients. */
  function Mix(g: Gradient, other: Gradient, amount: int): (m: Gradient)
    requires |g.corners| >= 4 && |other.corners| >= 4
    ensures |m.corners| == 4
    ensures forall i :: 0 <= i < 4 ==>
      m.corners[i] == Colours.Mix(g.corners[i], other.corners[i], amount)
  {
    var c := g.corners;
    var o := other.corners;
    Gradient([Colours.Mix(c[0], o[0], amount), Colours.Mix(c[1], o[1], amount),
              Colours.Mix(c[2], o[2], amount), Colours.Mix(c[3], o[3], amount)])
  }

  /** Mixing 0% or 100% of another gradient gives one of the two back. */
  lemma MixEnds(g: Gradient, other: Gradient)
    requires |g.corners| >= 4 && |other.corners| >= 4
    ensures Mix(g, other, 0).corners == g.corners[..4]
    ensures Mix(g, other, 100).corners == other.corners[..4]
  {
    var none, all := Mix(g, other, 0), Mix(g, other, 100);
    forall i | 0 <= i < 4
      ensures none.corners[i] == g.corners[i] && all.corners[i] == other.corners[i]
    {
      MixNone(g.corners[i], other.corners[i]);
      MixAll(g.corners[i], other.corners[i]);
    }
    assert none.corners == g.corners[..4];
    assert all.corners == other.corners[..4];
  }

  /** Mixing two horizontal gradients mixes their edge colours. */
  lemma MixHorizontal(l1: Colour, r1: Colour, l2: Colour, r2: Colour, amount: int)
    ensures Mix(Horizontal(l1, r1), Horizontal(l2, r2), amount)
         == Horizontal(Colours.Mix(l1, l2, amount), Colours.Mix(r1, r2, amount))
  {
  }
}
