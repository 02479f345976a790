/**
 * RGBA colours with integer channels.
 *
 * Every colour is built by one private constructor that caps each channel
 * at 255 but lets negative values through, so "at most 255" is the one
 * invariant all colours share; it is the subset type `Colour`.
 */
module Colours {

  import opened JavaInt

  datatype Channels = Channels(r: int, g: int, b: int, a: int)

  predicate Capped(c: Channels)
  {
    c.r <= 255 && c.g <= 255 && c.b <= 255 && c.a <= 255
  }

  /** A colour: the constructor guarantees no channel exceeds 255. */
  type Colour = c: Channels | Capped(c) witness Channels(0, 0, 0, 0)

  /** All four channels in the displayable range 0..255. */
  predicate InRange(c: Channels)
  {
    0 <= c.r <= 255 && 0 <= c.g <= 255 && 0 <= c.b <= 255 && 0 <= c.a <= 255
  }

  /** The constructor's treatment of one channel value. */
  function Clamp(v: int): (r: int)
    ensures r <= 255
    ensures v > 255 ==> r == 255
    ensures 0 <= v <= 255 ==> r == v
    // there is no lower clamp: negative values pass through
    ensures v < 0 ==> r == v
  {
    if v < 0 then v else if v > 255 then 255 else v
  }

  /** The private constructor: each channel clamped. */
  function MakeColour(r: int, g: int, b: int, a: int): Colour
  {
    Channels(Clamp(r), Clamp(g), Clamp(b), Clamp(a))
  }

  /** RGB colour, fully opaque. */
  function Rgb(r: int, g: int, b: int): (c: Colour)
    ensures c.a == 255
    ensures 0 <= r <= 255 && 0 <= g <= 255 && 0 <= b <= 255 ==> c == Channels(r, g, b, 255)
  {
    MakeColour(r, g, b, 255)
  }

  /** RGBA colour. */
  function Rgba(r: int, g: int, b: int, a: int): (c: Colour)
    ensures InRange(Channels(r, g, b, a)) ==> c == Channels(r, g, b, a)
  {
    MakeColour(r, g, b, a)
  }

  /**
   * Colour from a hexadecimal RGB value. `hex >> k` on a Java int is floor
   * division by 2^k and `& 0xFF` is the non-negative remainder modulo 256,
   * which are Dafny's Euclidean `/` and `%` by positive divisors.
   */
  function Hex(hex: Int32): (c: Colour)
    ensures c.a == 255
    ensures 0 <= hex <= 0xFF_FFFF ==>
      && c.r == hex / 0x1_0000
      && c.g == (hex / 0x100) % 0x100
      && c.b == hex % 0x100
      && InRange(c)
  {
    MakeColour(hex / 0x1_0000, (hex / 0x100) % 0x100, hex % 0x100, 255)
  }

  /** The hexadecimal RGB value a colour stands for. */
  function Pack(c: Channels): int
  {
    c.r * 0x1_0000 + c.g * 0x100 + c.b
  }

  /** Unpacking a 24-bit value and packing it again gives the value back. */
  lemma HexThenPack(hex: Int32)
    requires 0 <= hex <= 0xFF_FFFF
    ensures Pack(Hex(hex)) == hex
  {
    var c := Hex(hex);
    assert hex == (hex / 0x100) * 0x100 + hex % 0x100;
    assert hex / 0x100 == (hex / 0x1_0000) * 0x100 + (hex / 0x100) % 0x100;
  }

  /** Packing displayable channels and unpacking gives the channels, opaque. */
  lemma PackThenHex(c: Channels)
    requires InRange(c)
    ensures 0 <= Pack(c) <= 0xFF_FFFF
    ensures Hex(Pack(c)) == c.(a := 255)
  {
    var p := Pack(c);
    var hi := c.r * 0x100 + c.g;
    assert p == hi * 0x100 + c.b;
    assert p / 0x100 == hi && p % 0x100 == c.b;
    assert hi / 0x100 == c.r && hi % 0x100 == c.g;
    assert p / 0x1_0000 == hi / 0x100 by {
      assert p == c.r * 0x1_0000 + (c.g * 0x100 + c.b);
    }
  }

  const White: Colour := Hex(0xFF_FFFF)

  const Black: Colour := Hex(0)

  lemma WhiteAndBlack()
    ensures White == Channels(255, 255, 255, 255)
    ensures Black == Channels(0, 0, 0, 255)
  {
  }

  /** A lighter colour: R, G and B raised by `amount`, then clamped. */
  function Lighten(c: Colour, amount: int): (l: Colour)
    // alpha is kept
    ensures l.a == c.a
    ensures c.r + amount <= 255 ==> l.r == c.r + amount
    ensures c.g + amount <= 255 ==> l.g == c.g + amount
    ensures c.b + amount <= 255 ==> l.b == c.b + amount
    ensures c.r + amount >= 255 ==> l.r == 255
    ensures c.g + amount >= 255 ==> l.g == 255
    ensures c.b + amount >= 255 ==> l.b == 255
  {
    MakeColour(c.r + amount, c.g + amount, c.b + amount, c.a)
  }

  /** A darker colour: R, G and B lowered by `amount`, then clamped. */
  function Darken(c: Colour, amount: int): (d: Colour)
    ensures d.a == c.a
    // a non-negative amount never reaches the cap, so it subtracts exactly,
    // possibly below zero
    ensures amount >= 0 ==> d == Channels(c.r - amount, c.g - amount, c.b - amount, c.a)
  {
    MakeColour(c.r - amount, c.g - amount, c.b - amount, c.a)
  }

  /** Lightening undoes darkening by the same non-negative amount. */
  lemma LightenUndoesDarken(c: Colour, amount: int)
    requires amount >= 0
    ensures Lighten(Darken(c, amount), amount) == c
  {
  }

  /** Darkening undoes lightening when lightening did not hit the cap. */
  lemma DarkenUndoesLighten(c: Colour, amount: int)
    requires c.r + amount <= 255 && c.g + amount <= 255 && c.b + amount <= 255
    ensures Darken(Lighten(c, amount), amount) == c
  {
  }

  /** One channel of a mix: `(100 - amount) * x / 100 + amount * y / 100`. */
  function MixChannel(x: int, y: int, amount: int): int
  {
    JDiv((100 - amount) * x, 100) + JDiv(amount * y, 100)
  }

  /** `amount` percent of `other` mixed into `c`. */
  function Mix(c: Colour, other: Colour, amount: int): Colour
  {
    MakeColour(
      MixChannel(c.r, other.r, amount),
      MixChannel(c.g, other.g, amount),
      MixChannel(c.b, other.b, amount),
      MixChannel(c.a, other.a, amount))
  }

  /** Mixing in none of the other colour gives the colour itself. */
  lemma MixNone(c: Colour, other: Colour)
    ensures Mix(c, other, 0) == c
  {
    JDivExact(c.r, 100);
    JDivExact(c.g, 100);
    JDivExact(c.b, 100);
    JDivExact(c.a, 100);
  }

  /** Mixing in all of the other colour gives the other colour. */
  lemma MixAll(c: Colour, other: Colour)
    ensures Mix(c, other, 100) == other
  {
    JDivExact(other.r, 100);
    JDivExact(other.g, 100);
    JDivExact(other.b, 100);
    JDivExact(other.a, 100);
  }

  /** Mixing displayable colours by a percentage gives a displayable colour. */
  lemma MixInRange(c: Colour, other: Colour, amount: int)
    requires InRange(c) && InRange(other) && 0 <= amount <= 100
    ensures InRange(Mix(c, other, amount))
  {
    MixChannelInRange(c.r, other.r, amount);
    MixChannelInRange(c.g, other.g, amount);
    MixChannelInRange(c.b, other.b, amount);
    MixChannelInRange(c.a, other.a, amount);
  }

  lemma MixChannelInRange(x: int, y: int, amount: int)
    requires 0 <= x <= 255 && 0 <= y <= 255 && 0 <= amount <= 100
    ensures 0 <= MixChannel(x, y, amount) <= 255
  {
    var u := (100 - amount) * x;
    var v := amount * y;
    assert 0 <= u <= (100 - amount) * 255 by { MulNonNegative(100 - amount, x); MulMono(100 - amount, x, 255); }
    assert 0 <= v <= amount * 255 by { MulNonNegative(amount, y); MulMono(amount, y, 255); }
    JDivNonNegative(u, 100);
    JDivNonNegative(v, 100);
    var qu := u / 100;
    var qv := v / 100;
    assert qu * 100 + qv * 100 <= u + v <= 25500;
    assert (qu + qv) * 100 <= 25500;
  }

  lemma MulMono(k: int, a: int, b: int)
    requires k >= 0 && a <= b
    ensures k * a <= k * b
  {
    MulNonNegative(k, b - a);
  }
}
