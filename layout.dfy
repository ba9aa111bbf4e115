/**
 * The boundary clamp each tick of the layout applies to every node (js/main.js,
 * in both tick handlers). Positions are exact reals: min and max do not round.
 */
module Layout {

  /** The distance kept between a node's centre and the canvas edge. */
  const Margin: real := 15.0

  /** `Math.max(lo, Math.min(hi, v))`. */
  function Clamp(v: real, lo: real, hi: real): real
  {
    var m := if hi <= v then hi else v;
    if lo >= m then lo else m
  }

  /** On a canvas at least twice the margin wide, a clamped coordinate lies inside the margins. */
  lemma ClampWithin(v: real, size: real)
    requires size >= 2.0 * Margin
    ensures Margin <= Clamp(v, Margin, size - Margin) <= size - Margin
  {
  }

  /** A coordinate already inside the margins is left alone. */
  lemma ClampKeepsInside(v: real, size: real)
    requires Margin <= v <= size - Margin
    ensures Clamp(v, Margin, size - Margin) == v
  {
  }

  /** On a canvas narrower than twice the margin the lower bound wins: every node sits at the margin. */
  lemma ClampNarrow(v: real, size: real)
    requires size < 2.0 * Margin
    ensures Clamp(v, Margin, size - Margin) == Margin
  {
  }

  lemma ClampIdempotent(v: real, lo: real, hi: real)
    ensures Clamp(Clamp(v, lo, hi), lo, hi) == Clamp(v, lo, hi)
  {
  }

  /** A node's position, the part of a node object the tick handler writes. */
  class Body {
    var x: real
    var y: real
  }

  /**
   * One tick's clamp over the drawn nodes: each node's x is clamped to [15, width - 15]
   * and its y to [15, height - 15]. A node listed twice is clamped twice, which changes nothing.
   */
  method ClampAll(bodies: seq<Body>, width: real, height: real)
    modifies set b | b in bodies
    ensures forall k :: 0 <= k < |bodies| ==>
      bodies[k].x == Clamp(old(bodies[k].x), Margin, width - Margin) &&
      bodies[k].y == Clamp(old(bodies[k].y), Margin, height - Margin)
    ensures width >= 2.0 * Margin && height >= 2.0 * Margin ==>
      forall b :: b in bodies ==> Margin <= b.x <= width - Margin && Margin <= b.y <= height - Margin
  {
    var i := 0;
    while i < |bodies|
      invariant 0 <= i <= |bodies|
      invariant forall k :: 0 <= k < |bodies| ==>
        if bodies[k] in bodies[..i] then
          bodies[k].x == Clamp(old(bodies[k].x), Margin, width - Margin) &&
          bodies[k].y == Clamp(old(bodies[k].y), Margin, height - Margin)
        else
          bodies[k].x == old(bodies[k].x) && bodies[k].y == old(bodies[k].y)
    {
      var b := bodies[i];
      ClampIdempotent(old(b.x), Margin, width - Margin);
      ClampIdempotent(old(b.y), Margin, height - Margin);
      b.x := Clamp(b.x, Margin, width - Margin);
      b.y := Clamp(b.y, Margin, height - Margin);
      assert bodies[..i + 1] == bodies[..i] + [b];
      i := i + 1;
    }
    assert bodies[..|bodies|] == bodies;
    if width >= 2.0 * Margin && height >= 2.0 * Margin {
      forall k | 0 <= k < |bodies|
        ensures Margin <= bodies[k].x <= width - Margin && Margin <= bodies[k].y <= height - Margin
      {
        ClampWithin(old(bodies[k].x), width);
        ClampWithin(old(bodies[k].y), height);
      }
    }
  }
}
