/**
 * `calculateDimensions` (index.js:253-270, the same code as backup/index.js:242-259):
 * an aspect ratio `"w:h"` and a base size give a width and a height, the
 * shorter side equal to the base size before snapping, both snapped to the
 * nearest multiple of 64. `Math.round` of an exact rational is rounding to
 * the nearest integer with halves rounded up.
 */
module Dimensions {
  import opened Wrappers
  import opened Text

  datatype Dims = Dims(width: int, height: int)

  /** `Math.round(p / q)`: the integer nearest to p/q, a half rounded up. */
  function RoundDiv(p: int, q: int): (r: int)
    requires q > 0
    ensures 2 * q * r - q <= 2 * p < 2 * q * r + q
  {
    var n := 2 * p + q;
    var r := n / (2 * q);
    assert n == 2 * q * r + n % (2 * q);
    r
  }

  /** `Math.round(x / 64) * 64`: the multiple of 64 nearest to x, a tie going up. */
  function Snap64(x: int): (r: int)
    ensures r % 64 == 0
    ensures r - 32 <= x < r + 32
  {
    RoundDiv(x, 64) * 64
  }

  /** Multiplying by a positive number keeps the sign and the magnitude at least one step. */
  lemma MulSign(q: int, x: int)
    requires q > 0
    ensures x >= 1 ==> q * x >= q
    ensures x <= -1 ==> q * x <= -q
  {
  }

  lemma RoundDivMonotone(p1: int, p2: int, q: int)
    requires q > 0 && p1 <= p2
    ensures RoundDiv(p1, q) <= RoundDiv(p2, q)
  {
    var r1, r2 := RoundDiv(p1, q), RoundDiv(p2, q);
    assert 2 * q * r1 - 2 * q * r2 == 2 * (q * (r1 - r2));
    MulSign(q, r1 - r2);
  }

  /** A whole number divided and rounded is itself. */
  lemma RoundDivExact(a: int, q: int)
    requires q > 0
    ensures RoundDiv(a * q, q) == a
  {
    var r := RoundDiv(a * q, q);
    assert 2 * q * r - 2 * (a * q) == 2 * (q * (r - a));
    MulSign(q, r - a);
  }

  lemma Snap64Monotone(x1: int, x2: int)
    requires x1 <= x2
    ensures Snap64(x1) <= Snap64(x2)
  {
    RoundDivMonotone(x1, x2, 64);
  }

  /**
   * The dimensions for a ratio w:h of positive integers: landscape (w > h)
   * keeps the base size as height, portrait and square keep it as width, and
   * the other side is the base size scaled by the ratio, rounded.
   */
  function CalculateDimensions(w: nat, h: nat, baseSize: int): (d: Dims)
    requires w > 0 && h > 0
    ensures d.width % 64 == 0 && d.height % 64 == 0
  {
    if w > h then Dims(Snap64(RoundDiv(baseSize * w, h)), Snap64(baseSize))
    else Dims(Snap64(baseSize), Snap64(RoundDiv(baseSize * h, w)))
  }

  lemma MulMonotone(a: nat, x: int, y: int)
    requires x <= y
    ensures a * x <= a * y
  {
    if a > 0 && x < y {
      assert a * y - a * x == a * (y - x);
      MulSign(a, y - x);
    }
  }

  /** Scaling the base size by a ratio of at least one never makes it smaller. */
  lemma ScaledAtLeastBase(baseSize: nat, long: nat, short: nat)
    requires 0 < short <= long
    ensures RoundDiv(baseSize * long, short) >= baseSize
  {
    MulMonotone(baseSize, short, long);
    RoundDivMonotone(baseSize * short, baseSize * long, short);
    RoundDivExact(baseSize, short);
  }

  /** Orientation is kept: a landscape ratio never gives a portrait picture, and the reverse. */
  lemma DimensionsKeepOrientation(w: nat, h: nat, baseSize: nat)
    requires w > 0 && h > 0
    ensures var d := CalculateDimensions(w, h, baseSize);
            && (w > h ==> d.width >= d.height)
            && (w < h ==> d.height >= d.width)
            && (w == h ==> d.width == d.height)
  {
    if w > h {
      ScaledAtLeastBase(baseSize, w, h);
      Snap64Monotone(baseSize, RoundDiv(baseSize * w, h));
    } else {
      ScaledAtLeastBase(baseSize, h, w);
      Snap64Monotone(baseSize, RoundDiv(baseSize * h, w));
      if w == h {
        RoundDivExact(baseSize, w);
      }
    }
  }

  /**
   * `aspectRatio.split(':').map(Number)` destructured into `[w, h]`, on the
   * ratios the model admits: the first two pieces are decimal integers and
   * both are positive. Any other string (a missing piece, a zero, NaN) is
   * `None`.
   */
  function ParseRatio(aspectRatio: string): (r: Option<(nat, nat)>)
    ensures r.Some? ==> r.value.0 > 0 && r.value.1 > 0
  {
    var pieces := Split(aspectRatio, {':'});
    if |pieces| < 2 then None
    else match (ParseNumber(pieces[0]), ParseNumber(pieces[1]))
      case (Some(w), Some(h)) => if w > 0 && h > 0 then Some((w, h)) else None
      case _ => None
  }

  /** `calculateDimensions(aspectRatio, baseSize)` on the ratios `ParseRatio` admits. */
  function DimensionsFor(aspectRatio: string, baseSize: int): (d: Option<Dims>)
    ensures d.Some? <==> ParseRatio(aspectRatio).Some?
    ensures d.Some? ==> d.value.width % 64 == 0 && d.value.height % 64 == 0
  {
    match ParseRatio(aspectRatio)
    case None => None
    case Some((w, h)) => Some(CalculateDimensions(w, h, baseSize))
  }

  /** A ratio written as two positive numbers around a colon parses back to those numbers. */
  lemma ParseRatioRoundTrip(w: nat, h: nat)
    requires w > 0 && h > 0
    ensures ParseRatio(NatToString(w) + ":" + NatToString(h)) == Some((w, h))
  {
    var a, b := NatToString(w), NatToString(h);
    assert Split(a + ":" + b, {':'}) == [a, b] by {
      assert NoSep(a, {':'}) && NoSep(b, {':'});
      assert a + ":" + b == a + [':'] + b;
      SplitAfterPiece(a, ':', b, {':'});
      SplitNoSep(b, {':'});
    }
    assert ParseNumber(a) == Some(w) by { ParseNumberNatToString(w); }
    assert ParseNumber(b) == Some(h) by { ParseNumberNatToString(h); }
  }

  /** Worked example: 16:9 at base size 512 gives 896 x 512. */
  lemma LandscapeExample()
    ensures CalculateDimensions(16, 9, 512) == Dims(896, 512)
  {
    assert RoundDiv(512 * 16, 9) == 910;
    assert RoundDiv(910, 64) == 14;
    assert RoundDiv(512, 64) == 8;
  }

  /** Worked example: 1:1 at base size 500 gives 512 x 512 (500 snaps up to 512). */
  lemma SquareExample()
    ensures CalculateDimensions(1, 1, 500) == Dims(512, 512)
  {
    assert RoundDiv(500, 64) == 8;
    assert RoundDiv(500 * 1, 1) == 500;
  }
}
