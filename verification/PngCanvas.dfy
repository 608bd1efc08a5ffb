/** The snapshot canvas: a flat byte buffer of pixels, blending, and the line brush
    that walks `BresenhamLine`. */
module PngCanvas {
  import opened BresenhamLine
  import opened Wrappers

  type Byte = b: int | 0 <= b < 256

  datatype Rgb = Rgb(red: Byte, green: Byte, blue: Byte)

  datatype Ink = Ink(color: Rgb, alpha: real)

  datatype Clip = Clip(left: real, top: real, right: real, bottom: real)

  // ----- colours -----------------------------------------------------------

  lemma ProductIsNonNegative(x: real, y: real)
    requires 0.0 <= x && 0.0 <= y
    ensures 0.0 <= x * y
  {
  }

  lemma BlendStaysInRange(base: real, overlay: real, alpha: real)
    requires 0.0 <= base <= 255.0 && 0.0 <= overlay <= 255.0 && 0.0 <= alpha <= 1.0
    ensures 0.0 <= base * (1.0 - alpha) + overlay * alpha <= 255.0
  {
    ProductIsNonNegative(base, 1.0 - alpha);
    ProductIsNonNegative(overlay, alpha);
    ProductIsNonNegative(255.0 - base, 1.0 - alpha);
    ProductIsNonNegative(255.0 - overlay, alpha);
    assert (255.0 - base) * (1.0 - alpha) + (255.0 - overlay) * alpha
        == 255.0 - (base * (1.0 - alpha) + overlay * alpha);
  }

  /** A blend of two bytes is a byte, so writing it back never fails. */
  function Blend(base: Byte, overlay: Byte, alpha: real): (b: Byte)
    requires 0.0 <= alpha <= 1.0
  {
    BlendStaysInRange(base as real, overlay as real, alpha);
    (base as real * (1.0 - alpha) + overlay as real * alpha).Floor
  }

  function BlendColor(base: Rgb, overlay: Rgb, alpha: real): Rgb {
    var a := if alpha < 0.0 then 0.0 else if alpha > 1.0 then 1.0 else alpha;
    Rgb(Blend(base.red, overlay.red, a), Blend(base.green, overlay.green, a), Blend(base.blue, overlay.blue, a))
  }

  /** What one stroke over a pixel makes of it. */
  function Inked(ink: Ink, was: Rgb): Rgb {
    if ink.alpha < 1.0 then BlendColor(was, ink.color, ink.alpha) else ink.color
  }

  function InkedTimes(ink: Ink, was: Rgb, n: nat): Rgb {
    if n == 0 then was else Inked(ink, InkedTimes(ink, was, n - 1))
  }

  // ----- rounding ----------------------------------------------------------

  /** To the nearest integer, halves to the even one. */
  function Round(x: real): int {
    var below := x.Floor;
    var part := x - below as real;
    if part < 0.5 || (part == 0.5 && below % 2 == 0) then below else below + 1
  }

  /** No integer is closer, and a tie goes to the even one. */
  lemma RoundIsNearest(x: real, k: int)
    ensures -0.5 <= Round(x) as real - x <= 0.5
    ensures (Round(x) as real - x == 0.5 || x - Round(x) as real == 0.5) ==> Round(x) % 2 == 0
    ensures x == k as real ==> Round(x) == k
  {
  }

  // ----- the brush ---------------------------------------------------------

  predicate Clipped(clip: Option<Clip>, x: int, y: int) {
    clip.Some? &&
    !(clip.value.left <= x as real <= clip.value.right && clip.value.top <= y as real <= clip.value.bottom)
  }

  /** Within the square brush around a centre. */
  predicate Covered(cx: int, cy: int, radius: nat, x: int, y: int) {
    cx - radius <= x <= cx + radius && cy - radius <= y <= cy + radius
  }

  predicate CoveredBy(l: Line, k: nat, radius: nat, x: int, y: int) {
    Covered(After(l, k).X(l), After(l, k).Y(l), radius, x, y)
  }

  /** How many of the first `n` centres cover the pixel. */
  function Hits(l: Line, radius: nat, x: int, y: int, n: nat): nat {
    if n == 0 then 0 else Hits(l, radius, x, y, n - 1) + (if CoveredBy(l, n - 1, radius, x, y) then 1 else 0)
  }

  function Strokes(l: Line, radius: nat, clip: Option<Clip>, x: int, y: int, n: nat): nat {
    if Clipped(clip, x, y) then 0 else Hits(l, radius, x, y, n)
  }

  lemma StrokeMore(l: Line, radius: nat, clip: Option<Clip>, ink: Ink, was: Rgb, x: int, y: int, n: nat)
    ensures InkedTimes(ink, was, Strokes(l, radius, clip, x, y, n + 1)) ==
      var before := InkedTimes(ink, was, Strokes(l, radius, clip, x, y, n));
      if CoveredBy(l, n, radius, x, y) && !Clipped(clip, x, y) then Inked(ink, before) else before
  {
  }

  lemma {:induction false} HitsIff(l: Line, radius: nat, x: int, y: int, n: nat)
    ensures Hits(l, radius, x, y, n) > 0 <==> exists k: nat :: k < n && CoveredBy(l, k, radius, x, y)
  {
    if n > 0 {
      HitsIff(l, radius, x, y, n - 1);
    }
  }

  /** With opaque ink the line is exactly the pixels within the brush of some
      centre and inside the clip; every other pixel keeps its colour. */
  lemma OpaqueLine(l: Line, radius: nat, clip: Option<Clip>, ink: Ink, was: Rgb, x: int, y: int)
    requires ink.alpha >= 1.0
    ensures
      var covered := exists k: nat :: k <= l.Length() && CoveredBy(l, k, radius, x, y);
      InkedTimes(ink, was, Strokes(l, radius, clip, x, y, l.Length() + 1))
        == if covered && !Clipped(clip, x, y) then ink.color else was
  {
    HitsIff(l, radius, x, y, l.Length() + 1);
  }

  // ----- buffer arithmetic -------------------------------------------------

  lemma RowFits(width: nat, height: nat, x: int, y: int)
    requires 0 <= x < width && 0 <= y < height
    ensures 0 <= y * width + x < width * height
  {
    assert (height - 1 - y) * width >= 0;
    assert height * width == (height - 1 - y) * width + y * width + width;
  }

  lemma LowerRowIsLater(width: nat, x: int, y: int, p: int, q: int)
    requires 0 <= x < width && 0 <= p < width && y > q
    ensures y * width + x > q * width + p
  {
    assert (y - q - 1) * width >= 0;
    assert y * width == (y - q - 1) * width + q * width + width;
  }

  /** Different pixels have different cells. */
  lemma CellsDiffer(width: nat, x: int, y: int, p: int, q: int)
    requires 0 <= x < width && 0 <= p < width
    requires x != p || y != q
    ensures y * width + x != q * width + p
  {
    if y > q {
      LowerRowIsLater(width, x, y, p, q);
    } else if y < q {
      LowerRowIsLater(width, p, q, x, y);
    }
  }

  class Canvas {
    const width: nat
    const height: nat
    const pixels: array<Byte>

    ghost predicate Valid() {
      pixels.Length == width * height * 3
    }

    predicate Inside(x: int, y: int) {
      0 <= x < width && 0 <= y < height
    }

    function Offset(x: int, y: int): (o: nat)
      requires Valid() && Inside(x, y)
      ensures o == (y * width + x) * 3 && o + 3 <= pixels.Length
    {
      RowFits(width, height, x, y);
      (y * width + x) * 3
    }

    /** The picture: the colour at a pixel. */
    function At(x: int, y: int): Rgb
      requires Valid() && Inside(x, y)
      reads pixels
    {
      var o := Offset(x, y);
      Rgb(pixels[o], pixels[o + 1], pixels[o + 2])
    }

    constructor (w: nat, h: nat, background: Rgb)
      ensures Valid() && width == w && height == h && fresh(pixels)
      ensures forall x, y :: Inside(x, y) ==> At(x, y) == background
    {
      width, height := w, h;
      pixels := new Byte[w * h * 3](i =>
        if i % 3 == 0 then background.red else if i % 3 == 1 then background.green else background.blue);
    }

    /** Paints one pixel and no other; outside the canvas, nothing. */
    method Pixel(x: int, y: int, ink: Ink)
      requires Valid()
      modifies pixels
      ensures forall p, q :: Inside(p, q) ==>
        At(p, q) == if p == x && q == y then Inked(ink, old(At(p, q))) else old(At(p, q))
    {
      if !Inside(x, y) {
        return;
      }
      var o := Offset(x, y);
      var rgb := Inked(ink, Rgb(pixels[o], pixels[o + 1], pixels[o + 2]));
      pixels[o], pixels[o + 1], pixels[o + 2] := rgb.red, rgb.green, rgb.blue;
      forall p, q | Inside(p, q) && (p != x || q != y) ensures At(p, q) == old(At(p, q)) {
        CellsDiffer(width, x, y, p, q);
      }
    }

    /** The square brush around one centre, minus what is clipped. */
    method Stamp(cx: int, cy: int, radius: nat, ink: Ink, clip: Option<Clip>)
      requires Valid()
      modifies pixels
      ensures forall p, q :: Inside(p, q) ==>
        At(p, q) == if Covered(cx, cy, radius, p, q) && !Clipped(clip, p, q) then Inked(ink, old(At(p, q))) else old(At(p, q))
    {
      for oy := 0 - radius to radius + 1
        invariant forall p, q :: Inside(p, q) ==>
          At(p, q) == if Covered(cx, cy, radius, p, q) && q < cy + oy && !Clipped(clip, p, q) then Inked(ink, old(At(p, q))) else old(At(p, q))
      {
        for ox := 0 - radius to radius + 1
          invariant forall p, q :: Inside(p, q) ==>
            At(p, q) == if Covered(cx, cy, radius, p, q) && (q < cy + oy || (q == cy + oy && p < cx + ox)) && !Clipped(clip, p, q)
              then Inked(ink, old(At(p, q))) else old(At(p, q))
        {
          if !Clipped(clip, cx + ox, cy + oy) {
            Pixel(cx + ox, cy + oy, ink);
          }
        }
      }
    }

    /** Stamps the brush at every centre of the walk between the rounded end points,
        once each. */
    method DrawLine(x1: real, y1: real, x2: real, y2: real, ink: Ink, brush: int, clip: Option<Clip>)
      requires Valid()
      modifies pixels
      ensures
        var l, radius := Line(Round(x1), Round(y1), Round(x2), Round(y2)), if brush > 1 then brush - 1 else 0;
        forall p, q :: Inside(p, q) ==>
          At(p, q) == InkedTimes(ink, old(At(p, q)), Strokes(l, radius, clip, p, q, l.Length() + 1))
    {
      var l := Line(Round(x1), Round(y1), Round(x2), Round(y2));
      var dx, dy, sx, sy := l.Dx(), -l.Dy(), l.Sx(), l.Sy();
      var err, x, y := dx + dy, l.x1, l.y1;
      var radius := if brush > 1 then brush - 1 else 0;
      ghost var n := 0;
      EndsExactlyAtTheEnd(l, 0);
      while true
        invariant n <= l.Length()
        invariant After(l, n).X(l) == x && After(l, n).Y(l) == y && After(l, n).err == err
        invariant forall p, q :: Inside(p, q) ==>
          At(p, q) == InkedTimes(ink, old(At(p, q)), Strokes(l, radius, clip, p, q, n))
        decreases l.Length() - n
      {
        Stamp(x, y, radius, ink, clip);
        forall p, q | Inside(p, q)
          ensures At(p, q) == InkedTimes(ink, old(At(p, q)), Strokes(l, radius, clip, p, q, n + 1))
        {
          StrokeMore(l, radius, clip, ink, old(At(p, q)), p, q, n);
        }
        EndsExactlyAtTheEnd(l, n);
        n := n + 1;
        if x == l.x2 && y == l.y2 {
          break;
        }
        var e2 := 2 * err;
        if e2 >= dy {
          err := err + dy;
          x := x + sx;
        }
        if e2 <= dx {
          err := err + dx;
          y := y + sy;
        }
      }
    }
  }

  // ----- what a blend is ---------------------------------------------------

  /** The exact mixture, before it is cut to a whole byte. */
  function Mix(base: real, overlay: real, alpha: real): real {
    base * (1.0 - alpha) + overlay * alpha
  }

  lemma BlendCutsTheMix(base: Byte, overlay: Byte, alpha: real)
    requires 0.0 <= alpha <= 1.0
    ensures Blend(base, overlay, alpha) == Mix(base as real, overlay as real, alpha).Floor
  {
  }

  lemma MixAtEnds(base: real, overlay: real)
    ensures Mix(base, overlay, 0.0) == base && Mix(base, overlay, 1.0) == overlay
  {
  }

  /** Between the two, and nearer the overlay the more opaque it is. */
  lemma MixMoves(base: real, overlay: real, alpha: real, more: real)
    requires 0.0 <= alpha <= more <= 1.0
    ensures base <= overlay ==> Mix(base, overlay, alpha) <= Mix(base, overlay, more)
    ensures overlay <= base ==> Mix(base, overlay, more) <= Mix(base, overlay, alpha)
  {
    var d := overlay - base;
    assert Mix(base, overlay, more) - Mix(base, overlay, alpha) == d * (more - alpha);
    if 0.0 <= d {
      ProductIsNonNegative(d, more - alpha);
    } else {
      ProductIsNonNegative(-d, more - alpha);
      assert -d * (more - alpha) == -(d * (more - alpha));
    }
  }

  /** Nothing of the overlay at zero, nothing of the base at one, between the two
      otherwise, and nearer the overlay the more opaque it is. */
  lemma BlendLaws(base: Byte, overlay: Byte, alpha: real, more: real)
    requires 0.0 <= alpha <= more <= 1.0
    ensures Blend(base, overlay, 0.0) == base && Blend(base, overlay, 1.0) == overlay
    ensures base <= overlay ==> base <= Blend(base, overlay, alpha) <= Blend(base, overlay, more) <= overlay
    ensures overlay < base ==> overlay <= Blend(base, overlay, more) <= Blend(base, overlay, alpha) <= base
  {
    var b, o := base as real, overlay as real;
    BlendCutsTheMix(base, overlay, 0.0);
    BlendCutsTheMix(base, overlay, alpha);
    BlendCutsTheMix(base, overlay, more);
    BlendCutsTheMix(base, overlay, 1.0);
    MixAtEnds(b, o);
    MixMoves(b, o, 0.0, alpha);
    MixMoves(b, o, alpha, more);
    MixMoves(b, o, more, 1.0);
    var x, y := Mix(b, o, alpha), Mix(b, o, more);
    if base <= overlay {
      FloorsInOrder(base, x, y, overlay);
    } else {
      FloorsInOrder(overlay, y, x, base);
    }
  }

  lemma FloorsInOrder(least: int, x: real, y: real, most: int)
    requires least as real <= x <= y <= most as real
    ensures least <= x.Floor <= y.Floor <= most
  {
  }

  // ----- by distances ------------------------------------------------------

  predicate Near(l: Line, k: nat, radius: nat, x: int, y: int) {
    var c := After(l, k);
    x - c.X(l) <= radius && c.X(l) - x <= radius && y - c.Y(l) <= radius && c.Y(l) - y <= radius
  }

  /** An opaque line colours exactly the pixels that lie, in both directions, within
      the radius of some centre, and on or inside the edges of the clip. */
  lemma OpaqueLineByDistance(l: Line, radius: nat, clip: Option<Clip>, ink: Ink, was: Rgb, x: int, y: int)
    requires ink.alpha >= 1.0
    ensures
      var near := exists k: nat :: k <= l.Length() && Near(l, k, radius, x, y);
      var inside := clip.None? || (clip.value.left <= x as real && x as real <= clip.value.right
        && clip.value.top <= y as real && y as real <= clip.value.bottom);
      InkedTimes(ink, was, Strokes(l, radius, clip, x, y, l.Length() + 1)) == if near && inside then ink.color else was
  {
    OpaqueLine(l, radius, clip, ink, was, x, y);
    assert forall k: nat :: CoveredBy(l, k, radius, x, y) <==> Near(l, k, radius, x, y);
  }

  /** A stroke puts the ink's colour over what was there: all of it when opaque, none
      when the alpha is zero or less, and channel by channel in between. */
  lemma StrokeLaws(ink: Ink, was: Rgb)
    ensures ink.alpha >= 1.0 ==> Inked(ink, was) == ink.color
    ensures ink.alpha <= 0.0 ==> Inked(ink, was) == was
    ensures 0.0 <= ink.alpha <= 1.0 ==>
      && Inked(ink, was).red == Blend(was.red, ink.color.red, ink.alpha)
      && Inked(ink, was).green == Blend(was.green, ink.color.green, ink.alpha)
      && Inked(ink, was).blue == Blend(was.blue, ink.color.blue, ink.alpha)
  {
    BlendLaws(was.red, ink.color.red, 0.0, 1.0);
    BlendLaws(was.green, ink.color.green, 0.0, 1.0);
    BlendLaws(was.blue, ink.color.blue, 0.0, 1.0);
  }
}
