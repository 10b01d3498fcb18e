/** Value types and the small geometry helpers that the hero placement builds on:
    percent conversion, clamping, rectangle inflation, the strict containment test
    and distance comparison. Browser measurements arrive as ClientRect values. */
module Geometry {

  datatype Option<T> = None | Some(value: T)

  /** A rectangle as the browser measures it: viewport offsets and size, in pixels. */
  datatype ClientRect = ClientRect(left: real, top: real, width: real, height: real)

  /** An axis-aligned rectangle in surface coordinates (percent of the surface, or pixels). */
  datatype Rect = Rect(x: real, y: real, w: real, h: real)

  datatype Point = Point(x: real, y: real)

  function Max(a: real, b: real): real { if a >= b then a else b }

  function Min(a: real, b: real): real { if a <= b then a else b }

  /** `value` as a percentage of `total`. */
  function Pct(value: real, total: real): (r: real)
    requires total != 0.0
    ensures r * total == 100.0 * value
  {
    (value / total) * 100.0
  }

  /** Math.max(lo, Math.min(hi, v)). */
  function Clamp(v: real, lo: real, hi: real): (r: real)
    ensures lo <= hi ==> lo <= r <= hi
    ensures lo <= v <= hi ==> r == v
    ensures v < lo ==> r == lo
    ensures lo <= hi && hi < v ==> r == hi
    ensures hi < lo ==> r == lo
  {
    Max(lo, Min(hi, v))
  }

  /** Math.round: the nearest integer, halves rounded up. */
  function Round(x: real): (r: int)
    ensures r as real - 0.5 <= x < r as real + 0.5
  {
    (x + 0.5).Floor
  }

  /** A measured rectangle in percent of the reference rectangle `ref`: each of its four
      edges sits at that edge's offset from `ref`'s corner, as a percentage of `ref`'s size. */
  function RectToPct(rect: ClientRect, ref: ClientRect): (r: Rect)
    requires ref.width != 0.0 && ref.height != 0.0
    ensures r.x * ref.width == 100.0 * (rect.left - ref.left)
    ensures r.y * ref.height == 100.0 * (rect.top - ref.top)
    ensures (r.x + r.w) * ref.width == 100.0 * (rect.left + rect.width - ref.left)
    ensures (r.y + r.h) * ref.height == 100.0 * (rect.top + rect.height - ref.top)
  {
    Rect(Pct(rect.left - ref.left, ref.width), Pct(rect.top - ref.top, ref.height),
         Pct(rect.width, ref.width), Pct(rect.height, ref.height))
  }

  /** Percent position of a viewport point relative to `ref`. */
  function PointToPct(vx: real, vy: real, ref: ClientRect): Point
    requires ref.width != 0.0 && ref.height != 0.0
  {
    Point(Pct(vx - ref.left, ref.width), Pct(vy - ref.top, ref.height))
  }

  /** Inflates a percent rectangle by a pixel margin on every side, each field clamped to [0, 100]. */
  function ExpandRectPct(rp: Rect, pxMargin: real, ref: ClientRect): (r: Rect)
    requires ref.width != 0.0 && ref.height != 0.0
    ensures InPercentRange(r)
  {
    var mx := Pct(pxMargin, ref.width);
    var my := Pct(pxMargin, ref.height);
    Rect(Clamp(rp.x - mx, 0.0, 100.0), Clamp(rp.y - my, 0.0, 100.0),
         Clamp(rp.w + 2.0 * mx, 0.0, 100.0), Clamp(rp.h + 2.0 * my, 0.0, 100.0))
  }

  predicate InPercentRange(r: Rect) {
    0.0 <= r.x <= 100.0 && 0.0 <= r.y <= 100.0 && 0.0 <= r.w <= 100.0 && 0.0 <= r.h <= 100.0
  }

  /** Strict containment: (px, py) lies inside `rect`, not on its border. */
  predicate Overlaps(px: real, py: real, rect: Rect): (r: bool)
    ensures r ==> rect.w > 0.0 && rect.h > 0.0
    ensures px == rect.x || px == rect.x + rect.w || py == rect.y || py == rect.y + rect.h ==> !r
  {
    px > rect.x && px < rect.x + rect.w && py > rect.y && py < rect.y + rect.h
  }

  /** The square of the Euclidean distance between two points. */
  function DistSq(a: Point, b: Point): real {
    (a.x - b.x) * (a.x - b.x) + (a.y - b.y) * (a.y - b.y)
  }

  /** `distance(a, b) < r`, stated on squared distances (see CloserIsHypotLess).
      No pair is closer than a non-positive bound. */
  predicate Closer(a: Point, b: Point, r: real): (c: bool)
    ensures c ==> r > 0.0
  {
    r > 0.0 && DistSq(a, b) < r * r
  }

  /** The distance test does not depend on the order of the two points. */
  lemma CloserSymmetric(a: Point, b: Point, r: real)
    ensures Closer(a, b, r) == Closer(b, a, r)
  {
  }

  /** Array.prototype.some: whether some element satisfies `p`. */
  function Any<T>(s: seq<T>, p: T -> bool): (r: bool)
    ensures r <==> exists i :: 0 <= i < |s| && p(s[i])
  {
    if s == [] then false else p(s[0]) || Any(s[1..], p)
  }

  /** Closer agrees with comparing the true Euclidean distance `d` (Math.hypot) against `r`. */
  lemma CloserIsHypotLess(a: Point, b: Point, r: real, d: real)
    requires d >= 0.0 && d * d == DistSq(a, b)
    ensures Closer(a, b, r) <==> d < r
  {
    if d < r {
      MulPositive(r - d, r + d);
      assert (r - d) * (r + d) == r * r - d * d;
    } else if r > 0.0 && r < d {
      MulPositive(d - r, d + r);
      assert (d - r) * (d + r) == d * d - r * r;
    }
  }

  lemma MulPositive(a: real, b: real)
    requires a > 0.0 && b > 0.0
    ensures a * b > 0.0
  {
  }

  /** Converting to percent keeps strict containment when the reference has a positive size. */
  lemma RectToPctPreservesInside(vx: real, vy: real, rect: ClientRect, ref: ClientRect)
    requires ref.width > 0.0 && ref.height > 0.0
    ensures var p := PointToPct(vx, vy, ref);
            Overlaps(p.x, p.y, RectToPct(rect, ref)) <==>
            (rect.left < vx < rect.left + rect.width && rect.top < vy < rect.top + rect.height)
  {
  }

  /** The inflated rectangle covers the original one wherever the original lies
      strictly inside the surface, for a non-negative margin. */
  lemma ExpandCovers(px: real, py: real, rp: Rect, pxMargin: real, ref: ClientRect)
    requires ref.width > 0.0 && ref.height > 0.0 && pxMargin >= 0.0
    requires 0.0 < px < 100.0 && 0.0 < py < 100.0
    requires Overlaps(px, py, rp)
    ensures Overlaps(px, py, ExpandRectPct(rp, pxMargin, ref))
  {
  }

  /** A uniform draw in [0, 1) scaled by a non-negative span stays in [0, span), or is 0 for an empty span. */
  lemma ScaledDraw(u: real, span: real)
    requires 0.0 <= u < 1.0 && span >= 0.0
    ensures 0.0 <= u * span <= span
    ensures span > 0.0 ==> u * span < span
  {
  }
}
