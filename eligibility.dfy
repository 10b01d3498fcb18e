/** The eligibility side rail: faint shapes scattered in pixel coordinates to the left
    of the timeline rail, kept clear of the timeline icons (as circles) and apart from
    each other by their own radii. */
module Eligibility {
  import opened Geometry
  import opened Layers

  /** A circle: a placed shape's centre and effective radius, or an icon's avoidance zone. */
  datatype Disc = Disc(center: Point, rad: real)

  /** Pixels kept between the usable area and the rail's centre line. */
  const RailBuffer: real := 16.0
  /** Pixels taken off the usable width (the left edge is left to CSS overflow) and kept
      clear at the top and bottom. */
  const EdgePad: real := 8.0
  /** Pixels added to half an icon's larger side to form its avoidance radius. */
  const IconBuffer: real := 18.0
  /** Extra pixels kept between two placed shapes beyond their radii. */
  const ShapeGap: real := 6.0
  /** The retry budget is this many tries per wanted shape. */
  const TriesPerShape: int := 120

  /** The avoidance circle of one timeline icon, relative to the side panel. */
  function IconZone(icon: ClientRect, side: ClientRect): (z: Disc)
    ensures z.center.x - icon.width / 2.0 == icon.left - side.left
    ensures z.center.y - icon.height / 2.0 == icon.top - side.top
    ensures z.rad >= icon.width / 2.0 + IconBuffer && z.rad >= icon.height / 2.0 + IconBuffer
    ensures z.rad == icon.width / 2.0 + IconBuffer || z.rad == icon.height / 2.0 + IconBuffer
  {
    Disc(Point(icon.left - side.left + icon.width / 2.0, icon.top - side.top + icon.height / 2.0),
         Max(icon.width, icon.height) / 2.0 + IconBuffer)
  }

  /** The horizontal span candidates are drawn from: up to the rail's centre, less the buffers. */
  function XSpan(side: ClientRect, rail: ClientRect): (span: real)
    ensures span >= 0.0
    ensures span >= rail.left - side.left + rail.width / 2.0 - RailBuffer - EdgePad
    ensures span > 0.0 ==> span + EdgePad + RailBuffer == rail.left - side.left + rail.width / 2.0
  {
    var railCenterX := rail.left - side.left + rail.width / 2.0;
    var rightBound := railCenterX - RailBuffer;
    Max(0.0, rightBound - EdgePad)
  }

  /** The target number of shapes: one per 80 px of panel height, at least 8 and at most 14. */
  function ShapeCount(height: real): (count: int)
    ensures 8 <= count <= 14
    ensures 8 < count < 14 ==> count as real - 0.5 <= height / 80.0 < count as real + 0.5
    ensures count == 8 ==> height / 80.0 < 8.5
    ensures count == 14 ==> height / 80.0 >= 13.5
  {
    var n := Round(height / 80.0);
    if n > 14 then 14 else if n < 8 then 8 else n
  }

  /** The effective radius of a shape of size `sz`: half its size, at least 10, plus 10. */
  function ShapeRadius(sz: real): (rad: real)
    ensures 10.0 <= sz < 28.0 ==> 20.0 <= rad < 24.0
    ensures rad >= 20.0
  {
    Max(10.0, sz / 2.0) + 10.0
  }

  /** The candidate drawn from the size, x and y draws of one try. */
  function Candidate(uSize: real, uX: real, uY: real, span: real, height: real): (c: Disc)
    requires 0.0 <= uSize < 1.0 && 0.0 <= uX < 1.0 && span >= 0.0
    ensures 0.0 <= c.center.x <= span && (span > 0.0 ==> c.center.x < span)
    ensures c.center.y == uY * height
    ensures 20.0 <= c.rad < 24.0
  {
    ScaledDraw(uX, span);
    var sz := 10.0 + uSize * 18.0;
    Disc(Point(uX * span, uY * height), ShapeRadius(sz))
  }

  /** The early return of generate: the side panel or the rail has no width or no height. */
  predicate Degenerate(side: ClientRect, rail: ClientRect) {
    side.width == 0.0 || side.height == 0.0 || rail.width == 0.0 || rail.height == 0.0
  }

  /** generate gives up exactly when the side panel or the rail has no area. */
  lemma DegenerateIsNoArea(side: ClientRect, rail: ClientRect)
    ensures Degenerate(side, rail) <==> side.width * side.height == 0.0 || rail.width * rail.height == 0.0
  {
  }

  /** Where a placed shape may lie: inside the vertical band, within the span left of the rail. */
  predicate InBand(d: Disc, side: ClientRect, rail: ClientRect) {
    var span := XSpan(side, rail);
    && EdgePad <= d.center.y <= side.height - EdgePad
    && 0.0 <= d.center.x <= span && (span > 0.0 ==> d.center.x < span)
    && 20.0 <= d.rad < 24.0
  }

  /** No avoidance zone is closer to `d`'s centre than the zone's radius plus `d`'s own. */
  predicate ClearOfZones(d: Disc, zones: seq<Disc>) {
    forall j :: 0 <= j < |zones| ==> !Closer(zones[j].center, d.center, zones[j].rad + d.rad)
  }

  /** Every two placed shapes are further apart than their radii plus the gap. */
  predicate WellSeparated(placed: seq<Disc>) {
    forall i, j :: 0 <= i < j < |placed| ==>
      !Closer(placed[i].center, placed[j].center, placed[i].rad + placed[j].rad + ShapeGap)
  }

  /** Accepting a candidate that keeps its distance from every placed shape keeps them all apart. */
  lemma SeparatedAfterAccept(placed: seq<Disc>, c: Disc)
    requires WellSeparated(placed)
    requires forall i :: 0 <= i < |placed| ==> !Closer(placed[i].center, c.center, placed[i].rad + c.rad + ShapeGap)
    ensures WellSeparated(placed + [c])
  {
  }

  /** `avoid.some(a => distance(a, candidate) < a.rad + candidate.rad)`. */
  predicate NearIcon(avoid: seq<Disc>, c: Disc): (r: bool)
    ensures !r <==> ClearOfZones(c, avoid)
  {
    Any(avoid, (a: Disc) => Closer(a.center, c.center, a.rad + c.rad))
  }

  /** `placed.some(p => distance(p, candidate) < p.rad + candidate.rad + 6)`. */
  predicate Crowds(placed: seq<Disc>, c: Disc): (r: bool)
    ensures !r <==> forall i :: 0 <= i < |placed| ==>
                      !Closer(placed[i].center, c.center, placed[i].rad + c.rad + ShapeGap)
  {
    Any(placed, (p: Disc) => Closer(p.center, c.center, p.rad + c.rad + ShapeGap))
  }

  /** `icons.map(...)`: one avoidance circle per timeline icon, in order. */
  function IconZones(icons: seq<ClientRect>, side: ClientRect): (zones: seq<Disc>)
    ensures |zones| == |icons|
    ensures forall i :: 0 <= i < |icons| ==> zones[i] == IconZone(icons[i], side)
  {
    seq(|icons|, i requires 0 <= i < |icons| => IconZone(icons[i], side))
  }

  /** The shapes the loop of generate ends with, from loop state `tries`, `k` (the next random
      draw) and `placed` on: each try draws a candidate and accepts it exactly when it lies in
      the vertical band and is clear of every icon zone and every placed shape; the run ends at
      `count` shapes or when the budget of tries is spent. */
  function Placement(avoid: seq<Disc>, count: nat, side: ClientRect, rail: ClientRect, rng: nat -> real,
                     tries: nat, k: nat, placed: seq<Disc>): (r: seq<Disc>)
    requires forall k :: 0.0 <= rng(k) < 1.0
    ensures placed <= r
    ensures |placed| <= count ==> |r| <= count
    decreases count * TriesPerShape - tries
  {
    if |placed| >= count || tries >= count * TriesPerShape then placed
    else
      var c := Candidate(rng(k + 2), rng(k + 9), rng(k + 10), XSpan(side, rail), side.height);
      if c.center.y < EdgePad || c.center.y > side.height - EdgePad || NearIcon(avoid, c) || Crowds(placed, c) then
        Placement(avoid, count, side, rail, rng, tries + 1, k + 11, placed)
      else
        Placement(avoid, count, side, rail, rng, tries + 1, k + 11, placed + [c])
  }

  /** A rejected try consumes its eleven draws and leaves the shapes as they are. */
  lemma PlacementRejects(avoid: seq<Disc>, count: nat, side: ClientRect, rail: ClientRect, rng: nat -> real,
                         tries: nat, k: nat, placed: seq<Disc>)
    requires forall k :: 0.0 <= rng(k) < 1.0
    requires |placed| < count && tries < count * TriesPerShape
    requires var c := Candidate(rng(k + 2), rng(k + 9), rng(k + 10), XSpan(side, rail), side.height);
             c.center.y < EdgePad || c.center.y > side.height - EdgePad || NearIcon(avoid, c) || Crowds(placed, c)
    ensures Placement(avoid, count, side, rail, rng, tries, k, placed) ==
            Placement(avoid, count, side, rail, rng, tries + 1, k + 11, placed)
  {
  }

  /** An accepted try keeps its candidate. */
  lemma PlacementAccepts(avoid: seq<Disc>, count: nat, side: ClientRect, rail: ClientRect, rng: nat -> real,
                         tries: nat, k: nat, placed: seq<Disc>)
    requires forall k :: 0.0 <= rng(k) < 1.0
    requires |placed| < count && tries < count * TriesPerShape
    requires var c := Candidate(rng(k + 2), rng(k + 9), rng(k + 10), XSpan(side, rail), side.height);
             !(c.center.y < EdgePad || c.center.y > side.height - EdgePad || NearIcon(avoid, c) || Crowds(placed, c))
    ensures var c := Candidate(rng(k + 2), rng(k + 9), rng(k + 10), XSpan(side, rail), side.height);
            Placement(avoid, count, side, rail, rng, tries, k, placed) ==
            Placement(avoid, count, side, rail, rng, tries + 1, k + 11, placed + [c])
  {
  }

  /** A first candidate inside the band and clear of every icon zone is the first shape placed. */
  lemma FirstTryPlaces(avoid: seq<Disc>, count: nat, side: ClientRect, rail: ClientRect, rng: nat -> real)
    requires forall k :: 0.0 <= rng(k) < 1.0
    requires count >= 1
    requires var c := Candidate(rng(2), rng(9), rng(10), XSpan(side, rail), side.height);
             EdgePad <= c.center.y <= side.height - EdgePad && !NearIcon(avoid, c)
    ensures var r := Placement(avoid, count, side, rail, rng, 0, 0, []);
            |r| >= 1 && r[0] == Candidate(rng(2), rng(9), rng(10), XSpan(side, rail), side.height)
  {
    var c := Candidate(rng(0 + 2), rng(0 + 9), rng(0 + 10), XSpan(side, rail), side.height);
    assert !Crowds([], c);
    assert [] + [c] == [c];
    PlacementAccepts(avoid, count, side, rail, rng, 0, 0, []);
  }

  /** Every shape lies in the band and clear of every zone, and the shapes keep apart. */
  predicate WellPlaced(placed: seq<Disc>, avoid: seq<Disc>, side: ClientRect, rail: ClientRect) {
    && (forall i :: 0 <= i < |placed| ==> InBand(placed[i], side, rail) && ClearOfZones(placed[i], avoid))
    && WellSeparated(placed)
  }

  /** Whatever the draws, the run keeps its shapes well placed. */
  lemma {:induction false} PlacementWellPlaced(avoid: seq<Disc>, count: nat, side: ClientRect, rail: ClientRect,
                                               rng: nat -> real, tries: nat, k: nat, placed: seq<Disc>)
    requires forall k :: 0.0 <= rng(k) < 1.0
    requires WellPlaced(placed, avoid, side, rail)
    ensures WellPlaced(Placement(avoid, count, side, rail, rng, tries, k, placed), avoid, side, rail)
    decreases count * TriesPerShape - tries
  {
    if |placed| < count && tries < count * TriesPerShape {
      var c := Candidate(rng(k + 2), rng(k + 9), rng(k + 10), XSpan(side, rail), side.height);
      if c.center.y < EdgePad || c.center.y > side.height - EdgePad || NearIcon(avoid, c) || Crowds(placed, c) {
        PlacementRejects(avoid, count, side, rail, rng, tries, k, placed);
        PlacementWellPlaced(avoid, count, side, rail, rng, tries + 1, k + 11, placed);
      } else {
        SeparatedAfterAccept(placed, c);
        var next := placed + [c];
        assert forall i :: 0 <= i < |next| ==> InBand(next[i], side, rail) && ClearOfZones(next[i], avoid) by {
          forall i | 0 <= i < |next|
            ensures InBand(next[i], side, rail) && ClearOfZones(next[i], avoid)
          {
            if i < |placed| { assert next[i] == placed[i]; } else { assert next[i] == c; }
          }
        }
        PlacementAccepts(avoid, count, side, rail, rng, tries, k, placed);
        PlacementWellPlaced(avoid, count, side, rail, rng, tries + 1, k + 11, next);
      }
    }
  }

  /** Shapes clear of every zone of `IconZones(icons, side)` keep their distance from each icon. */
  lemma IconsAvoided(placed: seq<Disc>, icons: seq<ClientRect>, side: ClientRect)
    requires forall i :: 0 <= i < |placed| ==> ClearOfZones(placed[i], IconZones(icons, side))
    ensures forall i, j :: 0 <= i < |placed| && 0 <= j < |icons| ==>
              var a := IconZone(icons[j], side);
              !Closer(a.center, placed[i].center, a.rad + placed[i].rad)
  {
    var avoid := IconZones(icons, side);
    forall i, j | 0 <= i < |placed| && 0 <= j < |icons|
      ensures !Closer(IconZone(icons[j], side).center, placed[i].center, IconZone(icons[j], side).rad + placed[i].rad)
    {
      assert ClearOfZones(placed[i], avoid);
      assert avoid[j] == IconZone(icons[j], side);
    }
  }

  /** What every run of the sampler guarantees: shapes in the band, clear of every icon and apart
      from each other, and a passing first candidate placed first. */
  lemma RunProperties(side: ClientRect, rail: ClientRect, icons: seq<ClientRect>, rng: nat -> real)
    requires forall k :: 0.0 <= rng(k) < 1.0
    ensures var r := Placement(IconZones(icons, side), ShapeCount(side.height), side, rail, rng, 0, 0, []);
            forall i :: 0 <= i < |r| ==> InBand(r[i], side, rail)
    ensures var r := Placement(IconZones(icons, side), ShapeCount(side.height), side, rail, rng, 0, 0, []);
            forall i, j :: 0 <= i < |r| && 0 <= j < |icons| ==>
              var a := IconZone(icons[j], side);
              !Closer(a.center, r[i].center, a.rad + r[i].rad)
    ensures WellSeparated(Placement(IconZones(icons, side), ShapeCount(side.height), side, rail, rng, 0, 0, []))
    ensures var r := Placement(IconZones(icons, side), ShapeCount(side.height), side, rail, rng, 0, 0, []);
            var c := Candidate(rng(2), rng(9), rng(10), XSpan(side, rail), side.height);
            EdgePad <= c.center.y <= side.height - EdgePad && !NearIcon(IconZones(icons, side), c) ==>
              |r| >= 1 && r[0] == c
  {
    var avoid := IconZones(icons, side);
    var count := ShapeCount(side.height);
    var r := Placement(avoid, count, side, rail, rng, 0, 0, []);
    PlacementWellPlaced(avoid, count, side, rail, rng, 0, 0, []);
    IconsAvoided(r, icons, side);
    var c := Candidate(rng(2), rng(9), rng(10), XSpan(side, rail), side.height);
    if EdgePad <= c.center.y <= side.height - EdgePad && !NearIcon(avoid, c) {
      FirstTryPlaces(avoid, count, side, rail, rng);
    }
  }

  /** generate: clears the layer, then places shapes by bounded rejection sampling.
      `side` and `rail` are the measured side panel and timeline rail, `icons` the measured
      timeline icons; `rng(k)` is the k-th value Math.random returns. */
  method Generate(layer: ShapeLayer<Disc>, side: ClientRect, rail: ClientRect,
                  icons: seq<ClientRect>, rng: nat -> real)
      returns (placed: seq<Disc>, tries: nat)
    requires forall k :: 0.0 <= rng(k) < 1.0
    modifies layer
    // the layer shows exactly this run's shapes, in acceptance order
    ensures layer.elements == placed
    // an unlaid-out panel or rail gets no shapes and no tries
    ensures Degenerate(side, rail) ==> placed == [] && tries == 0
    ensures |placed| <= ShapeCount(side.height) && tries <= ShapeCount(side.height) * TriesPerShape
    ensures !Degenerate(side, rail) ==>
            |placed| == ShapeCount(side.height) || tries == ShapeCount(side.height) * TriesPerShape
    // the shapes are exactly those the rejection sampler accepts from these draws
    ensures !Degenerate(side, rail) ==>
            placed == Placement(IconZones(icons, side), ShapeCount(side.height), side, rail, rng, 0, 0, [])
    // in particular a first candidate in the band and clear of every icon zone is placed
    ensures var c := Candidate(rng(2), rng(9), rng(10), XSpan(side, rail), side.height);
            !Degenerate(side, rail) && EdgePad <= c.center.y <= side.height - EdgePad &&
            !NearIcon(IconZones(icons, side), c) ==>
              |placed| >= 1 && placed[0] == c
    ensures forall i :: 0 <= i < |placed| ==> InBand(placed[i], side, rail)
    ensures forall i, j :: 0 <= i < |placed| && 0 <= j < |icons| ==>
              var a := IconZone(icons[j], side);
              !Closer(a.center, placed[i].center, a.rad + placed[i].rad)
    ensures forall i, j :: 0 <= i < j < |placed| ==>
              !Closer(placed[i].center, placed[j].center, placed[i].rad + placed[j].rad + ShapeGap)
  {
    layer.Clear();
    placed, tries := [], 0;
    if Degenerate(side, rail) {
      return;
    }
    var avoid := IconZones(icons, side);
    placed, tries := SampleShapes(layer, avoid, ShapeCount(side.height), side, rail, rng);
    RunProperties(side, rail, icons, rng);
  }

  /** The rejection-sampling loop of generate: up to `count` shapes in at most
      `count * TriesPerShape` tries, appended to the layer as they are accepted. */
  method SampleShapes(layer: ShapeLayer<Disc>, avoid: seq<Disc>, count: nat,
                      side: ClientRect, rail: ClientRect, rng: nat -> real)
      returns (placed: seq<Disc>, tries: nat)
    requires forall k :: 0.0 <= rng(k) < 1.0
    requires layer.elements == []
    modifies layer
    ensures layer.elements == placed
    ensures placed == Placement(avoid, count, side, rail, rng, 0, 0, [])
    ensures |placed| <= count && tries <= count * TriesPerShape
    ensures |placed| == count || tries == count * TriesPerShape
  {
    placed, tries := [], 0;
    var span := XSpan(side, rail);
    var k: nat := 0;  // index of the next random draw
    ghost var run := Placement(avoid, count, side, rail, rng, 0, 0, []);
    while |placed| < count && tries < count * TriesPerShape
      invariant tries <= count * TriesPerShape && |placed| <= count
      invariant layer.elements == placed
      invariant Placement(avoid, count, side, rail, rng, tries, k, placed) == run
      decreases count * TriesPerShape - tries
    {
      ghost var tries0, k0 := tries, k;
      tries := tries + 1;
      // draws k, k + 1: type, colour; k + 3 .. k + 8: sway, bob, duration, delay, rotation, opacity;
      // k + 2: size; k + 9, k + 10: position
      var candidate := Candidate(rng(k + 2), rng(k + 9), rng(k + 10), span, side.height);
      k := k + 11;
      if candidate.center.y < EdgePad || candidate.center.y > side.height - EdgePad {
        PlacementRejects(avoid, count, side, rail, rng, tries0, k0, placed);
        continue;
      }
      if NearIcon(avoid, candidate) {
        PlacementRejects(avoid, count, side, rail, rng, tries0, k0, placed);
        continue;
      }
      if Crowds(placed, candidate) {
        PlacementRejects(avoid, count, side, rail, rng, tries0, k0, placed);
        continue;
      }
      PlacementAccepts(avoid, count, side, rail, rng, tries0, k0, placed);
      layer.Append(candidate);
      placed := placed + [candidate];
    }
    assert placed == run;
  }
}
