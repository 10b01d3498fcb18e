/** The hero layer: decorative shapes scattered in percent coordinates over the hero
    section, kept clear of the title, tagline, buttons and title icons and of two
    narrow side gutters, and kept apart from each other. */
module Hero {
  import opened Geometry
  import opened Layers

  // Clearance margins, in pixels, around each kind of foreground element.
  const TitleMargin: real := 36.0
  const TaglineMargin: real := 24.0
  const ButtonMargin: real := 22.0
  const IconMargin: real := 16.0

  /** The fixed left and right gutters, in percent. */
  const LeftGutter: Rect := Rect(0.0, 0.0, 2.5, 100.0)
  const RightGutter: Rect := Rect(97.5, 0.0, 2.5, 100.0)

  /** Candidates with x outside [EdgePad, 100 - EdgePad] are rejected. */
  const EdgePad: real := 2.5
  /** The smallest distance, in percent units, between two placed shapes. */
  const MinGap: real := 6.5
  /** The retry budget is this many tries per wanted shape. */
  const TriesPerShape: int := 140

  /** A measured foreground element and the clearance it asks for. */
  datatype Foreground = Foreground(rect: ClientRect, margin: real)

  function WithMargin(rects: seq<ClientRect>, margin: real): (fg: seq<Foreground>)
    ensures |fg| == |rects|
    ensures forall i :: 0 <= i < |fg| ==> fg[i] == Foreground(rects[i], margin)
  {
    seq(|rects|, i requires 0 <= i < |rects| => Foreground(rects[i], margin))
  }

  /** The elements that exist on the page, in the order the exclusions are built:
      title, tagline, every button, every title icon. A missing element contributes nothing. */
  function ForegroundOf(title: Option<ClientRect>, tagline: Option<ClientRect>,
                        buttons: seq<ClientRect>, titleIcons: seq<ClientRect>): (fg: seq<Foreground>)
    ensures |fg| == (if title.Some? then 1 else 0) + (if tagline.Some? then 1 else 0) + |buttons| + |titleIcons|
    ensures forall i :: 0 <= i < |fg| ==> fg[i].margin > 0.0
  {
    (if title.Some? then [Foreground(title.value, TitleMargin)] else [])
    + (if tagline.Some? then [Foreground(tagline.value, TaglineMargin)] else [])
    + WithMargin(buttons, ButtonMargin)
    + WithMargin(titleIcons, IconMargin)
  }

  /** The exclusion zone of one element: its rectangle in percent of the layer, inflated by its
      margin. Each field lies in [0, 100]; a zone with a positive margin is wider and taller than
      the element wherever the clamps leave it room. */
  function Zone(f: Foreground, ref: ClientRect): (z: Rect)
    requires ref.width != 0.0 && ref.height != 0.0
    ensures InPercentRange(z)
  {
    ExpandRectPct(RectToPct(f.rect, ref), f.margin, ref)
  }

  /** getExclusions: one zone per present foreground element, then the two gutters. */
  function GetExclusions(ref: ClientRect, title: Option<ClientRect>, tagline: Option<ClientRect>,
                         buttons: seq<ClientRect>, titleIcons: seq<ClientRect>): (rects: seq<Rect>)
    requires ref.width != 0.0 && ref.height != 0.0
    ensures var fg := ForegroundOf(title, tagline, buttons, titleIcons);
            && |rects| == |fg| + 2
            && (forall i :: 0 <= i < |fg| ==> rects[i] == Zone(fg[i], ref))
            && rects[|fg|] == LeftGutter && rects[|fg| + 1] == RightGutter
    ensures forall i :: 0 <= i < |rects| ==> InPercentRange(rects[i])
    ensures title.None? && tagline.None? && buttons == [] && titleIcons == [] ==>
            rects == [LeftGutter, RightGutter]
  {
    var fg := ForegroundOf(title, tagline, buttons, titleIcons);
    seq(|fg|, i requires 0 <= i < |fg| => Zone(fg[i], ref)) + [LeftGutter, RightGutter]
  }

  /** Every point strictly inside a foreground element, and strictly inside the layer,
      lies strictly inside that element's exclusion zone. */
  lemma ZoneCoversElement(f: Foreground, ref: ClientRect, p: Point)
    requires ref.width > 0.0 && ref.height > 0.0 && f.margin >= 0.0
    requires 0.0 < p.x < 100.0 && 0.0 < p.y < 100.0
    ensures Overlaps(p.x, p.y, RectToPct(f.rect, ref)) ==> Overlaps(p.x, p.y, Zone(f, ref))
  {
  }

  /** The target number of shapes: one per 100 px of layer width, at least 12 and at most 18. */
  function ShapeCount(width: real): (count: int)
    ensures 12 <= count <= 18
    ensures 12 < count < 18 ==> count as real - 0.5 <= width / 100.0 < count as real + 0.5
    ensures count == 12 ==> width / 100.0 < 12.5
    ensures count == 18 ==> width / 100.0 >= 17.5
  {
    var n := Round(width / 100.0);
    if n > 18 then 18 else if n < 12 then 12 else n
  }

  /** `c` lies strictly inside none of the exclusions. */
  predicate OutsideAll(c: Point, exclusions: seq<Rect>) {
    forall j :: 0 <= j < |exclusions| ==> !Overlaps(c.x, c.y, exclusions[j])
  }

  /** `exclusions.some(r => overlaps(px, py, r))`. */
  predicate InExclusion(exclusions: seq<Rect>, c: Point): (r: bool)
    ensures !r <==> OutsideAll(c, exclusions)
  {
    Any(exclusions, (z: Rect) => Overlaps(c.x, c.y, z))
  }

  /** `placed.some(p => distance(p, candidate) < minGap)`. */
  predicate TooClose(placed: seq<Point>, c: Point): (r: bool)
    ensures !r <==> forall i :: 0 <= i < |placed| ==> !Closer(placed[i], c, MinGap)
  {
    Any(placed, (p: Point) => Closer(p, c, MinGap))
  }

  /** The shapes the loop of generateShapes ends with, from loop state `tries`, `k` (the next
      random draw) and `placed` on: each try draws a candidate and accepts it exactly when it
      passes the edge, exclusion and gap tests; the run ends at `count` shapes or when the
      budget of tries is spent. */
  function Placement(exclusions: seq<Rect>, count: nat, rng: nat -> real,
                     tries: nat, k: nat, placed: seq<Point>): (r: seq<Point>)
    ensures placed <= r
    ensures |placed| <= count ==> |r| <= count
    decreases count * TriesPerShape - tries
  {
    if |placed| >= count || tries >= count * TriesPerShape then placed
    else
      var c := Point(rng(k + 3) * 100.0, rng(k + 4) * 100.0);
      if c.x < EdgePad || c.x > 100.0 - EdgePad || InExclusion(exclusions, c) || TooClose(placed, c) then
        Placement(exclusions, count, rng, tries + 1, k + 5, placed)
      else
        // five draws for the try, six animation draws, a rotation draw unless the type is 'circle'
        var rotation := if (rng(k) * 4.0).Floor != 0 then 1 else 0;
        Placement(exclusions, count, rng, tries + 1, k + 11 + rotation, placed + [c])
  }

  /** A rejected try consumes its five draws and leaves the shapes as they are. */
  lemma PlacementRejects(exclusions: seq<Rect>, count: nat, rng: nat -> real, tries: nat, k: nat, placed: seq<Point>)
    requires |placed| < count && tries < count * TriesPerShape
    requires var c := Point(rng(k + 3) * 100.0, rng(k + 4) * 100.0);
             c.x < EdgePad || c.x > 100.0 - EdgePad || InExclusion(exclusions, c) || TooClose(placed, c)
    ensures Placement(exclusions, count, rng, tries, k, placed) == Placement(exclusions, count, rng, tries + 1, k + 5, placed)
  {
  }

  /** An accepted try keeps its candidate and consumes its animation draws too. */
  lemma PlacementAccepts(exclusions: seq<Rect>, count: nat, rng: nat -> real, tries: nat, k: nat, placed: seq<Point>)
    requires |placed| < count && tries < count * TriesPerShape
    requires var c := Point(rng(k + 3) * 100.0, rng(k + 4) * 100.0);
             !(c.x < EdgePad || c.x > 100.0 - EdgePad || InExclusion(exclusions, c) || TooClose(placed, c))
    ensures var c := Point(rng(k + 3) * 100.0, rng(k + 4) * 100.0);
            var rotation := if (rng(k) * 4.0).Floor != 0 then 1 else 0;
            Placement(exclusions, count, rng, tries, k, placed) ==
            Placement(exclusions, count, rng, tries + 1, k + 11 + rotation, placed + [c])
  {
  }

  /** A first candidate off the side margins and outside every exclusion is the first shape placed. */
  lemma FirstTryPlaces(exclusions: seq<Rect>, count: nat, rng: nat -> real)
    requires count >= 1
    requires EdgePad <= rng(3) * 100.0 <= 100.0 - EdgePad
    requires !InExclusion(exclusions, Point(rng(3) * 100.0, rng(4) * 100.0))
    ensures var r := Placement(exclusions, count, rng, 0, 0, []);
            |r| >= 1 && r[0] == Point(rng(3) * 100.0, rng(4) * 100.0)
  {
    var c := Point(rng(3) * 100.0, rng(4) * 100.0);
    assert !TooClose([], c);
    var rotation := if (rng(0) * 4.0).Floor != 0 then 1 else 0;
    assert [] + [c] == [c];
    assert Placement(exclusions, count, rng, 0, 0, []) == Placement(exclusions, count, rng, 1, 11 + rotation, [c]);
  }

  /** Where a placed shape may lie: off the side margins, anywhere vertically. */
  predicate InPlayArea(p: Point) {
    EdgePad <= p.x <= 100.0 - EdgePad && 0.0 <= p.y < 100.0
  }

  /** Every shape is in the play area and outside every exclusion, and no two are closer than MinGap. */
  predicate WellPlaced(placed: seq<Point>, exclusions: seq<Rect>) {
    && (forall i :: 0 <= i < |placed| ==> InPlayArea(placed[i]) && OutsideAll(placed[i], exclusions))
    && (forall i, j :: 0 <= i < j < |placed| ==> !Closer(placed[i], placed[j], MinGap))
  }

  /** Accepting a candidate that passes all three tests keeps the shapes well placed. */
  lemma WellPlacedAfterAccept(placed: seq<Point>, exclusions: seq<Rect>, c: Point)
    requires WellPlaced(placed, exclusions)
    requires InPlayArea(c) && !InExclusion(exclusions, c) && !TooClose(placed, c)
    ensures WellPlaced(placed + [c], exclusions)
  {
    var s := placed + [c];
    forall i, j | 0 <= i < j < |s|
      ensures !Closer(s[i], s[j], MinGap)
    {
      assert s[i] == placed[i];
      if j == |placed| {
        assert s[j] == c;
      } else {
        assert s[j] == placed[j];
      }
    }
  }

  /** Whatever the draws, the run keeps its shapes well placed. */
  lemma {:induction false} PlacementWellPlaced(exclusions: seq<Rect>, count: nat, rng: nat -> real,
                                               tries: nat, k: nat, placed: seq<Point>)
    requires forall k :: 0.0 <= rng(k) < 1.0
    requires WellPlaced(placed, exclusions)
    ensures WellPlaced(Placement(exclusions, count, rng, tries, k, placed), exclusions)
    decreases count * TriesPerShape - tries
  {
    if |placed| < count && tries < count * TriesPerShape {
      var c := Point(rng(k + 3) * 100.0, rng(k + 4) * 100.0);
      if c.x < EdgePad || c.x > 100.0 - EdgePad || InExclusion(exclusions, c) || TooClose(placed, c) {
        PlacementRejects(exclusions, count, rng, tries, k, placed);
        PlacementWellPlaced(exclusions, count, rng, tries + 1, k + 5, placed);
      } else {
        var rotation := if (rng(k) * 4.0).Floor != 0 then 1 else 0;
        WellPlacedAfterAccept(placed, exclusions, c);
        PlacementAccepts(exclusions, count, rng, tries, k, placed);
        PlacementWellPlaced(exclusions, count, rng, tries + 1, k + 11 + rotation, placed + [c]);
      }
    }
  }

  /** Shapes in the play area and outside every zone built from `fg` avoid the elements themselves,
      except on the layer's top edge. */
  lemma ClearOfForeground(ref: ClientRect, fg: seq<Foreground>, exclusions: seq<Rect>, placed: seq<Point>)
    requires ref.width > 0.0 && ref.height > 0.0
    requires |fg| <= |exclusions|
    requires forall j :: 0 <= j < |fg| ==> fg[j].margin >= 0.0 && exclusions[j] == Zone(fg[j], ref)
    requires WellPlaced(placed, exclusions)
    ensures forall i, j :: 0 <= i < |placed| && 0 <= j < |fg| && 0.0 < placed[i].y ==>
              !Overlaps(placed[i].x, placed[i].y, RectToPct(fg[j].rect, ref))
  {
    forall i, j | 0 <= i < |placed| && 0 <= j < |fg| && 0.0 < placed[i].y
      ensures !Overlaps(placed[i].x, placed[i].y, RectToPct(fg[j].rect, ref))
    {
      assert InPlayArea(placed[i]) && OutsideAll(placed[i], exclusions);
      ZoneCoversElement(fg[j], ref, placed[i]);
    }
  }

  /** What every run of the sampler on a laid-out layer guarantees: shapes in the play area,
      outside every exclusion and apart from each other, a passing first candidate placed first,
      and (on a positively sized layer) no shape on a foreground element off the top edge. */
  lemma RunProperties(ref: ClientRect, title: Option<ClientRect>, tagline: Option<ClientRect>,
                      buttons: seq<ClientRect>, titleIcons: seq<ClientRect>, rng: nat -> real)
    requires forall k :: 0.0 <= rng(k) < 1.0
    requires ref.width != 0.0 && ref.height != 0.0
    ensures var exclusions := GetExclusions(ref, title, tagline, buttons, titleIcons);
            var r := Placement(exclusions, ShapeCount(ref.width), rng, 0, 0, []);
            && (forall i :: 0 <= i < |r| ==> InPlayArea(r[i]))
            && (forall i, j :: 0 <= i < |r| && 0 <= j < |exclusions| ==> !Overlaps(r[i].x, r[i].y, exclusions[j]))
            && (forall i, j :: 0 <= i < j < |r| ==> !Closer(r[i], r[j], MinGap))
            && (EdgePad <= rng(3) * 100.0 <= 100.0 - EdgePad &&
                !InExclusion(exclusions, Point(rng(3) * 100.0, rng(4) * 100.0)) ==>
                  |r| >= 1 && r[0] == Point(rng(3) * 100.0, rng(4) * 100.0))
    ensures ref.width > 0.0 && ref.height > 0.0 ==>
            var r := Placement(GetExclusions(ref, title, tagline, buttons, titleIcons), ShapeCount(ref.width), rng, 0, 0, []);
            var fg := ForegroundOf(title, tagline, buttons, titleIcons);
            forall i, j :: 0 <= i < |r| && 0 <= j < |fg| && 0.0 < r[i].y ==>
              !Overlaps(r[i].x, r[i].y, RectToPct(fg[j].rect, ref))
  {
    var exclusions := GetExclusions(ref, title, tagline, buttons, titleIcons);
    var count := ShapeCount(ref.width);
    var r := Placement(exclusions, count, rng, 0, 0, []);
    PlacementWellPlaced(exclusions, count, rng, 0, 0, []);
    forall i, j | 0 <= i < |r| && 0 <= j < |exclusions|
      ensures !Overlaps(r[i].x, r[i].y, exclusions[j])
    {
      assert OutsideAll(r[i], exclusions);
    }
    if EdgePad <= rng(3) * 100.0 <= 100.0 - EdgePad && !InExclusion(exclusions, Point(rng(3) * 100.0, rng(4) * 100.0)) {
      FirstTryPlaces(exclusions, count, rng);
    }
    if ref.width > 0.0 && ref.height > 0.0 {
      ClearOfForeground(ref, ForegroundOf(title, tagline, buttons, titleIcons), exclusions, r);
    }
  }

  /** generateShapes: clears the layer, then places shapes by bounded rejection sampling.
      `ref` is the layer's measured rectangle and the other rectangles are the measured
      foreground elements; `rng(k)` is the k-th value Math.random returns. */
  method GenerateShapes(layer: ShapeLayer<Point>, ref: ClientRect,
                        title: Option<ClientRect>, tagline: Option<ClientRect>,
                        buttons: seq<ClientRect>, titleIcons: seq<ClientRect>,
                        rng: nat -> real)
      returns (placed: seq<Point>, tries: nat)
    requires forall k :: 0.0 <= rng(k) < 1.0
    modifies layer
    // the layer shows exactly this run's shapes, in acceptance order
    ensures layer.elements == placed
    // an unlaid-out layer gets no shapes and no tries
    ensures ref.width == 0.0 || ref.height == 0.0 ==> placed == [] && tries == 0
    ensures |placed| <= ShapeCount(ref.width) && tries <= ShapeCount(ref.width) * TriesPerShape
    ensures ref.width != 0.0 && ref.height != 0.0 ==>
            |placed| == ShapeCount(ref.width) || tries == ShapeCount(ref.width) * TriesPerShape
    // the shapes are exactly those the rejection sampler accepts from these draws
    ensures ref.width != 0.0 && ref.height != 0.0 ==>
            placed == Placement(GetExclusions(ref, title, tagline, buttons, titleIcons), ShapeCount(ref.width), rng, 0, 0, [])
    // in particular a first candidate that passes the edge and exclusion tests is placed
    ensures ref.width != 0.0 && ref.height != 0.0 && EdgePad <= rng(3) * 100.0 <= 100.0 - EdgePad &&
            !InExclusion(GetExclusions(ref, title, tagline, buttons, titleIcons), Point(rng(3) * 100.0, rng(4) * 100.0)) ==>
              |placed| >= 1 && placed[0] == Point(rng(3) * 100.0, rng(4) * 100.0)
    ensures forall i :: 0 <= i < |placed| ==> InPlayArea(placed[i])
    ensures ref.width != 0.0 && ref.height != 0.0 ==>
            var exclusions := GetExclusions(ref, title, tagline, buttons, titleIcons);
            forall i, j :: 0 <= i < |placed| && 0 <= j < |exclusions| ==>
              !Overlaps(placed[i].x, placed[i].y, exclusions[j])
    ensures forall i, j :: 0 <= i < j < |placed| ==> !Closer(placed[i], placed[j], MinGap)
    // consequently no shape lies on a foreground element (the top edge row excepted)
    ensures ref.width > 0.0 && ref.height > 0.0 ==>
            var fg := ForegroundOf(title, tagline, buttons, titleIcons);
            forall i, j :: 0 <= i < |placed| && 0 <= j < |fg| && 0.0 < placed[i].y ==>
              !Overlaps(placed[i].x, placed[i].y, RectToPct(fg[j].rect, ref))
  {
    layer.Clear();
    placed, tries := [], 0;
    if ref.width == 0.0 || ref.height == 0.0 {
      return;
    }
    var exclusions := GetExclusions(ref, title, tagline, buttons, titleIcons);
    placed, tries := SampleShapes(layer, exclusions, ShapeCount(ref.width), rng);
    RunProperties(ref, title, tagline, buttons, titleIcons, rng);
  }

  /** The rejection-sampling loop of generateShapes: up to `count` shapes in at most
      `count * TriesPerShape` tries, appended to the layer as they are accepted. */
  method SampleShapes(layer: ShapeLayer<Point>, exclusions: seq<Rect>, count: nat, rng: nat -> real)
      returns (placed: seq<Point>, tries: nat)
    requires layer.elements == []
    modifies layer
    ensures layer.elements == placed
    ensures placed == Placement(exclusions, count, rng, 0, 0, [])
    ensures |placed| <= count && tries <= count * TriesPerShape
    ensures |placed| == count || tries == count * TriesPerShape
  {
    placed, tries := [], 0;
    var k: nat := 0;  // index of the next random draw
    ghost var run := Placement(exclusions, count, rng, 0, 0, []);
    while |placed| < count && tries < count * TriesPerShape
      invariant tries <= count * TriesPerShape && |placed| <= count
      invariant layer.elements == placed
      invariant Placement(exclusions, count, rng, tries, k, placed) == run
      decreases count * TriesPerShape - tries
    {
      ghost var tries0, k0 := tries, k;
      tries := tries + 1;
      // draws k, k + 1, k + 2: type (0 is 'circle'), colour, size
      var shapeType := (rng(k) * 4.0).Floor;
      var px := rng(k + 3) * 100.0;
      var py := rng(k + 4) * 100.0;
      k := k + 5;
      var candidate := Point(px, py);
      if px < EdgePad || px > 100.0 - EdgePad {
        PlacementRejects(exclusions, count, rng, tries0, k0, placed);
        continue;
      }
      if InExclusion(exclusions, candidate) {
        PlacementRejects(exclusions, count, rng, tries0, k0, placed);
        continue;
      }
      if TooClose(placed, candidate) {
        PlacementRejects(exclusions, count, rng, tries0, k0, placed);
        continue;
      }
      PlacementAccepts(exclusions, count, rng, tries0, k0, placed);
      // six animation draws, and a rotation draw for every type but the circle
      k := k + 6 + (if shapeType != 0 then 1 else 0);
      layer.Append(candidate);
      placed := placed + [candidate];
    }
    assert placed == run;
  }
}
