# Coding Club website: shape placement and meeting date, in Dafny

This project models the algorithmic core of the club website's enhancement script `script.js`.
It covers three parts.

- **Hero shapes.** Decorative shapes are scattered over the hero section in percent coordinates. The
  exclusion list is built from the measured title, tagline, buttons and title icons. Each rectangle is
  inflated by a pixel margin and clamped to the layer, and two fixed side gutters are added. A bounded
  rejection-sampling loop then places up to 12–18 shapes. It rejects candidates near the side edges,
  strictly inside an exclusion zone, or closer than 6.5 to a shape already placed.
- **Eligibility side-rail shapes.** The same loop shape works in pixel coordinates left of the
  timeline rail. Icons are avoided as circles. Shapes are kept apart by their own radii plus 6 px,
  and a vertical padding band applies. 8–14 shapes are wanted.
- **Next meeting date.** `nthFriday` walks from the 1st of a month to its first Friday, then adds
  whole weeks. `nextFirstOrThirdFriday` picks this month's first Friday, this month's third Friday,
  or next month's first Friday.

Each placement run first clears its layer (the `ShapeLayer` class). It then appends one element per
accepted shape. The rendered shapes are therefore exactly the shapes accepted in that run, in order,
whatever the layer held before.

Browser inputs become parameters:
- A `ClientRect` stands for each `getBoundingClientRect()` measurement. `Option` marks an element
  that may be missing.
- A function `rng: nat -> real` with values in [0, 1) stands for successive `Math.random()` calls.
  The loops consume draws in the source's order: five per hero try, plus six or seven more on
  acceptance; eleven per eligibility try.
- Numbers are `real`. `Math.hypot(...) < r` becomes `Closer`, a squared-distance test, and the lemma
  `CloserIsHypotLess` shows the two agree. `Math.round` is `floor(x + 0.5)`.
- Dates use the proleptic Gregorian calendar in local time. Months are numbered 0–11 and `getDay()`
  numbering is used. `setDate` overflow is carried into neighbouring months (`Normalize`). `from` is
  a date plus milliseconds since midnight, compared through a timestamp.

Modules: `Geometry` (the hero helpers), `Layers`, `Hero`, `Eligibility`, `Calendar`, `Meetings`.

## Model

| member | source | states |
|---|---|---|
| Geometry.Pct | script.js:61 | the percentage times the total is 100 times the value |
| Geometry.Clamp | script.js:62 | with lo ≤ hi the result lies in [lo, hi]; it is v when v is in range, otherwise the bound v passed; with hi < lo it is lo |
| Geometry.Round | script.js:125 | the result is the integer within half a unit of x (halves round up), as Math.round |
| Geometry.RectToPct | script.js:64-71 | each edge of the result (left, top, right, bottom) is that edge's offset from the reference's corner, as a percentage of the reference's width or height |
| Geometry.RectToPctPreservesInside | script.js:64-71 | converting to percent of a positively sized reference keeps strict containment of a point, in both directions |
| Geometry.ExpandRectPct | script.js:73-82 | every field of the inflated rectangle lies in [0, 100] |
| Geometry.ExpandCovers | script.js:73-82 | for a non-negative margin, a point strictly inside the original rectangle and strictly inside the surface is strictly inside the inflated one |
| Geometry.Overlaps | script.js:84-86 | containment is strict: a point on any edge is not inside, and a rectangle of zero width or height contains nothing |
| Geometry.Closer | script.js:88 | no two points are closer than a bound that is not positive |
| Geometry.CloserSymmetric | script.js:88 | the distance test gives the same answer with its two points swapped |
| Geometry.CloserIsHypotLess | script.js:88 | the squared-distance test agrees with comparing the Euclidean distance against r, for every r |
| Geometry.Any | script.js:144 | true exactly when some element satisfies the predicate, as Array.prototype.some |
| Geometry.ScaledDraw | script.js:235 | a draw in [0, 1) times a span ≥ 0 lies in [0, span] and below span when span > 0 |
| Layers.ShapeLayer.Clear | script.js:120 | after clearing the layer holds no shapes |
| Layers.ShapeLayer.Append | script.js:176 | the new shape is rendered after all earlier ones and nothing else changes |
| Hero.ForegroundOf | script.js:95-110 | one entry per element present, each with a positive margin; a missing title or tagline contributes none |
| Hero.Zone | script.js:94-110 | every field of an element's exclusion zone lies in [0, 100] |
| Hero.GetExclusions | script.js:90-117 | one zone per present element in the source's order, each its rectangle in percent inflated by its margin; then the left and right gutters; every field of every zone lies in [0, 100] (a zone may still extend past the surface's right or bottom edge, since x and w are clamped separately); only the gutters when no element is present |
| Hero.ZoneCoversElement | script.js:94-110 | a point strictly inside a foreground element and strictly inside the layer is strictly inside that element's zone |
| Hero.ShapeCount | script.js:125 | the count is between 12 and 18; strictly between them it is width/100 rounded; 12 means width/100 < 12.5 and 18 means width/100 ≥ 17.5 |
| Hero.InExclusion | script.js:144 | a candidate passes the exclusion test exactly when it lies strictly inside none of the exclusions |
| Hero.TooClose | script.js:146-149 | a candidate passes the gap test exactly when no placed shape is closer than 6.5 |
| Hero.Placement | script.js:128-178 | the reference run of the sampler: it only ever extends the shapes already placed, and never beyond `count` of them |
| Hero.PlacementRejects | script.js:141-149 | a try that fails the edge, exclusion or gap test leaves the shapes as they are and consumes five draws |
| Hero.PlacementAccepts | script.js:151-177 | a try that passes all three tests appends its candidate and consumes eleven draws, or twelve when the type is not 'circle' |
| Hero.FirstTryPlaces | script.js:129-177 | a first candidate off the side margins and outside every exclusion is the first shape placed |
| Hero.WellPlacedAfterAccept | script.js:141-177 | accepting a candidate that passes all three tests keeps every shape in the play area, outside every exclusion and at least 6.5 from every other |
| Hero.PlacementWellPlaced | script.js:128-178 | whatever the draws, a run keeps its shapes in the play area, outside every exclusion and pairwise at least 6.5 apart |
| Hero.ClearOfForeground | script.js:94-110 | shapes outside every zone are on no foreground element, except on the layer's top edge |
| Hero.RunProperties | script.js:119-179 | every run on a laid-out layer places shapes in the play area, outside every exclusion and pairwise apart; it places a passing first candidate first; and off the top edge, no shape lies on a foreground element |
| Hero.SampleShapes | script.js:126-178 | the layer ends up showing exactly the placed shapes; they are the reference run from these draws; at most count shapes and count·140 tries, stopping only when one of the two is reached |
| Hero.GenerateShapes | script.js:119-179 | the layer ends up showing exactly the placed shapes; a zero-sized layer gets no shapes and no tries; otherwise the shapes are exactly those the rejection sampler accepts from the draws, so a passing first candidate is placed first; at most count shapes and count·140 tries, and the loop stops only when one of the two is reached; every shape has 2.5 ≤ x ≤ 97.5 and 0 ≤ y < 100, lies strictly inside no exclusion zone, and is at distance ≥ 6.5 from every other; so no shape with y > 0 lies on a foreground element |
| Eligibility.IconZone | script.js:213-216 | the zone is centred on the icon and its radius is half the icon's larger side plus 18 |
| Eligibility.XSpan | script.js:207-210 | the span is max(0, railCenterX − 24): never negative, never below railCenterX − 8 − 16, and equal to it when positive |
| Eligibility.ShapeCount | script.js:218 | the count is between 8 and 14; strictly between them it is height/80 rounded; 8 means height/80 < 8.5 and 14 means height/80 ≥ 13.5 |
| Eligibility.ShapeRadius | script.js:241 | the radius is at least 20, and below 24 for sizes in [10, 28) |
| Eligibility.Candidate | script.js:226-241 | the candidate's x lies in [0, span] (below span when span > 0), its y is the draw times the panel height, and its radius lies in [20, 24) |
| Eligibility.SeparatedAfterAccept | script.js:247 | adding a candidate that keeps its distance from every placed shape keeps all shapes pairwise apart |
| Eligibility.DegenerateIsNoArea | script.js:205 | generate gives up exactly when the side panel or the rail has zero area |
| Eligibility.NearIcon | script.js:244 | a candidate passes the icon test exactly when it is clear of every icon zone by the zone's radius plus its own |
| Eligibility.Crowds | script.js:247 | a candidate passes the spacing test exactly when it is clear of every placed shape by their radii plus 6 |
| Eligibility.IconZones | script.js:213-216 | one avoidance circle per icon, in icon order |
| Eligibility.Placement | script.js:221-264 | the reference run of the sampler: it only ever extends the shapes already placed, and never beyond `count` of them |
| Eligibility.PlacementRejects | script.js:239-247 | a try that fails the band, icon or spacing test leaves the shapes as they are and consumes eleven draws |
| Eligibility.PlacementAccepts | script.js:249-263 | a try that passes all three tests appends its candidate and also consumes eleven draws |
| Eligibility.FirstTryPlaces | script.js:222-263 | a first candidate inside the band and clear of every icon zone is the first shape placed |
| Eligibility.PlacementWellPlaced | script.js:221-264 | whatever the draws, a run keeps its shapes in the band, clear of every icon zone and pairwise apart |
| Eligibility.IconsAvoided | script.js:244 | shapes clear of the list of icon zones keep their distance from each icon's own circle |
| Eligibility.RunProperties | script.js:201-265 | every run places shapes in the band, clear of every icon and pairwise apart, and places a passing first candidate first |
| Eligibility.SampleShapes | script.js:219-264 | the layer ends up showing exactly the placed shapes; they are the reference run from these draws; at most count shapes and count·120 tries, stopping only when one of the two is reached |
| Eligibility.Generate | script.js:201-265 | the layer shows exactly the placed shapes; a zero-sized panel or rail gets no shapes and no tries; otherwise the shapes are exactly those the rejection sampler accepts from the draws, so a passing first candidate is placed first; at most count shapes and count·120 tries, stopping only when one is reached; every shape has 8 ≤ y ≤ height − 8, 0 ≤ x ≤ span (x < span when span > 0) and radius in [20, 24); its distance to every icon centre is ≥ that icon's radius plus its own; any two shapes are at distance ≥ their radii plus 6 |
| Calendar.DaysInMonth | script.js:280 | every month has 28 to 31 days, and 29 exactly for February of a leap year |
| Calendar.Weekday | script.js:280 | the weekday is in 0..6 |
| Calendar.WeekdayAnchors | script.js:278 | the numbering gives Monday for 1 January 2024, Wednesday for 1 March 2000 and Friday (5) for 3 October 2025 |
| Calendar.YearStep | script.js:291 | consecutive years start as many days apart as the Gregorian leap rule says |
| Calendar.NextMonthShift | script.js:291 | day d of the next month is day d + (days in this month) of this month, across December too |
| Calendar.Normalize | script.js:280-281 | setDate's result is a valid date and the same absolute day as the overflowing day-of-month |
| Calendar.DateNumberOrder | script.js:288-289 | for valid dates, calendar order and day-number order agree, and so do equality |
| Calendar.WeekdayShift | script.js:281 | adding whole weeks keeps the weekday |
| Calendar.FirstFridayDay | script.js:280 | the first Friday falls on day 1..7 and no earlier day of the month is a Friday |
| Calendar.NthFridayUnique | script.js:281 | the n-th Friday of a month is the first Friday plus n − 1 weeks |
| Meetings.BeforeMidnight | script.js:288-289 | an instant is before a date's midnight exactly when its day is earlier |
| Meetings.NthFriday | script.js:277-283 | the result is a valid Friday exactly n − 1 weeks after the month's first Friday; for n in 1..4 it is the n-th Friday of that same month |
| Meetings.NextFirstOrThirdFriday | script.js:276-293 | the result is a first or third Friday, begins strictly after `from`, and no first or third Friday begins after `from` and before it |
| Meetings.NextMeetingIsEarliest | script.js:284-292 | each of the three selections yields a first or third Friday strictly after `from` with none in between |
| Meetings.NoMeetingBetween | script.js:288-292 | in day numbers: no first or third Friday after today comes before the one selected |
| Meetings.MeetingOrder | script.js:288-292 | in calendar order: no first or third Friday after today comes before the one selected |

## Left out

- The mobile navigation toggle, the mouse/keyboard focus class and the section glow observer (script.js:1-18, 39-44, 314-335): these are event handlers that only toggle classes.
- Both form handlers (script.js:20-36, 337-379): they rely on native form validation and a `fetch` POST to an external endpoint.
- The debounced reflow and event registration (script.js:181-185, 267-270): timers and browser lifecycle events. Each run is modelled as one synchronous call.
- The per-shape presentation parameters (type, colour, durations, delays, amplitudes, rotation, opacity) and their string formatting (script.js:132-134, 151-174, 224-232, 249-260). They are not modelled beyond the random draws they consume. The hero type draw is kept because it decides whether a rotation is drawn. The eligibility size is kept because it gives the radius. The same goes for the meetings background randomisation (script.js:305-310).
- DOM queries and element creation (script.js:51-58, 190-194): measurements are inputs, and a rendered shape is its point (hero) or its circle (eligibility). These are not modelled: the selector fallbacks, the early return when the layer, side panel or rail is missing, and the `document.body` fallback for the hero.
- The month name and day text written to the page (script.js:295-302): locale formatting.
- IEEE floating point: NaN measurements (which `!ref.width` also rejects), rounding in division, `Math.hypot` and `Math.floor` are replaced by exact real arithmetic.
- Time zones and daylight-saving shifts: dates are local calendar days, and an instant is a day plus milliseconds since midnight. JavaScript's mapping of years 0–99 to 1900–1999 in `new Date(y, m, 1)` and its ±275760-year range are not modelled.
- Meetings.NthFriday: requires a month in 0..11. Its only callers pass `getMonth()` or `(m + 1) % 12`, so month overflow in the `Date` constructor is not modelled.
