/** The map projection of map_renderer.h, over exact reals. */
module SphereProjector {
  import opened Wrappers
  import opened CatalogueState

  const EPSILON: real := 0.000001

  datatype Point = Point(x: real, y: real)

  predicate IsZero(value: real) {
    -EPSILON < value < EPSILON
  }

  /** EPSILON is a millionth. */
  lemma IsZeroMeans(value: real)
    ensures IsZero(value) <==> -1.0 < value * 1000000.0 < 1.0
  {
  }

  /** Least and greatest of the values, which both occur. */
  predicate IsRange(values: seq<real>, low: real, high: real) {
    low in values && high in values && forall m :: 0 <= m < |values| ==> low <= values[m] <= high
  }

  function Least(values: seq<real>): (low: real)
    requires values != []
    ensures low in values && forall m :: 0 <= m < |values| ==> low <= values[m]
  {
    if |values| == 1 then values[0]
    else
      var rest := Least(values[1..]);
      if values[0] <= rest then values[0] else rest
  }

  function Greatest(values: seq<real>): (high: real)
    requires values != []
    ensures high in values && forall m :: 0 <= m < |values| ==> values[m] <= high
  {
    if |values| == 1 then values[0]
    else
      var rest := Greatest(values[1..]);
      if values[0] >= rest then values[0] else rest
  }

  /** How far the values spread. */
  function Span(values: seq<real>): real
    requires values != []
  {
    Greatest(values) - Least(values)
  }

  lemma RangeDetermined(values: seq<real>, low: real, high: real)
    requires values != [] && IsRange(values, low, high)
    ensures low == Least(values) && high == Greatest(values)
  {
  }

  function Longitudes(points: seq<Coordinates>): seq<real> {
    seq(|points|, m requires 0 <= m < |points| => points[m].lng)
  }

  function Latitudes(points: seq<Coordinates>): seq<real> {
    seq(|points|, m requires 0 <= m < |points| => points[m].lat)
  }

  method MinMaxElement(values: seq<real>) returns (low: real, high: real)
    requires values != []
    ensures IsRange(values, low, high)
  {
    low, high := values[0], values[0];
    for m := 1 to |values|
      invariant low in values && high in values
      invariant forall l :: 0 <= l < m ==> low <= values[l] <= high
    {
      if values[m] < low {
        low := values[m];
      }
      if values[m] > high {
        high := values[m];
      }
    }
  }

  function Zoom(room: real, span: real): Option<real> {
    if IsZero(span) then None else Some(room / span)
  }

  function Coefficient(width: Option<real>, height: Option<real>): real {
    if width.Some? && height.Some? then (if height.value < width.value then height.value else width.value)
    else if width.Some? then width.value
    else if height.Some? then height.value
    else 0.0
  }

  /** Origin and scale for the points: their ranges decide, and the room on either axis. */
  predicate Fitted(points: seq<Coordinates>, roomX: real, roomY: real, minLon: real, maxLat: real, zoom: real) {
    if points == [] then minLon == 0.0 && maxLat == 0.0 && zoom == 0.0
    else
      && minLon == Least(Longitudes(points)) && maxLat == Greatest(Latitudes(points))
      && zoom == Coefficient(Zoom(roomX, Span(Longitudes(points))), Zoom(roomY, Span(Latitudes(points))))
  }

  lemma ZoomOfRange(room: real, values: seq<real>, low: real, high: real)
    requires values != [] && IsRange(values, low, high)
    ensures low == Least(values) && high == Greatest(values) && Zoom(room, Span(values)) == Zoom(room, high - low)
  {
    RangeDetermined(values, low, high);
  }

  lemma FittedByRanges(points: seq<Coordinates>, roomX: real, roomY: real,
                       minLon: real, maxLon: real, minLat: real, maxLat: real,
                       widthZoom: Option<real>, heightZoom: Option<real>)
    requires points != []
    requires IsRange(Longitudes(points), minLon, maxLon) && IsRange(Latitudes(points), minLat, maxLat)
    requires widthZoom == Zoom(roomX, maxLon - minLon) && heightZoom == Zoom(roomY, maxLat - minLat)
    ensures Fitted(points, roomX, roomY, minLon, maxLat, Coefficient(widthZoom, heightZoom))
  {
    ZoomOfRange(roomX, Longitudes(points), minLon, maxLon);
    ZoomOfRange(roomY, Latitudes(points), minLat, maxLat);
  }

  class SphereProjector {
    const padding: real
    const minLon: real
    const maxLat: real
    const zoomCoeff: real

    /** The projector fits these points onto a canvas of this size. */
    predicate FittedTo(points: seq<Coordinates>, maxWidth: real, maxHeight: real) {
      Fitted(points, maxWidth - 2.0 * padding, maxHeight - 2.0 * padding, minLon, maxLat, zoomCoeff)
    }

    constructor (points: seq<Coordinates>, maxWidth: real, maxHeight: real, padding: real)
      ensures this.padding == padding && FittedTo(points, maxWidth, maxHeight)
    {
      this.padding := padding;
      if points == [] {
        minLon, maxLat, zoomCoeff := 0.0, 0.0, 0.0;
      } else {
        var left, right := MinMaxElement(Longitudes(points));
        var bottom, top := MinMaxElement(Latitudes(points));
        var widthZoom: Option<real> := None;
        if !IsZero(right - left) {
          widthZoom := Some((maxWidth - 2.0 * padding) / (right - left));
        }
        assert widthZoom == Zoom(maxWidth - 2.0 * padding, right - left);
        var heightZoom: Option<real> := None;
        if !IsZero(top - bottom) {
          heightZoom := Some((maxHeight - 2.0 * padding) / (top - bottom));
        }
        assert heightZoom == Zoom(maxHeight - 2.0 * padding, top - bottom);
        var zoom := 0.0;
        if widthZoom.Some? && heightZoom.Some? {
          zoom := if heightZoom.value < widthZoom.value then heightZoom.value else widthZoom.value;
        } else if widthZoom.Some? {
          zoom := widthZoom.value;
        } else if heightZoom.Some? {
          zoom := heightZoom.value;
        }
        assert zoom == Coefficient(widthZoom, heightZoom);
        FittedByRanges(points, maxWidth - 2.0 * padding, maxHeight - 2.0 * padding, left, right, bottom, top,
                       widthZoom, heightZoom);
        minLon, maxLat, zoomCoeff := left, top, zoom;
      }
    }

    function Project(coords: Coordinates): Point {
      Place(coords, padding, minLon, maxLat, zoomCoeff)
    }

    /** The north-western corner of the points lands at the padding; from there x grows eastwards and y southwards,
        both by the same scale. */
    lemma ProjectMeans(a: Coordinates, b: Coordinates)
      ensures Project(Coordinates(maxLat, minLon)) == Point(padding, padding)
      ensures Project(b).x - Project(a).x == (b.lng - a.lng) * zoomCoeff
      ensures Project(b).y - Project(a).y == (a.lat - b.lat) * zoomCoeff
    {
    }

    /** Every point lands inside the padding if and only if the rooms admit the spans. */
    lemma ProjectsInsideIff(points: seq<Coordinates>, width: real, height: real)
      requires FittedTo(points, width, height)
      ensures (forall m :: 0 <= m < |points| ==> Inside(Project(points[m]), width, height, padding)) <==>
              points == [] || RoomsAdmit(width - 2.0 * padding, Span(Longitudes(points)),
                                         height - 2.0 * padding, Span(Latitudes(points)))
    {
      if points != [] {
        FitAdmits(points, width, height, padding, minLon, maxLat, zoomCoeff);
        assert AllInside(points, width, height, padding, minLon, maxLat, zoomCoeff) <==>
               forall m :: 0 <= m < |points| ==> Inside(Project(points[m]), width, height, padding);
      }
    }

    /** The points fill an axis from edge to edge if and only if some span does not count as zero, or an axis
        has no room to fill. */
    lemma FillsAnAxisIff(points: seq<Coordinates>, width: real, height: real)
      requires FittedTo(points, width, height) && points != []
      ensures FillsAnAxis(points, width, height, padding, minLon, maxLat, zoomCoeff) <==>
              || !IsZero(Span(Longitudes(points))) || !IsZero(Span(Latitudes(points)))
              || width == 2.0 * padding || height == 2.0 * padding
    {
      FitFills(points, width, height, padding, minLon, maxLat, zoomCoeff);
    }

    /** When no span is positive yet below EPSILON and the canvas is at least twice the padding, every point lies
        inside the padding; and if some span is positive, one axis is filled from edge to edge. */
    lemma PointsProjectInside(points: seq<Coordinates>, width: real, height: real)
      requires FittedTo(points, width, height) && points != []
      requires ClearSpan(Span(Longitudes(points))) && ClearSpan(Span(Latitudes(points)))
      requires width >= 2.0 * padding && height >= 2.0 * padding
      ensures forall m :: 0 <= m < |points| ==> Inside(Project(points[m]), width, height, padding)
      ensures Span(Longitudes(points)) > 0.0 || Span(Latitudes(points)) > 0.0 ==>
                FillsAnAxis(points, width, height, padding, minLon, maxLat, zoomCoeff)
    {
      var spanX, spanY := Span(Longitudes(points)), Span(Latitudes(points));
      ClearSpansAdmitted(width - 2.0 * padding, spanX, height - 2.0 * padding, spanY);
      ProjectsInsideIff(points, width, height);
      FillsAnAxisIff(points, width, height);
    }
  }

  function Place(coords: Coordinates, padding: real, minLon: real, maxLat: real, zoom: real): Point {
    Point((coords.lng - minLon) * zoom + padding, (maxLat - coords.lat) * zoom + padding)
  }

  /** The rectangle left inside the padding. */
  predicate Inside(p: Point, width: real, height: real, padding: real) {
    padding <= p.x <= width - padding && padding <= p.y <= height - padding
  }

  // ---- Where the points go

  lemma MulMonotone(a: real, b: real, z: real)
    requires a <= b && z >= 0.0
    ensures a * z <= b * z
  {
  }

  lemma ZoomFits(room: real, span: real, zoom: real)
    requires span > 0.0 && zoom <= room / span
    ensures span * zoom <= room
  {
    MulMonotone(zoom, room / span, span);
    assert (room / span) * span == room;
  }

  lemma ZoomNonNegative(room: real, span: real)
    requires room >= 0.0 && span > 0.0
    ensures room / span >= 0.0
  {
  }

  /** A span that is zero or counts as non-zero. */
  predicate ClearSpan(span: real) {
    span == 0.0 || span >= EPSILON
  }

  lemma CoefficientFits(roomX: real, spanX: real, roomY: real, spanY: real)
    requires roomX >= 0.0 && roomY >= 0.0 && ClearSpan(spanX) && ClearSpan(spanY)
    ensures var zoom := Coefficient(Zoom(roomX, spanX), Zoom(roomY, spanY));
      && zoom >= 0.0 && spanX * zoom <= roomX && spanY * zoom <= roomY
      && (spanX > 0.0 || spanY > 0.0 ==>
            (spanX > 0.0 && spanX * zoom == roomX) || (spanY > 0.0 && spanY * zoom == roomY))
  {
    var zoom := Coefficient(Zoom(roomX, spanX), Zoom(roomY, spanY));
    if spanX > 0.0 {
      ZoomNonNegative(roomX, spanX);
      ZoomFits(roomX, spanX, zoom);
      assert spanX * (roomX / spanX) == roomX;
    }
    if spanY > 0.0 {
      ZoomNonNegative(roomY, spanY);
      ZoomFits(roomY, spanY, zoom);
      assert spanY * (roomY / spanY) == roomY;
    }
  }

  /** One coordinate: the offset of a value within its span, scaled, stays between nothing and the scaled span. */
  lemma OffsetFits(value: real, low: real, high: real, zoom: real)
    requires low <= value <= high && zoom >= 0.0
    ensures 0.0 <= (value - low) * zoom <= (high - low) * zoom
    ensures 0.0 <= (high - value) * zoom <= (high - low) * zoom
  {
    MulMonotone(0.0, value - low, zoom);
    MulMonotone(value - low, high - low, zoom);
    MulMonotone(0.0, high - value, zoom);
    MulMonotone(high - value, high - low, zoom);
  }

  predicate SpansFit(roomX: real, spanX: real, roomY: real, spanY: real, zoom: real) {
    spanX * zoom <= roomX && spanY * zoom <= roomY
  }

  predicate SpanFills(roomX: real, spanX: real, roomY: real, spanY: real, zoom: real) {
    spanX * zoom == roomX || spanY * zoom == roomY
  }

  predicate AllInside(points: seq<Coordinates>, width: real, height: real, padding: real,
                      minLon: real, maxLat: real, zoom: real)
  {
    forall m :: 0 <= m < |points| ==> Inside(Place(points[m], padding, minLon, maxLat, zoom), width, height, padding)
  }

  lemma SpansFitInside(points: seq<Coordinates>, width: real, height: real, padding: real,
                       minLon: real, maxLon: real, minLat: real, maxLat: real, zoom: real)
    requires IsRange(Longitudes(points), minLon, maxLon) && IsRange(Latitudes(points), minLat, maxLat) && zoom >= 0.0
    requires SpansFit(width - 2.0 * padding, maxLon - minLon, height - 2.0 * padding, maxLat - minLat, zoom)
    ensures AllInside(points, width, height, padding, minLon, maxLat, zoom)
  {
    forall m | 0 <= m < |points|
      ensures Inside(Place(points[m], padding, minLon, maxLat, zoom), width, height, padding)
    {
      assert minLon <= Longitudes(points)[m] <= maxLon && minLat <= Latitudes(points)[m] <= maxLat;
      OffsetFits(points[m].lng, minLon, maxLon, zoom);
      OffsetFits(points[m].lat, minLat, maxLat, zoom);
    }
  }

  lemma PointAt(values: seq<real>, value: real) returns (m: nat)
    requires value in values
    ensures m < |values| && values[m] == value
  {
    m :| 0 <= m < |values| && values[m] == value;
  }

  lemma FarCorner(c: Coordinates, padding: real, minLon: real, maxLon: real, minLat: real, maxLat: real, zoom: real)
    ensures c.lng == maxLon ==> Place(c, padding, minLon, maxLat, zoom).x == (maxLon - minLon) * zoom + padding
    ensures c.lat == minLat ==> Place(c, padding, minLon, maxLat, zoom).y == (maxLat - minLat) * zoom + padding
  {
  }

  lemma InsideSpansFit(points: seq<Coordinates>, width: real, height: real, padding: real,
                       minLon: real, maxLon: real, minLat: real, maxLat: real, zoom: real)
    requires IsRange(Longitudes(points), minLon, maxLon) && IsRange(Latitudes(points), minLat, maxLat)
    requires AllInside(points, width, height, padding, minLon, maxLat, zoom)
    ensures SpansFit(width - 2.0 * padding, maxLon - minLon, height - 2.0 * padding, maxLat - minLat, zoom)
  {
    var right := PointAt(Longitudes(points), maxLon);
    var bottom := PointAt(Latitudes(points), minLat);
    FarCorner(points[right], padding, minLon, maxLon, minLat, maxLat, zoom);
    FarCorner(points[bottom], padding, minLon, maxLon, minLat, maxLat, zoom);
    assert Inside(Place(points[right], padding, minLon, maxLat, zoom), width, height, padding);
    assert Inside(Place(points[bottom], padding, minLon, maxLat, zoom), width, height, padding);
  }

  /** With a scale that is not negative, all points lie inside exactly when both scaled spans fit the room. */
  lemma InsideIffSpansFit(points: seq<Coordinates>, width: real, height: real, padding: real,
                          minLon: real, maxLon: real, minLat: real, maxLat: real, zoom: real)
    requires IsRange(Longitudes(points), minLon, maxLon) && IsRange(Latitudes(points), minLat, maxLat) && zoom >= 0.0
    ensures AllInside(points, width, height, padding, minLon, maxLat, zoom) <==>
            SpansFit(width - 2.0 * padding, maxLon - minLon, height - 2.0 * padding, maxLat - minLat, zoom)
  {
    if AllInside(points, width, height, padding, minLon, maxLat, zoom) {
      InsideSpansFit(points, width, height, padding, minLon, maxLon, minLat, maxLat, zoom);
    } else if SpansFit(width - 2.0 * padding, maxLon - minLon, height - 2.0 * padding, maxLat - minLat, zoom) {
      SpansFitInside(points, width, height, padding, minLon, maxLon, minLat, maxLat, zoom);
    }
  }

  /** The points fill one axis from edge to edge. */
  ghost predicate FillsAnAxis(points: seq<Coordinates>, width: real, height: real, padding: real,
                              minLon: real, maxLat: real, zoom: real)
  {
    || (exists l, r :: 0 <= l < |points| && 0 <= r < |points|
         && Place(points[l], padding, minLon, maxLat, zoom).x == padding
         && Place(points[r], padding, minLon, maxLat, zoom).x == width - padding)
    || (exists t, b :: 0 <= t < |points| && 0 <= b < |points|
         && Place(points[t], padding, minLon, maxLat, zoom).y == padding
         && Place(points[b], padding, minLon, maxLat, zoom).y == height - padding)
  }

  lemma FilledAxis(points: seq<Coordinates>, width: real, height: real, padding: real,
                   minLon: real, maxLon: real, minLat: real, maxLat: real, zoom: real)
    requires IsRange(Longitudes(points), minLon, maxLon) && IsRange(Latitudes(points), minLat, maxLat)
    requires SpanFills(width - 2.0 * padding, maxLon - minLon, height - 2.0 * padding, maxLat - minLat, zoom)
    ensures FillsAnAxis(points, width, height, padding, minLon, maxLat, zoom)
  {
    var left := PointAt(Longitudes(points), minLon);
    var right := PointAt(Longitudes(points), maxLon);
    var top := PointAt(Latitudes(points), maxLat);
    var bottom := PointAt(Latitudes(points), minLat);
    assert Place(points[left], padding, minLon, maxLat, zoom).x == padding;
    assert Place(points[top], padding, minLon, maxLat, zoom).y == padding;
    if (maxLon - minLon) * zoom == width - 2.0 * padding {
      assert Place(points[right], padding, minLon, maxLat, zoom).x == width - padding;
    } else {
      assert Place(points[bottom], padding, minLon, maxLat, zoom).y == height - padding;
    }
  }

  // ---- Exactly when they do

  /** There is room at all, and where only one span counts as non-zero, the other one, scaled with it, fits too. */
  predicate RoomsAdmit(roomX: real, spanX: real, roomY: real, spanY: real) {
    && roomX >= 0.0 && roomY >= 0.0
    && (spanX < EPSILON <= spanY ==> spanX * roomY <= roomX * spanY)
    && (spanY < EPSILON <= spanX ==> spanY * roomX <= roomY * spanX)
  }

  lemma ClearSpansAdmitted(roomX: real, spanX: real, roomY: real, spanY: real)
    requires roomX >= 0.0 && roomY >= 0.0 && ClearSpan(spanX) && ClearSpan(spanY)
    ensures RoomsAdmit(roomX, spanX, roomY, spanY)
  {
  }

  /** Scaled by the zoom of the other axis a span fits its room exactly when the products compare so. */
  lemma ScaledByOther(room: real, span: real, other: real, otherSpan: real)
    requires otherSpan > 0.0
    ensures span * (other / otherSpan) <= room <==> span * other <= room * otherSpan
  {
    var zoom := other / otherSpan;
    assert zoom * otherSpan == other;
    CompareScaled(room, span, zoom, other, otherSpan);
  }

  lemma CompareScaled(room: real, span: real, zoom: real, other: real, otherSpan: real)
    requires otherSpan > 0.0 && zoom * otherSpan == other
    ensures span * zoom <= room <==> span * other <= room * otherSpan
  {
    var scaled := span * zoom;
    assert scaled * otherSpan == span * other;
    if scaled <= room {
      MulMonotone(scaled, room, otherSpan);
    } else {
      MulStrict(room, scaled, otherSpan);
    }
  }

  lemma MulStrict(a: real, b: real, z: real)
    requires a < b && z > 0.0
    ensures a * z < b * z
  {
  }

  /** With room on both axes the scaled spans fit exactly when the rooms admit them. */
  lemma SpansFitIff(roomX: real, spanX: real, roomY: real, spanY: real, zoom: real)
    requires roomX >= 0.0 && roomY >= 0.0 && spanX >= 0.0 && spanY >= 0.0
    requires zoom == Coefficient(Zoom(roomX, spanX), Zoom(roomY, spanY))
    ensures zoom >= 0.0
    ensures SpansFit(roomX, spanX, roomY, spanY, zoom) <==> RoomsAdmit(roomX, spanX, roomY, spanY)
  {
    if spanX >= EPSILON && spanY >= EPSILON {
      CoefficientFits(roomX, spanX, roomY, spanY);
    } else if spanX >= EPSILON {
      ZoomNonNegative(roomX, spanX);
      ScaledByOther(roomY, spanY, roomX, spanX);
      assert spanX * (roomX / spanX) == roomX;
    } else if spanY >= EPSILON {
      ZoomNonNegative(roomY, spanY);
      ScaledByOther(roomX, spanX, roomY, spanY);
      assert spanY * (roomY / spanY) == roomY;
    }
  }

  /** Without room the leftmost or the topmost point already lies outside. */
  lemma NoRoom(points: seq<Coordinates>, width: real, height: real, padding: real,
               minLon: real, maxLon: real, minLat: real, maxLat: real, zoom: real)
    requires IsRange(Longitudes(points), minLon, maxLon) && IsRange(Latitudes(points), minLat, maxLat)
    requires width < 2.0 * padding || height < 2.0 * padding
    ensures !AllInside(points, width, height, padding, minLon, maxLat, zoom)
  {
    var left := PointAt(Longitudes(points), minLon);
    var top := PointAt(Latitudes(points), maxLat);
    AtOrigin(points[left], padding, minLon, maxLat, zoom);
    AtOrigin(points[top], padding, minLon, maxLat, zoom);
    if width < 2.0 * padding {
      assert !Inside(Place(points[left], padding, minLon, maxLat, zoom), width, height, padding);
    } else {
      assert !Inside(Place(points[top], padding, minLon, maxLat, zoom), width, height, padding);
    }
  }

  lemma AtOrigin(c: Coordinates, padding: real, minLon: real, maxLat: real, zoom: real)
    ensures c.lng == minLon ==> Place(c, padding, minLon, maxLat, zoom).x == padding
    ensures c.lat == maxLat ==> Place(c, padding, minLon, maxLat, zoom).y == padding
  {
  }

  /** All points lie inside exactly when there is room and the scaled spans fit it. */
  lemma InsideIffAdmitted(points: seq<Coordinates>, width: real, height: real, padding: real,
                          minLon: real, maxLon: real, minLat: real, maxLat: real, zoom: real, admitted: bool)
    requires IsRange(Longitudes(points), minLon, maxLon) && IsRange(Latitudes(points), minLat, maxLat)
    requires width < 2.0 * padding || height < 2.0 * padding ==> !admitted
    requires width >= 2.0 * padding && height >= 2.0 * padding ==>
               && zoom >= 0.0
               && (admitted <==> SpansFit(width - 2.0 * padding, maxLon - minLon,
                                          height - 2.0 * padding, maxLat - minLat, zoom))
    ensures AllInside(points, width, height, padding, minLon, maxLat, zoom) <==> admitted
  {
    if width < 2.0 * padding || height < 2.0 * padding {
      NoRoom(points, width, height, padding, minLon, maxLon, minLat, maxLat, zoom);
    } else {
      InsideIffSpansFit(points, width, height, padding, minLon, maxLon, minLat, maxLat, zoom);
    }
  }

  lemma FitAdmits(points: seq<Coordinates>, width: real, height: real, padding: real,
                  minLon: real, maxLat: real, zoom: real)
    requires points != []
    requires Fitted(points, width - 2.0 * padding, height - 2.0 * padding, minLon, maxLat, zoom)
    ensures AllInside(points, width, height, padding, minLon, maxLat, zoom) <==>
            RoomsAdmit(width - 2.0 * padding, Span(Longitudes(points)),
                       height - 2.0 * padding, Span(Latitudes(points)))
  {
    var maxLon, minLat := Greatest(Longitudes(points)), Least(Latitudes(points));
    var admitted := RoomsAdmit(width - 2.0 * padding, maxLon - minLon, height - 2.0 * padding, maxLat - minLat);
    if width >= 2.0 * padding && height >= 2.0 * padding {
      SpansFitIff(width - 2.0 * padding, maxLon - minLon, height - 2.0 * padding, maxLat - minLat, zoom);
    }
    InsideIffAdmitted(points, width, height, padding, minLon, maxLon, minLat, maxLat, zoom, admitted);
  }

  lemma FitFills(points: seq<Coordinates>, width: real, height: real, padding: real,
                 minLon: real, maxLat: real, zoom: real)
    requires points != []
    requires Fitted(points, width - 2.0 * padding, height - 2.0 * padding, minLon, maxLat, zoom)
    ensures FillsAnAxis(points, width, height, padding, minLon, maxLat, zoom) <==>
            || !IsZero(Span(Longitudes(points))) || !IsZero(Span(Latitudes(points)))
            || width == 2.0 * padding || height == 2.0 * padding
  {
    if IsZero(Span(Longitudes(points))) && IsZero(Span(Latitudes(points))) {
      NothingScaled(points, width, height, padding, minLon, maxLat);
    } else {
      var maxLon, minLat := Greatest(Longitudes(points)), Least(Latitudes(points));
      ClearSpanIsFilled(width - 2.0 * padding, maxLon - minLon, height - 2.0 * padding, maxLat - minLat, zoom);
      FilledAxis(points, width, height, padding, minLon, maxLon, minLat, maxLat, zoom);
    }
  }

  /** A span that counts is scaled to its whole room on one axis at least, even if that room is negative. */
  lemma ClearSpanIsFilled(roomX: real, spanX: real, roomY: real, spanY: real, zoom: real)
    requires !IsZero(spanX) || !IsZero(spanY)
    requires zoom == Coefficient(Zoom(roomX, spanX), Zoom(roomY, spanY))
    ensures SpanFills(roomX, spanX, roomY, spanY, zoom)
  {
    if !IsZero(spanX) {
      assert spanX * (roomX / spanX) == roomX;
    }
    if !IsZero(spanY) {
      assert spanY * (roomY / spanY) == roomY;
    }
  }

  /** Scaled by zero all points coincide. */
  lemma NothingScaled(points: seq<Coordinates>, width: real, height: real, padding: real, minLon: real, maxLat: real)
    requires points != []
    ensures FillsAnAxis(points, width, height, padding, minLon, maxLat, 0.0) <==>
            width == 2.0 * padding || height == 2.0 * padding
  {
    assert forall c: Coordinates :: Place(c, padding, minLon, maxLat, 0.0) == Point(padding, padding);
    assert 0 <= 0 < |points| && Place(points[0], padding, minLon, maxLat, 0.0) == Point(padding, padding);
  }

  /** A span that is positive but counts as zero can carry a point off the canvas. */
  lemma TinySpanEscapes()
    ensures var points := [Coordinates(0.0, 0.0), Coordinates(0.000001, 0.0000005)];
      && IsRange(Longitudes(points), 0.0, 0.0000005) && IsRange(Latitudes(points), 0.0, 0.000001)
      && var zoom := Coefficient(Zoom(10.0, 0.0000005), Zoom(100.0, 0.000001));
         !Inside(Place(points[1], 0.0, 0.0, 0.000001, zoom), 10.0, 100.0, 0.0)
  {
    var points := [Coordinates(0.0, 0.0), Coordinates(0.000001, 0.0000005)];
    assert Longitudes(points) == [0.0, 0.0000005] && Latitudes(points) == [0.0, 0.000001];
  }
}
