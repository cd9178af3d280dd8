/** The application shell's state: the reference area shared by both views,
    the map centre and zoom, and the point most recently geocoded. Uploads
    and geocoding results arrive as notifications and update it. */
module AppState {
  import opened JsValues
  import opened GeoJson
  import opened PolygonService
  import AdminView

  /** `polygon` and `point` hold what the views handed over; `Null` is the
      empty slot. */
  datatype MapState = MapState(polygon: JsValue, center: LatLng, zoom: int, point: JsValue)

  /** The San Francisco ring the application starts with. */
  const DefaultRing: seq<Position> := [
    [-122.51821015840398, 37.77864696973343],
    [-122.38500092988835, 37.81093199859016],
    [-122.36836884981023, 37.71618731302061],
    [-122.48425935273992, 37.70660609049008],
    [-122.51821015840398, 37.77864696973343]
  ]

  const DefaultArea := AreaFeature(Polygon([DefaultRing]), map[])

  const InitialCenter := LatLng(37.7749, -122.4194)

  const InitialZoom := 10

  /** Zoom after centring on an uploaded area. */
  const AreaZoom := 12

  /** Zoom after centring on a geocoded point. */
  const PointZoom := 14

  /** The state before any notification: the default area, centred on San
      Francisco at zoom 10, no point. */
  function Initial(): (r: MapState)
    ensures Validate(Some(r.polygon)) == Accepted(r.polygon)
    ensures r.center == LatLng(37.7749, -122.4194) && r.zoom == 10 && r.point.Null?
  {
    EncodedAreaValidation(DefaultArea);
    MapState(EncodeArea(DefaultArea), InitialCenter, InitialZoom, Null)
  }

  /** The position the upload handler centres on, if its guards let one
      through. Besides truthiness they demand a positive `length` of the
      coordinates, and of the ring holding the first position. */
  function UploadTarget(polygon: JsValue): (r: Option<JsValue>)
    requires !IsNullish(polygon) && !IsNullish(GeometryOf(polygon))
    ensures r.Some? ==>
              && IsAreaTypeName(GeometryType(polygon))
              && r.value == FirstAt(CoordinatesOf(polygon), PositionDepth(GeometryType(polygon)))
              && Truthy(CoordinatesOf(polygon)) && Truthy(Elem(CoordinatesOf(polygon), 0))
              && Truthy(Elem(Elem(CoordinatesOf(polygon), 0), 0)) && Truthy(r.value)
  {
    var t := GeometryType(polygon);
    var c := CoordinatesOf(polygon);
    var c0 := Elem(c, 0);
    var c00 := Elem(c0, 0);
    assert FirstAt(c, 2) == c00;
    if !(Truthy(c) && IsPositive(Length(c))) then None
    else if t == Str("Polygon") then
      if Truthy(c0) && IsPositive(Length(c0)) && Truthy(c00) then Some(c00) else None
    else if t == Str("MultiPolygon") then
      var c000 := Elem(c00, 0);
      assert FirstAt(c, 3) == c000;
      if Truthy(c0) && Truthy(c00) && IsPositive(Length(c00)) && Truthy(c000) then Some(c000) else None
    else None
  }

  /** handlePolygonUpload. The area is stored first; reading `geometry` of
      a nullish polygon, or `coordinates` of a nullish geometry, then throws, which leaves the stored
      area and the old centre. When the guards pass and the position is a
      pair of numbers, the map centres on it at zoom 12. */
  function UploadPolygon(s: MapState, polygon: JsValue): (r: MapState)
    ensures r.polygon == polygon && r.point == s.point
    ensures r.zoom == s.zoom || r.zoom == AreaZoom
    ensures r.center != s.center || r.zoom != s.zoom ==>
              r.zoom == AreaZoom && r.center == AdminView.DisplayCenter(polygon)
    ensures IsNullish(polygon) || IsNullish(GeometryOf(polygon)) ==> r.center == s.center && r.zoom == s.zoom
    ensures !IsNullish(polygon) && !IsNullish(GeometryOf(polygon)) ==>
              var t := UploadTarget(polygon);
              if t.Some? && PairToLatLng(t.value).Some?
              then r.center == PairToLatLng(t.value).value && r.zoom == AreaZoom
              else r.center == s.center && r.zoom == s.zoom
  {
    var stored := s.(polygon := polygon);
    if IsNullish(polygon) || IsNullish(GeometryOf(polygon)) then stored
    else
      match UploadTarget(polygon)
      case None => stored
      case Some(p) =>
        match PairToLatLng(p)
        case None => stored
        case Some(ll) => stored.(center := ll, zoom := AreaZoom)
  }

  /** handleGeocodedPoint: the point (or `null`) is stored; a point also
      centres the map on it, latitude first, at zoom 14. */
  function ShowGeocodedPoint(s: MapState, point: JsValue): (r: MapState)
    requires point.Null? || IsPointShape(point)
    ensures r.point == point && r.polygon == s.polygon
    ensures point.Null? ==> r.center == s.center && r.zoom == s.zoom
    ensures IsPointShape(point) ==>
              r.zoom == PointZoom && r.center == LatLng(PointCoordinates(point).1, PointCoordinates(point).0)
  {
    if Truthy(point) then
      var c := Prop(Prop(point, "geometry"), "coordinates");
      s.(point := point, center := LatLng(Elem(c, 1).n, Elem(c, 0).n), zoom := PointZoom)
    else s.(point := point)
  }

  predicate IsNotification(v: JsValue) {
    v.Null? || IsPointShape(v)
  }

  /** The state after the handler has seen `notes` in order. */
  function Replay(s: MapState, notes: seq<JsValue>): (r: MapState)
    requires forall i :: 0 <= i < |notes| ==> IsNotification(notes[i])
    ensures r.polygon == s.polygon
    ensures |notes| > 0 ==> r.point == notes[|notes| - 1]
    ensures |notes| == 0 ==> r == s
    decreases |notes|
  {
    if |notes| == 0 then s
    else
      assert IsNotification(notes[|notes| - 1]);
      ShowGeocodedPoint(Replay(s, notes[..|notes| - 1]), notes[|notes| - 1])
  }

  /** The map keeps the centre of the last point in a sequence of
      notifications, whatever `null`s follow it. */
  lemma {:induction false} ReplayCentresOnLastPoint(s: MapState, notes: seq<JsValue>, k: nat)
    requires forall i :: 0 <= i < |notes| ==> IsNotification(notes[i])
    requires k < |notes| && IsPointShape(notes[k])
    requires forall i :: k < i < |notes| ==> notes[i].Null?
    ensures Replay(s, notes).zoom == PointZoom
    ensures Replay(s, notes).center == LatLng(PointCoordinates(notes[k]).1, PointCoordinates(notes[k]).0)
    decreases |notes|
  {
    if k < |notes| - 1 {
      ReplayCentresOnLastPoint(s, notes[..|notes| - 1], k);
    }
  }

  /** The starting area passes the upload validator: a single closed ring of
      five positions, on whose first corner the admin map centres. That
      corner is not the initial centre of the shared map. */
  lemma InitialAreaIsValid()
    ensures Validate(Some(Initial().polygon)) == Accepted(Initial().polygon)
    ensures |DefaultRing| == 5 && DefaultRing[0] == DefaultRing[4]
    ensures AdminView.DisplayCenter(Initial().polygon) == LatLng(37.77864696973343, -122.51821015840398)
    ensures AdminView.DisplayCenter(Initial().polygon) != Initial().center
  {
    EncodedAreaValidation(DefaultArea);
    AdminView.CenterOfEncodedArea(DefaultArea);
  }

  /** On every area the validator accepts, the upload handler and the admin
      map agree: the shared map moves to the admin map's centre exactly when
      the first position is a pair of numbers, and otherwise stays put. The
      coordinates must be an array: an object standing in for one may carry
      any `length` the validator's `!== 0` test lets through. */
  lemma AcceptedUploadAgreesWithAdmin(s: MapState, f: JsValue)
    requires IsAcceptedFeature(f) && CoordinatesOf(f).Arr?
    ensures var p := FirstAt(CoordinatesOf(f), PositionDepth(GeometryType(f)));
            UploadPolygon(s, f) ==
              if PairToLatLng(p).Some?
              then s.(polygon := f, center := AdminView.DisplayCenter(f), zoom := AreaZoom)
              else s.(polygon := f)
  {
    var c := CoordinatesOf(f);
    var d := PositionDepth(GeometryType(f));
    assert FirstPositionNested(c, d);
    assert FirstAt(c, 1).Arr? && FirstAt(c, 2).Arr?;
    assert FirstAt(c, 1) == Elem(c, 0);
    assert FirstAt(c, 2) == Elem(Elem(c, 0), 0);
    if d == 3 {
      assert FirstAt(c, 3).Arr?;
      assert FirstAt(c, 3) == Elem(Elem(Elem(c, 0), 0), 0);
    }
    assert IsPositive(Length(c));
    assert UploadTarget(f) == Some(FirstAt(c, d));
    AdminView.AcceptedFeatureCentre(f);
  }
}
