/** The application's GeoJSON shapes: the area feature the operator uploads,
    the point feature the geocoder produces, and the verification status.
    The typed forms are encoded into `JsValue` so that statements about the
    validators can be made about well-typed inputs. */
module GeoJson {
  import opened JsValues

  /** A position in storage order: `[longitude, latitude, ...]`. The type
      declares it as `number[]`, so its length is not fixed. */
  type Position = seq<real>

  datatype AreaGeometry =
    | Polygon(rings: seq<seq<Position>>)
    | MultiPolygon(polygons: seq<seq<seq<Position>>>)

  datatype AreaFeature = AreaFeature(geometry: AreaGeometry, properties: map<string, JsValue>)

  /** A point feature at `[lon, lat]`. */
  datatype PointFeature = PointFeature(lon: real, lat: real, properties: map<string, JsValue>)

  /** A map centre in display order, `[lat, lng]`. */
  datatype LatLng = LatLng(lat: real, lng: real)

  datatype VerificationStatus = Idle | Loading | Inside | Outside | Error | AddressNotFound | NoPolygon

  /** The statuses a finished verification can end in. */
  predicate IsFinal(s: VerificationStatus) {
    s in {Inside, Outside, Error, AddressNotFound, NoPolygon}
  }

  /** The first position of the first ring (of the first polygon), if every
      level on the way has a first element. */
  function FirstPosition(g: AreaGeometry): Option<Position> {
    match g
    case Polygon(rings) =>
      if |rings| > 0 && |rings[0]| > 0 then Some(rings[0][0]) else None
    case MultiPolygon(polys) =>
      if |polys| > 0 && |polys[0]| > 0 && |polys[0][0]| > 0 then Some(polys[0][0][0]) else None
  }

  /** The number of rings (Polygon) or of polygons (MultiPolygon). */
  function TopCount(g: AreaGeometry): nat {
    match g
    case Polygon(rings) => |rings|
    case MultiPolygon(polys) => |polys|
  }

  function TypeName(g: AreaGeometry): string {
    if g.Polygon? then "Polygon" else "MultiPolygon"
  }

  function EncodeNumbers(p: seq<real>): (r: JsValue)
    ensures r.Arr? && |r.items| == |p|
    ensures forall i :: 0 <= i < |p| ==> r.items[i] == Num(p[i])
  {
    Arr(seq(|p|, i requires 0 <= i < |p| => Num(p[i])))
  }

  function EncodeRing(ring: seq<Position>): (r: JsValue)
    ensures r.Arr? && |r.items| == |ring|
    ensures forall i :: 0 <= i < |ring| ==> r.items[i] == EncodeNumbers(ring[i])
  {
    Arr(seq(|ring|, i requires 0 <= i < |ring| => EncodeNumbers(ring[i])))
  }

  function EncodeRings(rings: seq<seq<Position>>): (r: JsValue)
    ensures r.Arr? && |r.items| == |rings|
    ensures forall i :: 0 <= i < |rings| ==> r.items[i] == EncodeRing(rings[i])
  {
    Arr(seq(|rings|, i requires 0 <= i < |rings| => EncodeRing(rings[i])))
  }

  function EncodePolygons(polys: seq<seq<seq<Position>>>): (r: JsValue)
    ensures r.Arr? && |r.items| == |polys|
    ensures forall i :: 0 <= i < |polys| ==> r.items[i] == EncodeRings(polys[i])
  {
    Arr(seq(|polys|, i requires 0 <= i < |polys| => EncodeRings(polys[i])))
  }

  function EncodeCoordinates(g: AreaGeometry): JsValue {
    match g
    case Polygon(rings) => EncodeRings(rings)
    case MultiPolygon(polys) => EncodePolygons(polys)
  }

  /** The JSON object a typed area feature is written as. */
  function EncodeArea(f: AreaFeature): JsValue {
    Obj(map[
      "type" := Str("Feature"),
      "geometry" := Obj(map["type" := Str(TypeName(f.geometry)), "coordinates" := EncodeCoordinates(f.geometry)]),
      "properties" := Obj(f.properties)
    ])
  }

  /** The JSON object a typed point feature is written as. */
  function EncodePoint(p: PointFeature): JsValue {
    Obj(map[
      "type" := Str("Feature"),
      "geometry" := Obj(map["type" := Str("Point"), "coordinates" := Arr([Num(p.lon), Num(p.lat)])]),
      "properties" := Obj(p.properties)
    ])
  }

  /** The runtime shape of a point feature: type "Feature", geometry type
      "Point", coordinates an array of exactly two numbers. */
  predicate IsPointShape(v: JsValue) {
    && Prop(v, "type") == Str("Feature")
    && Truthy(Prop(v, "geometry"))
    && Prop(Prop(v, "geometry"), "type") == Str("Point")
    && var c := Prop(Prop(v, "geometry"), "coordinates");
    && c.Arr? && |c.items| == 2 && c.items[0].Num? && c.items[1].Num?
  }

  /** The two numbers of a point-shaped value, in storage order. */
  function PointCoordinates(v: JsValue): (r: (real, real))
    requires IsPointShape(v)
  {
    var c := Prop(Prop(v, "geometry"), "coordinates");
    (c.items[0].n, c.items[1].n)
  }

  /** The test both map views apply before centring on a position: a truthy
      value of length exactly 2 holding two numbers, read as `[lng, lat]`
      and returned in display order. */
  function PairToLatLng(coord: JsValue): (r: Option<LatLng>)
    ensures r.Some? ==> Length(coord) == Num(2.0) && (coord.Arr? || coord.Obj? || coord.Str?)
    ensures coord.Arr? ==>
              (r.Some? <==> |coord.items| == 2 && coord.items[0].Num? && coord.items[1].Num?)
    ensures coord.Str? ==> r.None?
    ensures coord.Arr? && r.Some? ==> r.value == LatLng(coord.items[1].n, coord.items[0].n)
  {
    if Truthy(coord) && Length(coord) == Num(2.0) && Elem(coord, 0).Num? && Elem(coord, 1).Num?
    then Some(LatLng(Elem(coord, 1).n, Elem(coord, 0).n))
    else None
  }
}
