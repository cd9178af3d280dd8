/** The administrator's map: where it is centred for the reference area.
    The centre is read from the first position of the area's coordinates;
    anything unexpected, including a fault while reading, gives `[0, 0]`. */
module AdminView {
  import opened JsValues
  import opened GeoJson
  import opened PolygonService

  const Fallback := LatLng(0.0, 0.0)

  /** getCenterFromPolygonForAdmin. Reading `geometry.type` of a nullish
      polygon or geometry throws; the throw is caught and gives the
      fallback. Every later read is guarded by a truthiness test, so no other
      fault can occur. */
  function DisplayCenter(polygon: JsValue): (r: LatLng)
    ensures IsNullish(polygon) || IsNullish(GeometryOf(polygon)) ==> r == Fallback
    ensures !IsAreaTypeName(GeometryType(polygon)) ==> r == Fallback
    ensures r != Fallback ==>
              && IsAreaTypeName(GeometryType(polygon))
              && var p := FirstAt(CoordinatesOf(polygon), PositionDepth(GeometryType(polygon)));
              && PairToLatLng(p) == Some(r)
    ensures !IsNullish(polygon) && !IsNullish(GeometryOf(polygon)) && IsAreaTypeName(GeometryType(polygon)) ==>
              var p := FirstAt(CoordinatesOf(polygon), PositionDepth(GeometryType(polygon)));
              r == if PairToLatLng(p).Some? then PairToLatLng(p).value else Fallback
  {
    if IsNullish(polygon) || IsNullish(GeometryOf(polygon)) then Fallback
    else
      var c := CoordinatesOf(polygon);
      var c0 := Elem(c, 0);
      var c00 := Elem(c0, 0);
      assert FirstAt(c, 2) == c00;
      if GeometryType(polygon) == Str("Polygon") then
        if Truthy(c) && Truthy(c0) && Truthy(c00) then
          match PairToLatLng(c00)
          case Some(ll) => ll
          case None => Fallback
        else Fallback
      else if GeometryType(polygon) == Str("MultiPolygon") then
        var c000 := Elem(c00, 0);
        assert FirstAt(c, 3) == c000;
        if Truthy(c) && Truthy(c0) && Truthy(c00) && Truthy(c000) then
          match PairToLatLng(c000)
          case Some(ll) => ll
          case None => Fallback
        else Fallback
      else Fallback
  }

  /** On every feature the upload validator accepts, the admin map is centred
      on the first position exactly when that position is a pair of numbers;
      a position with a third entry (an altitude), which the validator lets
      through, gives the fallback. */
  lemma AcceptedFeatureCentre(f: JsValue)
    requires IsAcceptedFeature(f)
    ensures var p := FirstAt(CoordinatesOf(f), PositionDepth(GeometryType(f)));
            && p.Arr?
            && DisplayCenter(f) ==
                 if |p.items| == 2 && p.items[0].Num? && p.items[1].Num?
                 then LatLng(p.items[1].n, p.items[0].n)
                 else Fallback
  {
    var c := CoordinatesOf(f);
    var d := PositionDepth(GeometryType(f));
    assert FirstPositionNested(c, d);
    assert FirstAt(c, 1).Arr? && FirstAt(c, 2).Arr?;
    assert FirstAt(c, 1) == Elem(c, 0);
    assert FirstAt(c, 2) == Elem(Elem(c, 0), 0);
    if d == 3 {
      assert FirstAt(c, 3).Arr?;
      assert FirstAt(c, 3) == Elem(Elem(Elem(c, 0), 0), 0);
    }
  }

  /** For a typed feature: the swapped first position when it has exactly two
      entries, the fallback when it has another length or when a ring or
      polygon on the way is empty. */
  lemma CenterOfEncodedArea(f: AreaFeature)
    ensures DisplayCenter(EncodeArea(f)) ==
              match FirstPosition(f.geometry)
              case Some(p) => if |p| == 2 then LatLng(p[1], p[0]) else Fallback
              case None => Fallback
  {
    var v := EncodeArea(f);
    var c := CoordinatesOf(v);
    assert c == EncodeCoordinates(f.geometry);
    assert GeometryType(v) == Str(TypeName(f.geometry));
    match f.geometry
    case Polygon(rings) =>
      if |rings| > 0 {
        assert Elem(c, 0) == EncodeRing(rings[0]);
        if |rings[0]| > 0 {
          assert Elem(Elem(c, 0), 0) == EncodeNumbers(rings[0][0]);
        }
      }
    case MultiPolygon(polys) =>
      if |polys| > 0 {
        assert Elem(c, 0) == EncodeRings(polys[0]);
        if |polys[0]| > 0 {
          assert Elem(Elem(c, 0), 0) == EncodeRing(polys[0][0]);
          if |polys[0][0]| > 0 {
            assert Elem(Elem(Elem(c, 0), 0), 0) == EncodeNumbers(polys[0][0][0]);
          }
        }
      }
  }

  /** A feature whose first position carries an altitude passes validation
      and is still shown around `[0, 0]`. */
  lemma AltitudeAcceptedButNotCentred()
    ensures var f := AreaFeature(Polygon([[[1.0, 2.0, 3.0], [4.0, 5.0, 6.0], [1.0, 2.0, 3.0]]]), map[]);
            && Validate(Some(EncodeArea(f))) == Accepted(EncodeArea(f))
            && DisplayCenter(EncodeArea(f)) == Fallback
  {
    var f := AreaFeature(Polygon([[[1.0, 2.0, 3.0], [4.0, 5.0, 6.0], [1.0, 2.0, 3.0]]]), map[]);
    EncodedAreaValidation(f);
    CenterOfEncodedArea(f);
  }
}
