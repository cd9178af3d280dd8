/** The upload validator: from the parsed content of an uploaded file to the
    Polygon or MultiPolygon feature that becomes the reference area, or one
    of nine fixed errors. The check is shallow on purpose: it looks at the
    geometry type and at the nesting of the first position only. */
module PolygonService {
  import opened JsValues
  import opened GeoJson

  /** The nine errors the validator throws, one constructor per distinct
      message: the text does not parse; the root is neither a Feature nor a
      FeatureCollection; `features` is not a non-empty array; no member is a
      Polygon or MultiPolygon feature; the feature has no geometry; the
      geometry has another type; the coordinates are missing or empty; the
      first position of a Polygon, or of a MultiPolygon, is malformed. */
  datatype ValidationError =
    | InvalidJson
    | UnsupportedRoot
    | EmptyCollection
    | NoAreaFeature
    | MissingGeometry
    | UnsupportedGeometry
    | MissingCoordinates
    | MalformedPolygon
    | MalformedMultiPolygon

  /** Outcome of validation: the selected feature, a validation error, or the
      TypeError raised by reading `type` of a `null` document. */
  datatype Validation = Accepted(feature: JsValue) | Rejected(error: ValidationError) | TypeFault

  predicate IsAreaTypeName(t: JsValue) {
    t == Str("Polygon") || t == Str("MultiPolygon")
  }

  function GeometryOf(f: JsValue): JsValue {
    Prop(f, "geometry")
  }

  function GeometryType(f: JsValue): JsValue {
    Prop(GeometryOf(f), "type")
  }

  function CoordinatesOf(f: JsValue): JsValue {
    Prop(GeometryOf(f), "coordinates")
  }

  /** The test a collection member must pass to be selected; coordinates
      play no part in it. */
  predicate IsCandidate(f: JsValue) {
    && Truthy(f)
    && Prop(f, "type") == Str("Feature")
    && Truthy(GeometryOf(f))
    && IsAreaTypeName(GeometryType(f))
  }

  /** `k` is the first index of `items` holding a candidate. */
  predicate IsFirstCandidateAt(items: seq<JsValue>, k: int) {
    && 0 <= k < |items|
    && IsCandidate(items[k])
    && forall j :: 0 <= j < k ==> !IsCandidate(items[j])
  }

  /** The index `Array.prototype.find` stops at, scanning from `from`. */
  function FirstCandidate(items: seq<JsValue>, from: nat): (r: Option<nat>)
    requires from <= |items|
    decreases |items| - from
    ensures r.Some? ==> from <= r.value < |items| && IsCandidate(items[r.value])
    ensures r.Some? ==> forall j :: from <= j < r.value ==> !IsCandidate(items[j])
    ensures r.None? ==> forall j :: from <= j < |items| ==> !IsCandidate(items[j])
  {
    if from == |items| then None
    else if IsCandidate(items[from]) then Some(from)
    else FirstCandidate(items, from + 1)
  }

  predicate IsCollection(root: JsValue) {
    Prop(root, "type") == Str("FeatureCollection")
  }

  /** `features` is a non-empty array. */
  predicate HasFeatureArray(root: JsValue) {
    var fs := Prop(root, "features");
    Truthy(fs) && fs.Arr? && |fs.items| != 0
  }

  datatype Selection = Selected(feature: JsValue) | NotSelected(error: ValidationError) | SelectionFault

  /** Picks the feature to check: the document itself when it is a Feature,
      the first candidate when it is a FeatureCollection. */
  function SelectFeature(root: JsValue): (r: Selection)
    ensures r.SelectionFault? <==> IsNullish(root)
    ensures !IsNullish(root) && Prop(root, "type") == Str("Feature") ==> r == Selected(root)
    ensures (!IsNullish(root) && Prop(root, "type") != Str("Feature") && !IsCollection(root))
              ==> r == NotSelected(UnsupportedRoot)
    ensures IsCollection(root) && !HasFeatureArray(root) ==> r == NotSelected(EmptyCollection)
    ensures IsCollection(root) && HasFeatureArray(root) ==>
              forall k :: IsFirstCandidateAt(Prop(root, "features").items, k) ==>
                r == Selected(Prop(root, "features").items[k])
    ensures (&& IsCollection(root) && HasFeatureArray(root)
             && forall k :: 0 <= k < |Prop(root, "features").items| ==> !IsCandidate(Prop(root, "features").items[k]))
              ==> r == NotSelected(NoAreaFeature)
    ensures r.Selected? ==> r.feature.Obj? && Prop(r.feature, "type") == Str("Feature")
    ensures r.Selected? && r.feature != root ==>
              && IsCollection(root) && HasFeatureArray(root)
              && exists k :: IsFirstCandidateAt(Prop(root, "features").items, k)
                   && r.feature == Prop(root, "features").items[k]
  {
    if IsNullish(root) then SelectionFault
    else if Prop(root, "type") == Str("Feature") then Selected(root)
    else if IsCollection(root) then
      if !HasFeatureArray(root) then NotSelected(EmptyCollection)
      else
        var items := Prop(root, "features").items;
        match FirstCandidate(items, 0)
        case None => NotSelected(NoAreaFeature)
        case Some(k) =>
          assert IsFirstCandidateAt(items, k);
          Selected(items[k])
    else NotSelected(UnsupportedRoot)
  }

  /** How many `[0]` steps below `coordinates` the first position sits. */
  function PositionDepth(t: JsValue): nat
    requires IsAreaTypeName(t)
  {
    if t == Str("Polygon") then 2 else 3
  }

  /** Every level down to the first position is an array, and that position
      has at least two entries. */
  predicate FirstPositionNested(coords: JsValue, depth: nat) {
    var p := FirstAt(coords, depth);
    ArraysDownTo(coords, depth) && p.Arr? && |p.items| >= 2
  }

  /** The checks on the selected feature, in the order they are made. */
  function CheckGeometry(f: JsValue): (r: Option<ValidationError>)
    ensures !Truthy(GeometryOf(f)) ==> r == Some(MissingGeometry)
    ensures Truthy(GeometryOf(f)) && !IsAreaTypeName(GeometryType(f)) ==> r == Some(UnsupportedGeometry)
    ensures (&& Truthy(GeometryOf(f)) && IsAreaTypeName(GeometryType(f))
             && (!Truthy(CoordinatesOf(f)) || Length(CoordinatesOf(f)) == Num(0.0)))
              ==> r == Some(MissingCoordinates)
    ensures Truthy(GeometryOf(f)) && IsAreaTypeName(GeometryType(f)) &&
            Truthy(CoordinatesOf(f)) && Length(CoordinatesOf(f)) != Num(0.0) ==>
              && (r.None? <==> FirstPositionNested(CoordinatesOf(f), PositionDepth(GeometryType(f))))
              && (r.Some? ==> r.value == if GeometryType(f) == Str("Polygon") then MalformedPolygon else MalformedMultiPolygon)
  {
    var g := GeometryOf(f);
    if !Truthy(g) then Some(MissingGeometry)
    else
      var t := Prop(g, "type");
      if !IsAreaTypeName(t) then Some(UnsupportedGeometry)
      else
        var c := Prop(g, "coordinates");
        if !Truthy(c) || Length(c) == Num(0.0) then Some(MissingCoordinates)
        else
          var c0 := Elem(c, 0);
          assert FirstAt(c, 1) == c0;
          if t == Str("Polygon") then
            assert FirstAt(c, 2) == Elem(c0, 0);
            if !c0.Arr? || !Elem(c0, 0).Arr? || |Elem(c0, 0).items| < 2 then Some(MalformedPolygon)
            else None
          else
            assert FirstAt(c, 3) == Elem(Elem(c0, 0), 0);
            if !c0.Arr? || !Elem(c0, 0).Arr? || !Elem(Elem(c0, 0), 0).Arr? || |Elem(Elem(c0, 0), 0).items| < 2
            then Some(MalformedMultiPolygon)
            else None
  }

  /** A feature the validator lets through. */
  predicate IsAcceptedFeature(f: JsValue) {
    f.Obj? && Prop(f, "type") == Str("Feature") && CheckGeometry(f).None?
  }

  /** validateAndParseGeoJSON, given the result of `JSON.parse` (`None` when
      the text is not JSON). */
  function Validate(parsed: Option<JsValue>): (r: Validation)
    ensures parsed.None? ==> r == Rejected(InvalidJson)
    ensures r.TypeFault? <==> parsed.Some? && IsNullish(parsed.value)
    ensures r.Accepted? ==> IsAcceptedFeature(r.feature)
    ensures r.Accepted? && r.feature != parsed.value ==>
              && IsCollection(parsed.value) && HasFeatureArray(parsed.value)
              && exists k :: IsFirstCandidateAt(Prop(parsed.value, "features").items, k)
                   && r.feature == Prop(parsed.value, "features").items[k]
    ensures parsed.Some? && SelectFeature(parsed.value).NotSelected? ==>
              r == Rejected(SelectFeature(parsed.value).error)
    ensures parsed.Some? && SelectFeature(parsed.value).Selected? ==>
              var f := SelectFeature(parsed.value).feature;
              r == if CheckGeometry(f).None? then Accepted(f) else Rejected(CheckGeometry(f).value)
  {
    match parsed
    case None => Rejected(InvalidJson)
    case Some(root) =>
      match SelectFeature(root)
      case SelectionFault => TypeFault
      case NotSelected(e) => Rejected(e)
      case Selected(f) =>
        match CheckGeometry(f)
        case Some(e) => Rejected(e)
        case None => Accepted(f)
  }

  /** A feature the validator returned is returned again, unchanged, when it
      is validated a second time. */
  lemma ValidateIdempotent(parsed: Option<JsValue>)
    requires Validate(parsed).Accepted?
    ensures Validate(Some(Validate(parsed).feature)) == Validate(parsed)
  {
  }

  /** `f` with its `geometry.coordinates` replaced by `c`. */
  function WithCoordinates(f: JsValue, c: JsValue): JsValue {
    if f.Obj? && "geometry" in f.fields && f.fields["geometry"].Obj? then
      var g := f.fields["geometry"];
      Obj(f.fields["geometry" := Obj(g.fields["coordinates" := c])])
    else f
  }

  /** Whether a feature is a candidate does not depend on its coordinates. */
  lemma CandidacyIgnoresCoordinates(f: JsValue, c: JsValue)
    ensures IsCandidate(WithCoordinates(f, c)) == IsCandidate(f)
  {
    if f.Obj? && "geometry" in f.fields && f.fields["geometry"].Obj? {
      var f' := WithCoordinates(f, c);
      assert Prop(f', "type") == Prop(f, "type");
      assert GeometryOf(f').Obj?;
      assert GeometryType(f') == GeometryType(f);
    }
  }

  /** Two feature lists whose members agree on candidacy stop the scan at
      the same index. */
  lemma {:induction false} FirstCandidateFollowsCandidacy(xs: seq<JsValue>, ys: seq<JsValue>, from: nat)
    requires |xs| == |ys| && from <= |xs|
    requires forall i :: 0 <= i < |xs| ==> IsCandidate(xs[i]) == IsCandidate(ys[i])
    ensures FirstCandidate(xs, from) == FirstCandidate(ys, from)
    decreases |xs| - from
  {
    if from < |xs| {
      FirstCandidateFollowsCandidacy(xs, ys, from + 1);
    }
  }

  /** Rewriting the coordinates of any collection member leaves the choice of
      feature where it was: selection looks at types only. */
  lemma SelectionIgnoresCoordinates(items: seq<JsValue>, k: nat, c: JsValue)
    requires k < |items|
    ensures FirstCandidate(items[k := WithCoordinates(items[k], c)], 0) == FirstCandidate(items, 0)
  {
    var ys := items[k := WithCoordinates(items[k], c)];
    CandidacyIgnoresCoordinates(items[k], c);
    FirstCandidateFollowsCandidacy(items, ys, 0);
  }

  /** On a typed feature the validator's verdict depends only on the geometry
      type, on whether there are any rings (polygons), and on the length of
      the first position; properties, further rings and further positions
      are never looked at. */
  lemma EncodedAreaValidation(f: AreaFeature)
    ensures Validate(Some(EncodeArea(f))) ==
              if TopCount(f.geometry) == 0 then Rejected(MissingCoordinates)
              else if FirstPosition(f.geometry).Some? && |FirstPosition(f.geometry).value| >= 2
              then Accepted(EncodeArea(f))
              else Rejected(if f.geometry.Polygon? then MalformedPolygon else MalformedMultiPolygon)
  {
    var v := EncodeArea(f);
    assert SelectFeature(v) == Selected(v);
    var c := CoordinatesOf(v);
    assert GeometryType(v) == Str(TypeName(f.geometry));
    assert c == EncodeCoordinates(f.geometry);
    match f.geometry
    case Polygon(rings) =>
      if |rings| > 0 {
        var c0 := Elem(c, 0);
        assert c0 == EncodeRing(rings[0]);
        if |rings[0]| > 0 {
          assert Elem(c0, 0) == EncodeNumbers(rings[0][0]);
        }
      }
    case MultiPolygon(polys) =>
      if |polys| > 0 {
        var c0 := Elem(c, 0);
        assert c0 == EncodeRings(polys[0]);
        if |polys[0]| > 0 {
          assert Elem(c0, 0) == EncodeRing(polys[0][0]);
          if |polys[0][0]| > 0 {
            assert Elem(Elem(c0, 0), 0) == EncodeNumbers(polys[0][0][0]);
          }
        }
      }
  }

  /** A collection gets exactly the verdict its first candidate gets on its
      own: the features after it play no part, however well formed. */
  lemma FirstCandidateDecides(root: JsValue, k: nat)
    requires IsCollection(root) && HasFeatureArray(root)
    requires IsFirstCandidateAt(Prop(root, "features").items, k)
    ensures Validate(Some(root)) == Validate(Some(Prop(root, "features").items[k]))
  {
    var f := Prop(root, "features").items[k];
    assert SelectFeature(root) == Selected(f);
    assert SelectFeature(f) == Selected(f);
  }

  /** The well-formed example feature: one ring holding the origin. */
  function GoodExample(): JsValue {
    EncodeArea(AreaFeature(Polygon([[[0.0, 0.0]]]), map[]))
  }

  /** The malformed example feature: one empty ring. */
  function BadExample(): JsValue {
    EncodeArea(AreaFeature(Polygon([[]]), map[]))
  }

  lemma GoodExampleAccepted()
    ensures Validate(Some(GoodExample())) == Accepted(GoodExample())
  {
    EncodedAreaValidation(AreaFeature(Polygon([[[0.0, 0.0]]]), map[]));
  }

  lemma BadExampleRejected()
    ensures IsCandidate(BadExample())
    ensures Validate(Some(BadExample())) == Rejected(MalformedPolygon)
  {
    EncodedAreaValidation(AreaFeature(Polygon([[]]), map[]));
  }

  /** Only the first Polygon or MultiPolygon feature is checked: an empty
      ring in it rejects the collection, although the feature after it is
      accepted on its own. */
  lemma MalformedFirstMatchHidesLaterFeature()
    ensures Validate(Some(GoodExample())) == Accepted(GoodExample())
    ensures Validate(Some(Obj(map["type" := Str("FeatureCollection"),
                                  "features" := Arr([BadExample(), GoodExample()])])))
              == Rejected(MalformedPolygon)
  {
    GoodExampleAccepted();
    BadExampleRejected();
    var bad, good := BadExample(), GoodExample();
    var root := Obj(map["type" := Str("FeatureCollection"), "features" := Arr([bad, good])]);
    assert Prop(root, "features").items == [bad, good];
    assert IsFirstCandidateAt([bad, good], 0);
    FirstCandidateDecides(root, 0);
  }
}
