/** The form, the geocoder and the shared map together: what a submission
    can end in when the geocoding comes from the geocoder shown, and where
    the map is left afterwards. */
module SubmissionFlow {
  import opened JsValues
  import opened JsStrings
  import opened GeoJson
  import opened GeocodingService
  import opened UserView
  import AppState

  /** A submission whose geocoding is performed by the geocoder. Everything
      it hands to the shared map is something the map's handler accepts,
      and a decision on containment is published as the geocoded point. */
  function Verify(polygon: JsValue, street: string, clientReady: bool, reply: Reply, faults: FaultMessages,
                  containment: ContainmentOutcome): (r: Verdict)
    ensures IsFinal(r.status)
    ensures forall i :: 0 <= i < |r.published| ==> AppState.IsNotification(r.published[i])
    ensures r.status == Inside || r.status == Outside ==>
              && clientReady
              && r.published == [Null, Geocode(clientReady, street, reply, faults).point]
  {
    Submit(polygon, street, Geocode(clientReady, street, reply, faults), containment)
  }

  /** The geocoder rejects only with the configuration error, which the form
      shows behind the generic prefix. */
  lemma MissingClientShownAsGeocodingError(polygon: JsValue, street: string, reply: Reply, faults: FaultMessages,
                                           containment: ContainmentOutcome)
    requires Truthy(polygon) && !IsBlank(street)
    ensures Verify(polygon, street, false, reply, faults, containment)
              == Verdict(Error, GeocodingError(ConfigText), [Null, Null])
  {
    ConfigTextLacksSpaceF();
    NotIncludedByPair(ConfigText, "not found", 3);
    ConfigTextLacksLowerK();
    NotIncludedByChar(ConfigText, "API key not valid", 4);
  }

  /** With this geocoder, "address not found" is only ever reported from the
      `error` the geocoded point carries: the matching rule of the form's
      catch block is never reached, since nothing thrown into it contains
      "not found". */
  lemma NotFoundOnlyFromReplyError(polygon: JsValue, street: string, clientReady: bool, reply: Reply,
                                   faults: FaultMessages, containment: ContainmentOutcome)
    ensures var g := Geocode(clientReady, street, reply, faults);
            var r := Verify(polygon, street, clientReady, reply, faults, containment);
            r.status == AddressNotFound ==>
              && g.Resolves? && Truthy(ReplyError(g.point))
              && r.message == FromReply(ReplyError(g.point))
  {
    if !clientReady && Truthy(polygon) && !IsBlank(street) {
      MissingClientShownAsGeocodingError(polygon, street, reply, faults, containment);
    }
    ContainmentFailureIsGeneric();
  }

  /** Where the shared map is after it has seen what the form handed over:
      it shows the geocoded point, centred on it, exactly when the form
      reached a verdict on containment; otherwise the point is cleared. */
  lemma MapAfterSubmission(s: AppState.MapState, polygon: JsValue, street: string, geocode: GeocodeResult,
                           containment: ContainmentOutcome)
    requires geocode.Resolves? ==> IsPointShape(geocode.point)
    ensures var r := Submit(polygon, street, geocode, containment);
            var m := AppState.Replay(s, r.published);
            && m.polygon == s.polygon
            && (r.status == Inside || r.status == Outside ==>
                  && m.point == geocode.point && m.zoom == AppState.PointZoom
                  && m.center == LatLng(PointCoordinates(geocode.point).1, PointCoordinates(geocode.point).0))
            && (r.status != Inside && r.status != Outside ==> m.point == Null)
  {
    var r := Submit(polygon, street, geocode, containment);
    if r.status == Inside || r.status == Outside {
      assert r == AfterPoint(geocode.point, containment);
      assert r.published == [Null, geocode.point];
      AppState.ReplayCentresOnLastPoint(s, r.published, 1);
    }
  }

  /** A thrown `Error` with an empty message becomes an error point whose
      `error` is the empty string, which the form does not see as an error:
      it publishes the point at `[0, 0]` and decides containment there. */
  lemma EmptyMessageTreatedAsLocation(polygon: JsValue, street: string, faults: FaultMessages, inside: bool)
    requires Truthy(polygon) && !IsBlank(street)
    ensures var r := Verify(polygon, street, true, Threw(ErrorValue("")), faults, Decided(inside));
            && r.status == (if inside then Inside else Outside)
            && r.published == [Null, ErrorPoint(street, Str(""))]
            && PointCoordinates(r.published[1]) == (0.0, 0.0)
  {
    assert UserFacingText(ErrorValue("")) == "";
  }
}
