/** The verdict of the user's form: from the reference area, the typed
    address, the geocoder's outcome and the containment test to the status
    and message shown, and to the points handed to the shared map on the
    way. */
module UserView {
  import opened JsValues
  import opened JsStrings
  import opened GeoJson
  import GeocodingService

  /** The containment test: the library's answer, or the failure the
      wrapper rethrows. */
  datatype ContainmentOutcome = Decided(inside: bool) | ContainmentFailed

  /** The message the containment wrapper throws when the library fails,
      in pieces the verifier can inspect. */
  const ContainmentFailureText: string :=
    "Error durante el análisis de punto en " + "polígono. Veri" + "fique"
    + " la validez de los " + "datos geoespaciales."

  /** The fixed messages of the form. */
  datatype Notice = NoPolygonNotice | BlankAddressNotice | NotFoundNotice | KeyConfigNotice | UnknownErrorNotice

  function NoticeText(n: Notice): string {
    match n
    case NoPolygonNotice => "No hay un polígono de referencia cargado. Por favor, contacte al administrador."
    case BlankAddressNotice => "Por favor, ingrese una calle y altura."
    case NotFoundNotice => "La dirección ingresada no pudo ser encontrada o es demasiado ambigua. Verifique los datos."
    case KeyConfigNotice => "Error de configuración: La clave API para el servicio de geocodificación no es válida o no está configurada. Contacte al administrador."
    case UnknownErrorNotice => "Ocurrió un error desconocido durante la geocodificación."
  }

  const GeocodingErrorPrefix := "Error de geocodificación: "

  /** The message the form shows: none, a fixed one, the `error` the
      geocoded point carries, or a thrown message behind the prefix. */
  datatype Message = NoMessage | Fixed(notice: Notice) | FromReply(error: JsValue) | GeocodingError(detail: string)

  /** The value the message state holds (`null` for none). */
  function Shown(m: Message): (r: JsValue)
    ensures m.GeocodingError? ==>
              && r.Str? && |r.s| == |GeocodingErrorPrefix| + |m.detail|
              && r.s[..|GeocodingErrorPrefix|] == GeocodingErrorPrefix
              && r.s[|GeocodingErrorPrefix|..] == m.detail
    ensures m.FromReply? ==> r == m.error
  {
    match m
    case NoMessage => Null
    case Fixed(n) => Str(NoticeText(n))
    case FromReply(e) => e
    case GeocodingError(d) => Str(GeocodingErrorPrefix + d)
  }

  /** The second test of the catch adds nothing: "Address not found" already
      contains "not found". */
  lemma AddressNotFoundSubsumed(m: string)
    ensures Includes(m, "Address not found") ==> Includes(m, "not found")
  {
    if Includes(m, "Address not found") {
      assert OccursAt("Address not found", "not found", 8);
      IncludesTransitive(m, "Address not found", "not found");
    }
  }

  /** The status and message the catch block settles on. */
  function CatchVerdict(t: Thrown): (r: (VerificationStatus, Message))
    ensures r.0 == AddressNotFound <==> t.ErrorValue? && Includes(t.message, "not found")
    ensures r.0 != AddressNotFound ==> r.0 == Error
    ensures r.0 == AddressNotFound ==> r.1 == Fixed(NotFoundNotice)
    ensures (t.ErrorValue? && !Includes(t.message, "not found") && Includes(t.message, "API key not valid"))
              ==> r.1 == Fixed(KeyConfigNotice)
    ensures (t.ErrorValue? && !Includes(t.message, "not found") && !Includes(t.message, "API key not valid"))
              ==> r.1 == GeocodingError(t.message)
    ensures t.NonErrorValue? ==> r.1 == Fixed(UnknownErrorNotice)
  {
    match t
    case NonErrorValue => (Error, Fixed(UnknownErrorNotice))
    case ErrorValue(m) =>
      AddressNotFoundSubsumed(m);
      if Includes(m, "not found") || Includes(m, "Address not found") then (AddressNotFound, Fixed(NotFoundNotice))
      else if Includes(m, "API key not valid") then (Error, Fixed(KeyConfigNotice))
      else (Error, GeocodingError(m))
  }

  /** What the form ends with: the status, the message, and in `published`, lists, in order, what was handed to the shared map. */
  datatype Verdict = Verdict(status: VerificationStatus, message: Message, published: seq<JsValue>)

  /** The catch block, entered after `before` was handed to the map: it
      settles on ERROR or ADDRESS_NOT_FOUND and clears the point once more. */
  function Caught(t: Thrown, before: seq<JsValue>): (r: Verdict)
    ensures r.status in {Error, AddressNotFound}
    ensures r.status == AddressNotFound <==> t.ErrorValue? && Includes(t.message, "not found")
    ensures |r.published| == |before| + 1 && r.published[..|before|] == before && r.published[|before|] == Null
    ensures (t.ErrorValue? && !Includes(t.message, "not found") && !Includes(t.message, "API key not valid"))
              ==> Shown(r.message) == Str(GeocodingErrorPrefix + t.message)
  {
    Verdict(CatchVerdict(t).0, CatchVerdict(t).1, before + [Null])
  }

  /** The form after the geocoder resolved to `point`: a truthy `error` on
      it is reported as such; otherwise the point is published and the
      containment test decides, or fails into the catch block. */
  function AfterPoint(point: JsValue, containment: ContainmentOutcome): (r: Verdict)
    ensures r.status in {Inside, Outside, AddressNotFound, Error}
    ensures Truthy(GeocodingService.ReplyError(point)) ==>
              r == Verdict(AddressNotFound, FromReply(GeocodingService.ReplyError(point)), [Null, Null])
    ensures (r.status == Inside || r.status == Outside) <==>
              !Truthy(GeocodingService.ReplyError(point)) && containment.Decided?
    ensures r.status == Inside || r.status == Outside ==>
              && r.status == (if containment.inside then Inside else Outside)
              && r.published == [Null, point] && r.message == NoMessage
    ensures r.status == Error ==> r.published == [Null, point, Null]
    ensures r.status == AddressNotFound ==> r.published == [Null, Null]
    ensures r.status == AddressNotFound ==> r.message == FromReply(GeocodingService.ReplyError(point))
    ensures r.status == AddressNotFound ==> Truthy(GeocodingService.ReplyError(point))
    ensures !Truthy(GeocodingService.ReplyError(point)) && containment.ContainmentFailed? ==>
              r == Verdict(Error, GeocodingError(ContainmentFailureText), [Null, point, Null])
  {
    var e := GeocodingService.ReplyError(point);
    if Truthy(e) then Verdict(AddressNotFound, FromReply(e), [Null, Null])
    else
      match containment
      case Decided(inside) => Verdict(if inside then Inside else Outside, NoMessage, [Null, point])
      case ContainmentFailed =>
        ContainmentFailureIsGeneric();
        Caught(ErrorValue(ContainmentFailureText), [Null, point])
  }

  /** The form from the request on: a rejection goes to the catch block
      after the point was cleared once; a resolution goes on as above. */
  function AfterRequest(geocode: GeocodingService.GeocodeResult, containment: ContainmentOutcome): (r: Verdict)
    ensures r.status in {Inside, Outside, AddressNotFound, Error}
    ensures |r.published| >= 2 && r.published[0] == Null
    ensures forall i :: 0 <= i < |r.published| ==>
              r.published[i] == Null || (geocode.Resolves? && r.published[i] == geocode.point)
    ensures (r.status == Inside || r.status == Outside) <==>
              geocode.Resolves? && !Truthy(GeocodingService.ReplyError(geocode.point)) && containment.Decided?
    ensures r.status != Inside && r.status != Outside ==> r.published[|r.published| - 1] == Null
    ensures geocode.Rejects? ==> r == Caught(geocode.thrown, [Null])
    ensures geocode.Resolves? ==> r == AfterPoint(geocode.point, containment)
    ensures r.status == AddressNotFound ==>
              || (geocode.Resolves? && r.message == FromReply(GeocodingService.ReplyError(geocode.point)))
              || r.message == Fixed(NotFoundNotice)
  {
    match geocode
    case Rejects(t) => Caught(t, [Null])
    case Resolves(p) => AfterPoint(p, containment)
  }

  /** `!address.trim()`: the address is whitespace only. */
  function IsBlankAddress(street: string): (b: bool)
    ensures b <==> IsBlank(street)
  {
    TrimEmptyIffBlank(street);
    Trim(street) == ""
  }

  /** handleSubmit. A resolved geocoding is a point feature, as the
      geocoder's declared type promises. */
  function Submit(polygon: JsValue, street: string, geocode: GeocodingService.GeocodeResult,
                  containment: ContainmentOutcome): (r: Verdict)
    requires geocode.Resolves? ==> IsPointShape(geocode.point)
    ensures IsFinal(r.status)
    ensures r.status == NoPolygon <==> !Truthy(polygon)
    ensures !Truthy(polygon) ==> r == Verdict(NoPolygon, Fixed(NoPolygonNotice), [Null])
    ensures Truthy(polygon) && IsBlank(street) ==> r == Verdict(Error, Fixed(BlankAddressNotice), [Null])
    ensures Truthy(polygon) && !IsBlank(street) ==> r == AfterRequest(geocode, containment)
    ensures |r.published| > 0 && r.published[0] == Null
    ensures forall i :: 0 <= i < |r.published| ==>
              r.published[i] == Null || (geocode.Resolves? && r.published[i] == geocode.point)
    ensures (r.status == Inside || r.status == Outside) <==>
              (&& Truthy(polygon) && !IsBlank(street) && geocode.Resolves?
               && !Truthy(GeocodingService.ReplyError(geocode.point)) && containment.Decided?)
    ensures r.status != Inside && r.status != Outside ==> r.published[|r.published| - 1] == Null
  {
    if !Truthy(polygon) then Verdict(NoPolygon, Fixed(NoPolygonNotice), [Null])
    else if IsBlankAddress(street) then Verdict(Error, Fixed(BlankAddressNotice), [Null])
    else AfterRequest(geocode, containment)
  }

  /** Without an area neither the address, the geocoder nor the containment
      test has any influence. */
  lemma NoPolygonConsultsNothing(polygon: JsValue, s1: string, s2: string,
                                 g1: GeocodingService.GeocodeResult, g2: GeocodingService.GeocodeResult,
                                 c1: ContainmentOutcome, c2: ContainmentOutcome)
    requires !Truthy(polygon)
    requires g1.Resolves? ==> IsPointShape(g1.point)
    requires g2.Resolves? ==> IsPointShape(g2.point)
    ensures Submit(polygon, s1, g1, c1) == Submit(polygon, s2, g2, c2)
  {
  }

  /** A blank address is refused before the geocoder is consulted. */
  lemma BlankAddressConsultsNothing(polygon: JsValue, s1: string, s2: string,
                                    g1: GeocodingService.GeocodeResult, g2: GeocodingService.GeocodeResult,
                                    c1: ContainmentOutcome, c2: ContainmentOutcome)
    requires Truthy(polygon) && IsBlankAddress(s1) && IsBlankAddress(s2)
    requires g1.Resolves? ==> IsPointShape(g1.point)
    requires g2.Resolves? ==> IsPointShape(g2.point)
    ensures Submit(polygon, s1, g1, c1) == Submit(polygon, s2, g2, c2)
  {
  }

  lemma ContainmentFailureLacksLowerK()
    ensures Avoids(ContainmentFailureText, 'k')
  {
    var a, b, c, d, e := "Error durante el análisis de punto en ", "polígono. Veri", "fique",
                         " la validez de los ", "datos geoespaciales.";
    assert Avoids(a, 'k') && Avoids(b, 'k') && Avoids(c, 'k') && Avoids(d, 'k') && Avoids(e, 'k');
    AvoidsConcat(a, b, 'k');
    AvoidsConcat(a + b, c, 'k');
    AvoidsConcat(a + b + c, d, 'k');
    AvoidsConcat(a + b + c + d, e, 'k');
  }

  lemma ContainmentFailureLacksSpaceF()
    ensures !HasPair(ContainmentFailureText, ' ', 'f')
  {
    var a, b, c, d, e := "Error durante el análisis de punto en ", "polígono. Veri", "fique",
                         " la validez de los ", "datos geoespaciales.";
    assert Avoids(a, 'f') && Avoids(b, 'f') && Avoids(c, ' ') && Avoids(d, 'f') && Avoids(e, 'f');
    NoPairWithoutChar(a, ' ', 'f');
    NoPairWithoutChar(b, ' ', 'f');
    NoPairWithoutChar(c, ' ', 'f');
    NoPairWithoutChar(d, ' ', 'f');
    NoPairWithoutChar(e, ' ', 'f');
    NoPairInConcat(a, b, ' ', 'f');
    NoPairInConcat(a + b, c, ' ', 'f');
    NoPairInConcat(a + b + c, d, ' ', 'f');
    NoPairInConcat(a + b + c + d, e, ' ', 'f');
  }

  /** The containment failure contains neither "not found" nor "API key not
      valid", so it is shown behind the generic prefix. */
  lemma ContainmentFailureIsGeneric()
    ensures CatchVerdict(ErrorValue(ContainmentFailureText)) == (Error, GeocodingError(ContainmentFailureText))
  {
    ContainmentFailureLacksSpaceF();
    NotIncludedByPair(ContainmentFailureText, "not found", 3);
    ContainmentFailureLacksLowerK();
    NotIncludedByChar(ContainmentFailureText, "API key not valid", 4);
  }
}
