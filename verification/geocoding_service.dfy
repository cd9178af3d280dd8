/** The geocoder's handling of a reply: the client guard, the shape check of
    the parsed reply, the pass-through of an error the reply carries, and the
    translation of anything thrown into a message for the user. The request
    itself, the fence stripping and `JSON.parse` are not modelled; their
    outcome arrives as a `Reply`. */
module GeocodingService {
  import opened JsValues
  import opened JsStrings
  import opened GeoJson

  /** What the `try` block had reached before the shape check: the parsed
      reply, or the value the request, the text access or the parse threw. */
  datatype Reply = Parsed(value: JsValue) | Threw(thrown: Thrown)

  /** The promise returned by geocodeAddress. */
  datatype GeocodeResult = Resolves(point: JsValue) | Rejects(thrown: Thrown)

  // The messages below are written as concatenations of short pieces, each
  // of which the verifier can inspect letter by letter.

  /** Thrown when there is no client. */
  const ConfigText: string :=
    "Servicio de " + "geocodificación" + " no disponible debido a un problema de "
    + "configuración" + " (API Key). Contacte al administrador."

  const ServiceOf: string := "servicio de "

  /** Thrown when the parsed reply is not a point feature. */
  const UnexpectedText: string := "Respuesta inesperada del " + ServiceOf + "geocodificación."

  const KeyText: string :=
    "La clave API para el " + ServiceOf + "geocodificación" + " no es válida. " + "Contacte al " + "administrador."

  const NetworkText: string := "Error de red al intentar " + "contactar el " + ServiceOf + "geocodificación."

  const MalformedText: string := "Respuesta malformada del " + ServiceOf + "geocodificación."

  /** Used when what was thrown is not an `Error`. */
  const DefaultText: string := "Error al conectar con el " + ServiceOf + "geocodificación."

  /** The message the user is shown for something thrown inside the `try`:
      the first matching rule in priority order, or the message itself. */
  function UserFacingText(t: Thrown): (r: string)
    ensures t.NonErrorValue? ==> r == DefaultText
    ensures t.ErrorValue? && Includes(t.message, "API key not valid") ==> r == KeyText
    ensures (&& t.ErrorValue? && !Includes(t.message, "API key not valid")
             && (Includes(t.message, "FETCH_ERROR") || Includes(ToLower(t.message), "network request failed")))
              ==> r == NetworkText
    ensures (&& t.ErrorValue? && !Includes(t.message, "API key not valid")
             && !(Includes(t.message, "FETCH_ERROR") || Includes(ToLower(t.message), "network request failed")))
              ==> r == (if Includes(ToLower(t.message), "json") then MalformedText else t.message)
    ensures r in {DefaultText, KeyText, NetworkText, MalformedText} || (t.ErrorValue? && r == t.message)
  {
    match t
    case NonErrorValue => DefaultText
    case ErrorValue(m) =>
      if Includes(m, "API key not valid") then KeyText
      else if Includes(m, "FETCH_ERROR") || Includes(ToLower(m), "network request failed") then NetworkText
      else if Includes(ToLower(m), "json") then MalformedText
      else m
  }

  /** `toLowerCase` turns the Kelvin sign into `k`, so a message spelling
      "network" with it still gets the network text. */
  lemma KelvinSignMatchesNetworkRule()
    ensures UserFacingText(ErrorValue("networ\U{212A} request failed")) == NetworkText
  {
    var m := "networ\U{212A} request failed";
    assert Avoids(m, 'A');
    NotIncludedByChar(m, "API key not valid", 0);
    assert ToLower(m) == "network request failed";
    assert OccursAt(ToLower(m), "network request failed", 0);
  }

  /** One letter, in either case, of each substring the rules look for. */
  predicate IsTriggerLetter(c: char) {
    c == 'k' || c == 'F' || c == 'w' || c == 'W' || c == 'j' || c == 'J'
  }

  predicate LacksTriggerLetters(m: string) {
    forall i :: 0 <= i < |m| ==> !IsTriggerLetter(m[i])
  }

  lemma LacksTriggerLettersConcat(x: string, y: string)
    requires LacksTriggerLetters(x) && LacksTriggerLetters(y)
    ensures LacksTriggerLetters(x + y)
  {
    forall i | 0 <= i < |x + y|
      ensures !IsTriggerLetter((x + y)[i])
    {
      if i < |x| {
        assert (x + y)[i] == x[i];
      } else {
        assert (x + y)[i] == y[i - |x|];
      }
    }
  }

  lemma LacksTriggerLettersJoin(x: string, y: string, z: string)
    requires LacksTriggerLetters(x) && LacksTriggerLetters(y) && LacksTriggerLetters(z)
    ensures LacksTriggerLetters(x + y + z)
  {
    LacksTriggerLettersConcat(x, y);
    LacksTriggerLettersConcat(x + y, z);
  }

  lemma ServiceOfLacksTriggerLetters()
    ensures LacksTriggerLetters(ServiceOf)
    ensures LacksTriggerLetters("geocodificación.")
  {
  }

  lemma UnexpectedTextLacksTriggerLetters()
    ensures LacksTriggerLetters(UnexpectedText)
  {
    ServiceOfLacksTriggerLetters();
    assert LacksTriggerLetters("Respuesta inesperada del ");
    LacksTriggerLettersJoin("Respuesta inesperada del ", ServiceOf, "geocodificación.");
  }

  lemma MalformedTextLacksTriggerLetters()
    ensures LacksTriggerLetters(MalformedText)
  {
    ServiceOfLacksTriggerLetters();
    assert LacksTriggerLetters("Respuesta malformada del ");
    LacksTriggerLettersJoin("Respuesta malformada del ", ServiceOf, "geocodificación.");
  }

  lemma DefaultTextLacksTriggerLetters()
    ensures LacksTriggerLetters(DefaultText)
  {
    ServiceOfLacksTriggerLetters();
    assert LacksTriggerLetters("Error al conectar con el ");
    LacksTriggerLettersJoin("Error al conectar con el ", ServiceOf, "geocodificación.");
  }

  lemma NetworkTextLacksTriggerLetters()
    ensures LacksTriggerLetters(NetworkText)
  {
    ServiceOfLacksTriggerLetters();
    var a, b := "Error de red al intentar ", "contactar el ";
    assert LacksTriggerLetters(a) && LacksTriggerLetters(b);
    LacksTriggerLettersConcat(a, b);
    LacksTriggerLettersJoin(a + b, ServiceOf, "geocodificación.");
  }

  lemma KeyTextLacksTriggerLetters()
    ensures LacksTriggerLetters(KeyText)
  {
    ServiceOfLacksTriggerLetters();
    var a, c, d, e, f := "La clave API para el ", "geocodificación", " no es válida. ", "Contacte al ", "administrador.";
    assert LacksTriggerLetters(a) && LacksTriggerLetters(c);
    assert LacksTriggerLetters(d) && LacksTriggerLetters(e) && LacksTriggerLetters(f);
    LacksTriggerLettersJoin(a, ServiceOf, c);
    LacksTriggerLettersJoin(a + ServiceOf + c, d, e);
    LacksTriggerLettersConcat(a + ServiceOf + c + d + e, f);
  }

  /** The configuration error mentions the "API Key" with a capital K only. */
  lemma ConfigTextLacksLowerK()
    ensures Avoids(ConfigText, 'k')
  {
    var a, b, c, d, e := "Servicio de ", "geocodificación", " no disponible debido a un problema de ",
                         "configuración", " (API Key). Contacte al administrador.";
    assert Avoids(a, 'k') && Avoids(b, 'k') && Avoids(c, 'k') && Avoids(d, 'k') && Avoids(e, 'k');
    AvoidsConcat(a, b, 'k');
    AvoidsConcat(a + b, c, 'k');
    AvoidsConcat(a + b + c, d, 'k');
    AvoidsConcat(a + b + c + d, e, 'k');
  }

  /** No word of the configuration error starts with "f". */
  lemma ConfigTextLacksSpaceF()
    ensures !HasPair(ConfigText, ' ', 'f')
  {
    var a, b, c, d, e := "Servicio de ", "geocodificación", " no disponible debido a un problema de ",
                         "configuración", " (API Key). Contacte al administrador.";
    assert Avoids(a, 'f') && Avoids(b, ' ') && Avoids(c, 'f') && Avoids(d, ' ') && Avoids(e, 'f');
    NoPairWithoutChar(a, ' ', 'f');
    NoPairWithoutChar(b, ' ', 'f');
    NoPairWithoutChar(c, ' ', 'f');
    NoPairWithoutChar(d, ' ', 'f');
    NoPairWithoutChar(e, ' ', 'f');
    NoPairInConcat(a, b, ' ', 'f');
    NoPairInConcat(a + b, c, ' ', 'f');
    NoPairInConcat(a + b + c, d, ' ', 'f');
    NoPairInConcat(a + b + c + d, e, ' ', 'f');
  }

  /** A message with none of the letters the rules look for is shown as it
      is. */
  lemma ShownVerbatim(m: string)
    requires LacksTriggerLetters(m)
    ensures UserFacingText(ErrorValue(m)) == m
  {
    assert Avoids(m, 'k') && Avoids(m, 'F') && Avoids(m, 'w') && Avoids(m, 'W') && Avoids(m, 'j') && Avoids(m, 'J');
    NotIncludedByChar(m, "API key not valid", 4);
    NotIncludedByChar(m, "FETCH_ERROR", 0);
    LowerKeepsAbsence(m, 'w');
    NotIncludedByChar(ToLower(m), "network request failed", 3);
    LowerKeepsAbsence(m, 'j');
    NotIncludedByChar(ToLower(m), "json", 0);
  }

  /** The shape-check failure matches none of the rules, so its own text
      reaches the user. */
  lemma UnexpectedReplyShownVerbatim()
    ensures UserFacingText(ErrorValue(UnexpectedText)) == UnexpectedText
  {
    UnexpectedTextLacksTriggerLetters();
    ShownVerbatim(UnexpectedText);
  }

  /** Translating a message that was itself produced by the translation
      changes nothing: none of the fixed texts triggers a rule. */
  lemma UserFacingTextIdempotent(t: Thrown)
    ensures UserFacingText(ErrorValue(UserFacingText(t))) == UserFacingText(t)
  {
    var r := UserFacingText(t);
    if r == DefaultText {
      DefaultTextLacksTriggerLetters();
      ShownVerbatim(DefaultText);
    } else if r == KeyText {
      KeyTextLacksTriggerLetters();
      ShownVerbatim(KeyText);
    } else if r == NetworkText {
      NetworkTextLacksTriggerLetters();
      ShownVerbatim(NetworkText);
    } else if r == MalformedText {
      MalformedTextLacksTriggerLetters();
      ShownVerbatim(MalformedText);
    }
  }

  /** The `error` a point reports, `undefined` when there is none. Only its
      truthiness and, when truthy, its value are used: that is what both
      `properties && properties.error` here and `properties?.error` in the
      form yield. */
  function ReplyError(point: JsValue): (r: JsValue)
    ensures Truthy(r) ==>
              && Prop(point, "properties").Obj? && "error" in Prop(point, "properties").fields
              && r == Prop(point, "properties").fields["error"]
    ensures Prop(point, "properties").Obj? && "error" in Prop(point, "properties").fields ==>
              r == Prop(point, "properties").fields["error"]
  {
    var props := Prop(point, "properties");
    if Truthy(props) then Prop(props, "error") else Undefined
  }

  /** The point every failure resolves to: `[0, 0]`, carrying only the full
      address and the error. */
  function ErrorPoint(street: string, error: JsValue): (r: JsValue)
    ensures IsPointShape(r) && PointCoordinates(r) == (0.0, 0.0)
    ensures Prop(r, "properties").Obj? && Prop(r, "properties").fields.Keys == {"fullAddress", "error"}
    ensures Prop(Prop(r, "properties"), "fullAddress") == Str(street + ", Argentina")
    ensures ReplyError(r) == error
  {
    EncodePoint(PointFeature(0.0, 0.0, map["fullAddress" := Str(street + ", Argentina"), "error" := error]))
  }

  /** The messages of the TypeErrors the runtime raises inside the `try`,
      which depend on the engine: reading `type` of a `null` reply, and
      converting to a string an `error` that cannot be converted. */
  datatype FaultMessages = FaultMessages(nullRead: string, conversion: string)

  /** geocodeAddress after the reply has arrived. `clientReady` says whether
      the client was created at start-up. Writing the reply's `error` into
      the warning converts it to a string, which may throw. */
  function Geocode(clientReady: bool, street: string, reply: Reply, faults: FaultMessages): (r: GeocodeResult)
    ensures r.Rejects? <==> !clientReady
    ensures r.Rejects? ==> r.thrown == ErrorValue(ConfigText)
    ensures r.Resolves? ==> IsPointShape(r.point)
    ensures (clientReady && reply.Parsed? && IsPointShape(reply.value) && !Truthy(ReplyError(reply.value)))
              ==> r == Resolves(reply.value)
    ensures (&& clientReady && reply.Parsed? && IsPointShape(reply.value) && Truthy(ReplyError(reply.value))
             && !ToStringThrows(ReplyError(reply.value)))
              ==> r == Resolves(ErrorPoint(street, ReplyError(reply.value)))
    ensures (&& clientReady && reply.Parsed? && IsPointShape(reply.value) && Truthy(ReplyError(reply.value))
             && ToStringThrows(ReplyError(reply.value)))
              ==> r == Resolves(ErrorPoint(street, Str(UserFacingText(ErrorValue(faults.conversion)))))
    ensures clientReady && reply.Parsed? && IsNullish(reply.value) ==>
              r == Resolves(ErrorPoint(street, Str(UserFacingText(ErrorValue(faults.nullRead)))))
    ensures (clientReady && reply.Parsed? && !IsNullish(reply.value) && !IsPointShape(reply.value))
              ==> r == Resolves(ErrorPoint(street, Str(UnexpectedText)))
    ensures clientReady && reply.Threw? ==> r == Resolves(ErrorPoint(street, Str(UserFacingText(reply.thrown))))
  {
    if !clientReady then Rejects(ErrorValue(ConfigText))
    else
      var thrown: Option<Thrown> :=
        match reply
        case Threw(t) => Some(t)
        case Parsed(v) =>
          if IsNullish(v) then Some(ErrorValue(faults.nullRead))
          else if !IsPointShape(v) then Some(ErrorValue(UnexpectedText))
          else if Truthy(ReplyError(v)) && ToStringThrows(ReplyError(v)) then Some(ErrorValue(faults.conversion))
          else None;
      UnexpectedReplyShownVerbatim();
      match thrown
      case Some(t) => Resolves(ErrorPoint(street, Str(UserFacingText(t))))
      case None =>
        var v := reply.value;
        if Truthy(ReplyError(v)) then Resolves(ErrorPoint(street, ReplyError(v))) else Resolves(v)
  }

  /** Feeding a resolved point back in as the reply resolves to the same
      point: the result of a geocoding is a fixed point of the
      classification. */
  lemma GeocodeFixpoint(street: string, reply: Reply, faults: FaultMessages, faults': FaultMessages)
    requires Geocode(true, street, reply, faults).Resolves?
    ensures var p := Geocode(true, street, reply, faults).point;
            Geocode(true, street, Parsed(p), faults') == Resolves(p)
  {
  }

  /** An error carried by the reply reaches the caller as it was, unless
      writing it into the warning throws; then the failure point carries the
      translated message of that TypeError instead. Either way the `query`
      and any other property of the reply are dropped. */
  lemma ReplyErrorPassedThrough(street: string, v: JsValue, faults: FaultMessages)
    requires IsPointShape(v) && Truthy(ReplyError(v))
    ensures var r := Geocode(true, street, Parsed(v), faults);
            && ReplyError(r.point)
                 == (if ToStringThrows(ReplyError(v)) then Str(UserFacingText(ErrorValue(faults.conversion)))
                     else ReplyError(v))
            && "query" !in Prop(r.point, "properties").fields
            && PointCoordinates(r.point) == (0.0, 0.0)
  {
  }

  /** The error object `{"toString": 0}` is not passed through: converting
      it for the warning throws. */
  lemma UnconvertibleErrorNotPassedThrough(street: string, faults: FaultMessages)
    ensures var e := Obj(map["toString" := Num(0.0)]);
            var v := EncodePoint(PointFeature(1.0, 2.0, map["error" := e]));
            Geocode(true, street, Parsed(v), faults)
              == Resolves(ErrorPoint(street, Str(UserFacingText(ErrorValue(faults.conversion)))))
  {
    var e := Obj(map["toString" := Num(0.0)]);
    var v := EncodePoint(PointFeature(1.0, 2.0, map["error" := e]));
    assert IsPointShape(v);
    assert ReplyError(v) == e;
    assert Truthy(e) && ToStringThrows(e);
  }
}
