# GeoProtec3 core in Dafny

GeoProtec3 is a small web application. An administrator uploads a GeoJSON
reference area, a Polygon or MultiPolygon feature. A user types an address;
the address is geocoded into a point, and the user is told whether the point
lies inside the area. This project models the logic under that flow:

- **The upload validator** (`validateAndParseGeoJSON`). It takes the parsed
  document and selects a feature: the document itself, or the first candidate
  of a FeatureCollection. It then checks the geometry in a fixed order and
  either returns the feature unchanged or fails with one of nine messages.
- **The admin map centre** (`getCenterFromPolygonForAdmin`).
- **The shared map state** of the application shell: the initial area,
  centre and zoom, the upload handler and the geocoded-point handler.
- **The geocoder's treatment of a reply**. This covers the client guard, the
  point-shape check, the pass-through of an `error` the reply carries, and
  the translation of thrown messages into user text.
- **The form's verdict**. This is the status and message `handleSubmit`
  settles on, and the points it hands to the shared map.

Values are modelled as JavaScript sees them (`JsValues`). `JsValue` has
`undefined`, `null`, booleans, numbers (as `real`), strings, arrays and
objects. `Prop`, `Elem` and `Length` read properties the way the language
does; a missing property reads as `Undefined`. `Truthy` is the language's
truthiness test.

A `TypeError` from reading a property of `null` is modelled where it can
happen:

- as the `TypeFault` outcome of the validator;
- as a caught fault that yields the fallback in the admin centre;
- in the upload handler, where reading `geometry` of a nullish polygon, or `coordinates` of a nullish geometry, throws after the area is stored: the model keeps the stored area and the old centre and does not report the throw, which cannot happen in the application since the admin view passes only validated features;
- as a thrown `Error` with a given message in the geocoder.

`JsStrings` gives `includes`, `toLowerCase` as far as it can yield ASCII, and `trim`, with the
ECMAScript WhiteSpace and LineTerminator set.

Typed GeoJSON (`GeoJson.AreaFeature`, `PointFeature`) is encoded into
`JsValue`, so that statements can be made about well-typed uploads. Some
properties are proved about all values and some about typed ones only.

The modules follow the source files:

| module | source file |
|---|---|
| `PolygonService` | services/polygonService.ts |
| `AdminView` | components/AdminView.tsx |
| `AppState` | App.tsx |
| `GeocodingService` | services/geocodingService.ts |
| `UserView` | components/UserView.tsx |
| `SubmissionFlow` | ties the geocoder, the form and the map together |

## Model

| member | source | states |
|---|---|---|
| `JsStrings.TrimEmptyIffBlank` | components/UserView.tsx:40 | `!address.trim()` holds exactly when the address consists of whitespace only, in both directions |
| `PolygonService.FirstCandidate` | services/polygonService.ts:52-55 | `find` stops at a candidate with no candidate before it; it finds nothing only when no element is a candidate |
| `PolygonService.SelectFeature` | services/polygonService.ts:45-61 | A `null`/`undefined` document faults, and nothing else does. A Feature document is selected itself. Any other type that is not a FeatureCollection gets the root-type error. A collection whose `features` is missing, not an array or empty gets the non-empty-array error. Otherwise the first candidate in array order is selected, and no candidate gives the "no Polygon/MultiPolygon" error. Whatever is selected is an object of type Feature |
| `PolygonService.CheckGeometry` | services/polygonService.ts:64-101 | The checks fire in order: geometry missing, geometry type, coordinates falsy or of length 0, then the depth check. The depth check passes exactly when every level down to the first position (depth 2 for Polygon, 3 for MultiPolygon) is an array and that position has at least two entries. Its error names the geometry type |
| `PolygonService.Validate` | services/polygonService.ts:35-104 | Text that does not parse gives the invalid-JSON error. The fault arises exactly for a nullish document. Otherwise the result is the selection's error, the geometry's error, or the selected feature returned unchanged. An accepted feature that is not the document is the first candidate of its collection |
| `PolygonService.ValidateIdempotent` | services/polygonService.ts:45-103 | Validating an accepted feature again accepts the same value |
| `PolygonService.CandidacyIgnoresCoordinates` | services/polygonService.ts:52-55 | Replacing a feature's coordinates does not change whether it is a candidate |
| `PolygonService.FirstCandidateFollowsCandidacy` | services/polygonService.ts:52-55 | Two lists that agree element-wise on candidacy select the same index (by induction) |
| `PolygonService.SelectionIgnoresCoordinates` | services/polygonService.ts:52-58 | Rewriting any member's coordinates leaves the selected index unchanged |
| `PolygonService.FirstCandidateDecides` | services/polygonService.ts:47-58 | A collection gets exactly the verdict its first candidate gets as a document of its own; the features after it play no part |
| `PolygonService.EncodedAreaValidation` | services/polygonService.ts:77-101 | For a typed feature, whatever its properties, the result is fixed by three things. No rings (polygons) gives the missing-coordinates error. A first position of at least two entries gives acceptance of the feature itself. Otherwise (an empty first ring or polygon, or a short position) it gives the type's malformed error. No other ring, position or closure is examined |
| `PolygonService.MalformedFirstMatchHidesLaterFeature` | services/polygonService.ts:52-89 | A collection whose first Polygon feature has an empty ring is rejected, although the well-formed feature after it is valid on its own |
| `GeoJson.PairToLatLng` | components/AdminView.tsx:24-25 | A value passes the coordinate test only if its `length` is 2, so only an array or an object can pass: a string never does, since its elements are strings, not numbers. An array passes exactly when it holds two numbers, and the result is them swapped to `[lat, lng]` |
| `AdminView.DisplayCenter` | components/AdminView.tsx:16-48 | The function is total. A nullish polygon or geometry, or another geometry type, gives `[0, 0]`. For a Polygon or MultiPolygon geometry, the result is exactly the first position at the type's depth swapped to `[lat, lng]` when it is a pair of numbers, and `[0, 0]` otherwise: a falsy container on the way leaves no such pair |
| `AdminView.AcceptedFeatureCentre` | components/AdminView.tsx:22-47 | On every feature the validator accepts, the centre is the swapped first position exactly when it holds two numbers; otherwise it is `[0, 0]` |
| `AdminView.CenterOfEncodedArea` | components/AdminView.tsx:18-40 | For typed Polygon and MultiPolygon features, the centre depends only on the first position: `[p[1], p[0]]` when it has length 2, `[0, 0]` otherwise or when a level is empty; properties are irrelevant |
| `AdminView.AltitudeAcceptedButNotCentred` | components/AdminView.tsx:24 | A feature with three-entry positions is accepted by the validator and still centred at `[0, 0]` |
| `AppState.Initial` | App.tsx:10-31 | The starting state holds an area the upload validator accepts, is centred on `[37.7749, -122.4194]` at zoom 10, and shows no point |
| `AppState.InitialAreaIsValid` | App.tsx:10-31 | The default area is one closed ring of five positions and passes the validator. The admin map centres on its first corner, which differs from the initial shared centre `[37.7749, -122.4194]` |
| `AppState.UploadTarget` | App.tsx:36-57 | A position the upload handler's guards let through is the first position at the type's depth. Its containers down to it are truthy |
| `AppState.UploadPolygon` | App.tsx:33-68 | The uploaded value replaces the area wholesale, and the point is untouched. When the polygon and its geometry are present, the map moves, at zoom 12, exactly when the guards let a position through and it is a pair of numbers, and then to that pair swapped; otherwise centre and zoom stay. Any move is to the admin map's centre. For a nullish polygon, or one whose geometry is `null` or missing, the handler throws after storing it, and centre and zoom stay |
| `AppState.AcceptedUploadAgreesWithAdmin` | App.tsx:36-65 | For every accepted area with array coordinates, the map moves to the admin centre at zoom 12 exactly when the first position is a numeric pair; otherwise only the area changes |
| `AppState.ShowGeocodedPoint` | App.tsx:70-76 | The point (or `null`) is stored, and the area is untouched. A point moves the centre to `[lat, lon]` of its coordinates at zoom 14; `null` leaves centre and zoom as they were |
| `AppState.Replay` | App.tsx:70-76 | After a sequence of notifications the stored point is the last one, and the area is unchanged |
| `AppState.ReplayCentresOnLastPoint` | App.tsx:70-76 | After a sequence of notifications, the map is centred, at zoom 14, on the last point that was not followed by anything but `null` (by induction) |
| `GeocodingService.UserFacingText` | services/geocodingService.ts:111-122 | The rules apply in priority order: "API key not valid", then "FETCH_ERROR" or a lower-case "network request failed", then a lower-case "json", then the raw message. A non-`Error` value gives the connection message |
| `GeocodingService.KelvinSignMatchesNetworkRule` | services/geocodingService.ts:115 | A message spelling "network" with the Kelvin sign, which lowers to `k`, gets the network text |
| `GeocodingService.ShownVerbatim` | services/geocodingService.ts:113-120 | A message lacking one letter of each substring the rules look for is shown as it is |
| `GeocodingService.UnexpectedReplyShownVerbatim` | services/geocodingService.ts:104-120 | The shape-check failure message matches no rule and reaches the user verbatim |
| `GeocodingService.UserFacingTextIdempotent` | services/geocodingService.ts:111-122 | None of the fixed texts triggers a rule, so translating a translated message changes nothing |
| `GeocodingService.ReplyError` | services/geocodingService.ts:91 | The `error` a point reports is truthy only when `properties` is an object holding a truthy `error`, and it is then that value; an `error` present in an object `properties` is always read as it is |
| `GeocodingService.ErrorPoint` | services/geocodingService.ts:124-131 | The failure point is a point feature at `[0, 0]`. Its properties are exactly `fullAddress` (the street with ", Argentina") and `error`, which carries the given error |
| `GeocodingService.Geocode` | services/geocodingService.ts:21-131 | It rejects exactly when there is no client, and then with the configuration error; otherwise it always resolves to a point feature. An accepted reply without a truthy `error` is returned unchanged. One with an `error` becomes the failure point carrying that error, unless converting the error to a string for the warning throws; then the failure point carries the translated message of that TypeError. A `null` reply faults on reading `type` and becomes the failure point with the translated fault message. Any other reply of the wrong shape becomes the failure point with the unexpected-reply message. Anything thrown becomes the failure point with its translated message |
| `GeocodingService.GeocodeFixpoint` | services/geocodingService.ts:81-103 | A point the geocoder resolved to, given back as a reply, resolves to itself |
| `GeocodingService.ReplyErrorPassedThrough` | services/geocodingService.ts:91-101 | The reply's `error` reaches the caller unchanged at `[0, 0]` when it converts to a string; one that does not is replaced by the translated conversion fault. `query` is dropped either way |
| `GeocodingService.UnconvertibleErrorNotPassedThrough` | services/geocodingService.ts:91-101 | A point-shaped reply whose `error` is the object `{"toString": 0}` resolves to the failure point with the translated conversion fault, not to its own error |
| `UserView.NoticeText` | components/UserView.tsx:36-82 | The five fixed texts of the form, verbatim (no contract; see "Left out") |
| `UserView.Shown` | components/UserView.tsx:55-78 | A reply's `error` is shown as it is; a caught message is shown after the "Error de geocodificación: " prefix, unchanged |
| `UserView.AddressNotFoundSubsumed` | components/UserView.tsx:69 | Containing "Address not found" implies containing "not found", so the second test adds nothing |
| `UserView.CatchVerdict` | components/UserView.tsx:67-83 | "Address not found" is decided exactly by "not found" in an `Error`'s message, and every other case is ERROR. Then come the key-configuration text and the prefixed message; a non-`Error` value gives the unknown-error text |
| `UserView.Caught` | components/UserView.tsx:67-84 | The catch block ends in ERROR or ADDRESS_NOT_FOUND, the latter exactly when an `Error`'s message contains "not found". It appends one cleared point to what was published before. An `Error` that matches neither rule is shown behind the "Error de geocodificación: " prefix, unchanged |
| `UserView.AfterPoint` | components/UserView.tsx:53-84 | A truthy `error` on the point gives ADDRESS_NOT_FOUND with that value, and the point is cleared; ADDRESS_NOT_FOUND arises only so. Otherwise the point is published and INSIDE or OUTSIDE follows the decision. A containment failure gives ERROR with the wrapper's text behind the prefix, and the point is cleared after it was published |
| `UserView.AfterRequest` | components/UserView.tsx:48-84 | After the point is cleared once, a rejection goes to the catch block and a resolution proceeds as above. The published values are only `null` and the geocoded point. The form decides containment exactly when the geocoder resolved without an `error` and the test decided |
| `UserView.IsBlankAddress` | components/UserView.tsx:40 | The address test holds exactly when the address is whitespace only |
| `UserView.Submit` | components/UserView.tsx:32-86 | The status is always one of INSIDE, OUTSIDE, ERROR, ADDRESS_NOT_FOUND or NO_POLYGON. NO_POLYGON arises exactly when there is no area. A blank address gives ERROR with the fixed text. A truthy `error` on the point gives ADDRESS_NOT_FOUND with that value. INSIDE or OUTSIDE arises exactly when the containment test decides, and then the point is published. A rejection goes through the catch. Every path that does not decide ends by clearing the point |
| `UserView.NoPolygonConsultsNothing` | components/UserView.tsx:34-39 | Without an area, the address, the geocoder and the containment test have no influence |
| `UserView.BlankAddressConsultsNothing` | components/UserView.tsx:40-45 | A blank address is refused whatever the geocoder and the containment test would say |
| `UserView.ContainmentFailureIsGeneric` | components/UserView.tsx:67-79 | A containment failure is shown as ERROR behind the "Error de geocodificación: " prefix |
| `SubmissionFlow.Verify` | components/UserView.tsx:48-84 | With this geocoder, the status is final, everything the form hands the map is `null` or a point feature (what the map's handler accepts), and a decision on containment is published as `[null, point]` with the geocoded point, which needs a client |
| `SubmissionFlow.MissingClientShownAsGeocodingError` | services/geocodingService.ts:21-26 | Without a client, a non-blank submission against an area ends in ERROR with the prefixed configuration error, and the point is cleared twice |
| `SubmissionFlow.NotFoundOnlyFromReplyError` | components/UserView.tsx:53-71 | With this geocoder, ADDRESS_NOT_FOUND only ever comes from the point's `error`; the "not found" rule of the catch block is unreachable |
| `SubmissionFlow.MapAfterSubmission` | components/UserView.tsx:34-84 | For any point-shaped geocoding result, after the map has seen what the form published, it shows the geocoded point centred at zoom 14 exactly when the form decided containment; otherwise it shows no point. The area is unchanged either way |
| `SubmissionFlow.EmptyMessageTreatedAsLocation` | services/geocodingService.ts:109-131 | A thrown `Error` with an empty message resolves to a point whose `error` is falsy. The form then publishes `[0, 0]` as the location and decides containment there |

## Left out

- Point-in-polygon containment is a foreign library call. It is a parameter, `UserView.ContainmentOutcome`: either a decision or the failure the wrapper rethrows. The wrapper's path for a missing library alerts and answers `false`, so it is the decision `false`.
- `JSON.parse` of the upload and of the reply, the model request and the markdown-fence stripping are not modelled. Their outcomes are inputs: `Option<JsValue>` for the upload, `GeocodingService.Reply` for the geocoder.
- The client's creation from the environment is left out; it is the boolean `clientReady`.
- The messages of the `TypeError`s raised inside the geocoder (reading `type` of a `null` reply; converting an `error` that has an own `toString` to a string) depend on the runtime. They are the parameter `GeocodingService.FaultMessages`.
- File reading, the file input, `alert`, console logging, rendering, routing and the presentational components have nothing to verify.
- The transient LOADING status and `errorMessage := null` before the request are left out. Only the final status and message of a submission are modelled, and concurrent submissions are not.
- React's batching of state updates is not modelled. The transitions apply in call order.
- Numbers are `real`, with no NaN, infinities or `-0`. `JSON.parse` cannot produce NaN. It produces an infinity for a literal such as `1e400`, and every test made here (truthiness, `typeof`, `> 0` on a length) treats it as it would a large real. `-0` behaves like `0` in every test made here.
- `JsStrings.ToLower` lowers the ASCII capitals and the Kelvin sign (U+212A, which lowers to `k`) and keeps every other character. Every substring the geocoder looks for is ASCII. The only other character whose lower case holds an ASCII letter is U+0130, which lowers to `i` followed by U+0307; no needle has an `i` followed by anything but `l`, or ends in `i`, so it cannot take part in a match. The model keeps string lengths, which `toLowerCase` may change.
- `JsValues.IsPositive` models `x > 0` exactly for numbers, booleans, `null` and `undefined`. It takes a string, array or object as not positive. Such a value can only reach the test as the `length` property of an object standing in for an array.
- `AppState.AcceptedUploadAgreesWithAdmin` is stated only for array coordinates. An object standing in for the coordinates may carry a negative or non-numeric `length` that the validator's `!== 0` test lets through.
- `AppState.ShowGeocodedPoint` requires a point feature or `null`, as the handler's declared parameter type does; it does not model a fault on other values.
- `UserView.Submit` requires that a resolved geocoding be a point feature, as the geocoder's declared result type promises. `GeocodingService.Geocode` proves it of the geocoder shown.
- The texts of the validator's nine errors are not modelled: `PolygonService.ValidationError` has one constructor per distinct message (services/polygonService.ts:40-99). No property of the texts themselves is stated.
- `UserView.NoticeText` holds the form's five fixed texts verbatim. It has no contract: stating anything of literals this long, such as that they differ, is beyond what the verifier settles in reasonable time.
- Objects are finite maps, so a document with a repeated key is represented by one of its values.
