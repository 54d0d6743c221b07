/**
 * The two JSON endpoints of the prompt generator, with every outbound HTTP
 * call recorded in order.  The replies of Geoapify and Gemini are inputs; a
 * reply is consulted only when the trace shows the call was made.
 */
module Controller {
  import opened Wrappers
  import opened PhpValues
  import opened Provider
  import Collections
  import Validation
  import Prompt
  import NearbyPlaces
  import Suggestions

  /** An outbound request. */
  datatype Call =
    | GeocodeRequest(text: string)
    | PlacesRequest(latitude: Value, longitude: Value)
    | GeminiRequest(prompt: string)

  /**
   * A Gemini response: its raw body, and the text at
   * `candidates.0.content.parts.0.text` (`None` when that path is absent).
   */
  datatype GeminiBody = GeminiBody(raw: string, text: Option<string>)

  /** A response together with the calls made to produce it. */
  datatype Exchange<+R> = Exchange(response: R, calls: seq<Call>)

  // ---------------------------------------------------------------------------
  // generate

  /** What ends `generate` in its catch block. */
  datatype GenerateError =
    | Places(cause: NearbyPlaces.PlacesError)
    | GeminiRejected(body: string)
    | GeminiUnreachable(message: string)

  datatype GenerateResponse =
    | Generated(description: Option<string>, input: Validation.FormInput, nearbyPlaces: seq<string>, prompt: string)
    | Rejected(fields: seq<Validation.Field>)
    | Failed(error: GenerateError)

  const ValidationFailed := "Validation failed"
  const GenerateFailed := "Failed to generate description"
  const GeminiErrorLead := "Gemini API error: "

  function GenerateStatus(r: GenerateResponse): int
  {
    match r
    case Generated(_, _, _, _) => 200
    case Rejected(_) => 422
    case Failed(_) => 500
  }

  /** The `error` member of the body, absent on success. */
  function GenerateErrorLabel(r: GenerateResponse): Option<string>
  {
    match r
    case Generated(_, _, _, _) => None
    case Rejected(_) => Some(ValidationFailed)
    case Failed(_) => Some(GenerateFailed)
  }

  /** The exception's message, sent as the `message` member of a 500. */
  function ErrorMessage(e: GenerateError): string
  {
    match e
    case Places(cause) => NearbyPlaces.Message(cause)
    case GeminiRejected(body) => GeminiErrorLead + body
    case GeminiUnreachable(m) => m
  }

  /**
   * The prompt for a form that passed validation: the request's values as
   * string interpolation renders them.
   */
  function PromptFor(form: Validation.FormInput, places: seq<string>): string
    requires Validation.Validate(form).Passed?
  {
    Validation.PassedFieldsPresent(form);
    Validation.PassedCountsPrintable(form);
    Prompt.ConstructPrompt(form.location.value.s, Interpolate(form.rooms.value), Interpolate(form.washrooms.value),
                           form.description.value.s, places, form.platform.value.s)
  }

  /**
   * `generate`: validate; look up the places around the coordinates; build
   * the prompt; ask Gemini.  Any exception after validation becomes a 500.
   */
  function Generate(form: Validation.FormInput, places: Reply<Field<seq<Feature>>>,
                    gemini: Reply<GeminiBody>): Exchange<GenerateResponse>
  {
    var verdict := Validation.Validate(form);
    if verdict.Failed? then Exchange(Rejected(verdict.fields), [])
    else
      Validation.PassedFieldsPresent(form);
      var placesCall := PlacesRequest(form.latitude.value, form.longitude.value);
      match NearbyPlaces.Lookup(places)
      case Failure(e) => Exchange(Failed(Places(e)), [placesCall])
      case Success(names) =>
        var prompt := PromptFor(form, names);
        var calls := [placesCall, GeminiRequest(prompt)];
        match gemini
        case Unreachable(m) => Exchange(Failed(GeminiUnreachable(m)), calls)
        case Received(status, body) =>
          if Successful(status) then Exchange(Generated(body.text, form, names, prompt), calls)
          else Exchange(Failed(GeminiRejected(body.raw)), calls)
  }

  // ---------------------------------------------------------------------------
  // autocomplete

  datatype AutocompleteResponse =
    | Listing(entries: seq<Suggestions.Entry>)
    | Unavailable(details: Option<string>)

  const ServiceUnavailable := "Service unavailable"
  const MissingKeyMessage := "Geoapify API key not configured"
  const RequestFailedLead := "Geoapify API request failed: "

  function AutocompleteStatus(r: AutocompleteResponse): int
  {
    if r.Listing? then 200 else 500
  }

  /** The `error` member of the body, absent on success. */
  function AutocompleteErrorLabel(r: AutocompleteResponse): Option<string>
  {
    if r.Listing? then None else Some(ServiceUnavailable)
  }

  /** PHP's `empty()` on a query parameter or an environment value. */
  predicate Empty(v: Option<string>)
  {
    v.None? || EmptyString(v.value)
  }

  /** The `details` member: the exception message in debug mode, null otherwise. */
  function Details(debug: bool, message: string): Option<string>
  {
    if debug then Some(message) else None
  }

  /**
   * `autocomplete`, with the suggestions renumbered as `values()` would
   * renumber them (see `Suggestions.EntriesAsWritten` for the keys as
   * written).
   */
  function Autocomplete(query: Option<string>, apiKey: Option<string>, debug: bool,
                        reply: Reply<Field<seq<Feature>>>): Exchange<AutocompleteResponse>
  {
    if Empty(query) then Exchange(Listing([]), [])
    else if Empty(apiKey) then Exchange(Unavailable(Details(debug, MissingKeyMessage)), [])
    else
      var calls := [GeocodeRequest(query.value)];
      match reply
      case Unreachable(m) => Exchange(Unavailable(Details(debug, m)), calls)
      case Received(status, body) =>
        if !Successful(status) then Exchange(Unavailable(Details(debug, RequestFailedLead + IntString(status))), calls)
        else Exchange(Listing(Suggestions.Entries(FeatureList(body))), calls)
  }

  // ---------------------------------------------------------------------------
  // Properties of generate.

  /**
   * A request is rejected exactly when some field fails its rules; the
   * rejection is a 422 naming exactly the failing fields, and no outbound
   * call is made.
   */
  lemma RejectedBeforeAnyCall(form: Validation.FormInput, places: Reply<Field<seq<Feature>>>,
                              gemini: Reply<GeminiBody>)
    ensures Generate(form, places, gemini).response.Rejected? <==> exists f :: !Validation.FieldOk(form, f)
    ensures Generate(form, places, gemini).response.Rejected? ==>
              Generate(form, places, gemini).calls == [] &&
              GenerateStatus(Generate(form, places, gemini).response) == 422 &&
              GenerateErrorLabel(Generate(form, places, gemini).response) == Some(ValidationFailed) &&
              forall f :: f in Generate(form, places, gemini).response.fields <==> !Validation.FieldOk(form, f)
  {
  }

  /**
   * Once validation passes, the places lookup is the first call, and Gemini
   * is called at most once and only after a lookup that did not fail.
   */
  lemma CallOrder(form: Validation.FormInput, places: Reply<Field<seq<Feature>>>, gemini: Reply<GeminiBody>)
    requires Validation.Validate(form).Passed?
    ensures form.latitude.Some? && form.longitude.Some?
    ensures var x := Generate(form, places, gemini);
            1 <= |x.calls| <= 2 &&
            x.calls[0] == PlacesRequest(form.latitude.value, form.longitude.value) &&
            (|x.calls| == 2 <==> NearbyPlaces.Lookup(places).Success?) &&
            (|x.calls| == 2 ==> x.calls[1].GeminiRequest?)
  {
    Validation.PassedFieldsPresent(form);
    if NearbyPlaces.Lookup(places).Failure? {
      LookupFailureStops(form, places, gemini);
    } else {
      GeminiStep(form, places, gemini);
    }
  }

  /** The prompt for a validated form is `constructPrompt` applied to the request's values. */
  lemma PromptForValues(form: Validation.FormInput, names: seq<string>)
    requires Validation.Validate(form).Passed?
    ensures form.location.Some? && form.location.value.Str? &&
            form.description.Some? && form.description.value.Str? &&
            form.platform.Some? && form.platform.value.Str? &&
            form.rooms.Some? && form.washrooms.Some? &&
            Printable(form.rooms.value) && Printable(form.washrooms.value)
    ensures PromptFor(form, names) ==
            Prompt.ConstructPrompt(form.location.value.s, Interpolate(form.rooms.value), Interpolate(form.washrooms.value),
                                   form.description.value.s, names, form.platform.value.s)
  {
    Validation.PassedFieldsPresent(form);
    Validation.PassedCountsPrintable(form);
  }

  /**
   * The prompt for a validated form names the location, the description,
   * the platform and both counts.
   */
  lemma PromptForMentions(form: Validation.FormInput, names: seq<string>)
    requires Validation.Validate(form).Passed?
    ensures form.location.Some? && form.location.value.Str? &&
            form.description.Some? && form.description.value.Str? &&
            form.platform.Some? && form.platform.value.Str? &&
            form.rooms.Some? && form.washrooms.Some? &&
            Printable(form.rooms.value) && Printable(form.washrooms.value)
    ensures Collections.Occurs(form.location.value.s, PromptFor(form, names))
    ensures Collections.Occurs(form.description.value.s, PromptFor(form, names))
    ensures Collections.Occurs("optimized for " + form.platform.value.s + ". ", PromptFor(form, names))
    ensures Collections.Occurs(Interpolate(form.rooms.value) + " bedrooms and " + Interpolate(form.washrooms.value) + " bathrooms",
                               PromptFor(form, names))
  {
    PromptForValues(form, names);
    var location, description, platform := form.location.value.s, form.description.value.s, form.platform.value.s;
    var rooms, washrooms := Interpolate(form.rooms.value), Interpolate(form.washrooms.value);
    Prompt.FieldsInPrompt(location, rooms, washrooms, description, names, platform);
    Prompt.PlatformInPrompt(location, rooms, washrooms, description, names, platform);
  }

  /** The prompt for a validated form names every nearby place. */
  lemma PromptForNamesPlaces(form: Validation.FormInput, names: seq<string>)
    requires Validation.Validate(form).Passed?
    ensures forall k :: 0 <= k < |names| ==> Collections.Occurs(names[k], PromptFor(form, names))
  {
    PromptForValues(form, names);
    Prompt.PlacesInPrompt(form.location.value.s, Interpolate(form.rooms.value), Interpolate(form.washrooms.value),
                          form.description.value.s, names, form.platform.value.s);
  }

  /** Past validation, a failed lookup ends the request with only the places call made. */
  lemma LookupFailureStops(form: Validation.FormInput, places: Reply<Field<seq<Feature>>>, gemini: Reply<GeminiBody>)
    requires Validation.Validate(form).Passed? && NearbyPlaces.Lookup(places).Failure?
    ensures form.latitude.Some? && form.longitude.Some?
    ensures Generate(form, places, gemini) ==
            Exchange(Failed(Places(NearbyPlaces.Lookup(places).error)), [PlacesRequest(form.latitude.value, form.longitude.value)])
  {
    Validation.PassedFieldsPresent(form);
  }

  /**
   * Past validation and a lookup that yields names, Gemini is sent the
   * prompt for those names, after the places call.
   */
  lemma GeminiStep(form: Validation.FormInput, places: Reply<Field<seq<Feature>>>, gemini: Reply<GeminiBody>)
    requires Validation.Validate(form).Passed? && NearbyPlaces.Lookup(places).Success?
    ensures form.latitude.Some? && form.longitude.Some?
    ensures Generate(form, places, gemini).calls ==
            [PlacesRequest(form.latitude.value, form.longitude.value), GeminiRequest(PromptFor(form, NearbyPlaces.Lookup(places).value))]
  {
    Validation.PassedFieldsPresent(form);
  }

  /** Then a 2xx reply from Gemini gives the generated result: its text, the request, the places and the prompt. */
  lemma GeminiAnswered(form: Validation.FormInput, places: Reply<Field<seq<Feature>>>, gemini: Reply<GeminiBody>)
    requires Validation.Validate(form).Passed? && NearbyPlaces.Lookup(places).Success?
    requires gemini.Received? && Successful(gemini.status)
    ensures Generate(form, places, gemini).response ==
            Generated(gemini.body.text, form, NearbyPlaces.Lookup(places).value, PromptFor(form, NearbyPlaces.Lookup(places).value))
  {
  }

  /** A reply outside 2xx is Gemini's error, carrying the reply's body. */
  lemma GeminiRejects(form: Validation.FormInput, places: Reply<Field<seq<Feature>>>, gemini: Reply<GeminiBody>)
    requires Validation.Validate(form).Passed? && NearbyPlaces.Lookup(places).Success?
    requires gemini.Received? && !Successful(gemini.status)
    ensures Generate(form, places, gemini).response == Failed(GeminiRejected(gemini.body.raw))
  {
  }

  /** A transport failure is passed on with its message. */
  lemma GeminiUnreachableFails(form: Validation.FormInput, places: Reply<Field<seq<Feature>>>, gemini: Reply<GeminiBody>)
    requires Validation.Validate(form).Passed? && NearbyPlaces.Lookup(places).Success?
    requires gemini.Unreachable?
    ensures Generate(form, places, gemini).response == Failed(GeminiUnreachable(gemini.message))
  {
  }

  /** The result is generated exactly when validation, the lookup and Gemini all succeed. */
  lemma GeneratedResponse(form: Validation.FormInput, places: Reply<Field<seq<Feature>>>,
                          gemini: Reply<GeminiBody>)
    ensures var x := Generate(form, places, gemini);
            x.response.Generated? <==>
            Validation.Validate(form).Passed? && NearbyPlaces.Lookup(places).Success? &&
            gemini.Received? && Successful(gemini.status)
  {
  }

  /**
   * A successful request is a 200 carrying Gemini's text, the request as
   * received, and places that are distinct, non-empty and named in the
   * prompt Gemini was sent.
   */
  lemma GeneratedContent(form: Validation.FormInput, places: Reply<Field<seq<Feature>>>,
                         gemini: Reply<GeminiBody>)
    ensures var r := Generate(form, places, gemini).response;
            r.Generated? ==>
              GenerateStatus(r) == 200 && r.description == gemini.body.text && r.input == form &&
              Collections.NoDuplicates(r.nearbyPlaces) &&
              (forall s :: s in r.nearbyPlaces ==> NearbyPlaces.Truthy(s)) &&
              (forall k :: 0 <= k < |r.nearbyPlaces| ==> Collections.Occurs(r.nearbyPlaces[k], r.prompt)) &&
              |Generate(form, places, gemini).calls| == 2 && Generate(form, places, gemini).calls[1] == GeminiRequest(r.prompt)
  {
    GeneratedResponse(form, places, gemini);
    if Generate(form, places, gemini).response.Generated? {
      GeminiStep(form, places, gemini);
      GeminiAnswered(form, places, gemini);
      NearbyPlaces.LookupSpec(places);
      PromptForNamesPlaces(form, NearbyPlaces.Lookup(places).value);
    }
  }

  /** Every failure after validation is a 500 with the catch block's label. */
  lemma FailedResponse(form: Validation.FormInput, places: Reply<Field<seq<Feature>>>,
                       gemini: Reply<GeminiBody>)
    ensures var r := Generate(form, places, gemini).response;
            r.Failed? ==> GenerateStatus(r) == 500 && GenerateErrorLabel(r) == Some(GenerateFailed)
  {
  }

  /** A failed lookup is reported as such, and then Gemini is not called. */
  lemma PlacesFailureReported(form: Validation.FormInput, places: Reply<Field<seq<Feature>>>,
                              gemini: Reply<GeminiBody>)
    ensures var x := Generate(form, places, gemini);
            x.response.Failed? && x.response.error.Places? ==>
              NearbyPlaces.Lookup(places) == Failure(x.response.error.cause) && |x.calls| == 1
  {
    if Validation.Validate(form).Passed? {
      if NearbyPlaces.Lookup(places).Failure? {
        LookupFailureStops(form, places, gemini);
      } else {
        GeminiStep(form, places, gemini);
      }
    }
  }

  /**
   * Gemini's error is reported only for a request that got past the lookup
   * and whose Gemini reply is outside 2xx, as "Gemini API error: " and the
   * body.
   */
  lemma GeminiErrorReported(form: Validation.FormInput, places: Reply<Field<seq<Feature>>>,
                            gemini: Reply<GeminiBody>)
    ensures var x := Generate(form, places, gemini);
            x.response.Failed? && x.response.error.GeminiRejected? ==>
              gemini.Received? && !Successful(gemini.status) && |x.calls| == 2 &&
              ErrorMessage(x.response.error) == GeminiErrorLead + gemini.body.raw
  {
  }

  /**
   * A places response outside 2xx does not stop the request: the prompt is
   * built without a nearby clause and Gemini is still asked.
   */
  lemma PlacesOutageDegrades(form: Validation.FormInput, status: int, body: Field<seq<Feature>>,
                             gemini: Reply<GeminiBody>)
    requires Validation.Validate(form).Passed? && !Successful(status)
    ensures var x := Generate(form, Received(status, body), gemini);
            |x.calls| == 2 && x.calls[1] == GeminiRequest(PromptFor(form, [])) &&
            (x.response.Generated? ==> x.response.nearbyPlaces == [])
  {
    NearbyPlaces.LookupOutcomes(Received(status, body));
    GeminiStep(form, Received(status, body), gemini);
    if gemini.Received? && Successful(gemini.status) {
      GeminiAnswered(form, Received(status, body), gemini);
    }
  }

  /**
   * A three-bedroom, two-bathroom house in Austin, sent as JSON numbers, with
   * a places reply naming "Zilker Park" twice, one null name and "Austin
   * Eats", and a Gemini reply with a text: the result carries Gemini's text
   * and the two distinct places, and Gemini is called exactly once, after
   * the places call, with the prompt for those places.
   */
  lemma AustinRequest(form: Validation.FormInput, places: Reply<Field<seq<Feature>>>, gemini: Reply<GeminiBody>)
    requires form == AustinForm()
    requires places == Received(200, Given([
                         Feature(Given(Properties(Missing, Missing, Missing, Given("Zilker Park")))),
                         Feature(Given(Properties(Missing, Missing, Missing, Provider.Null))),
                         Feature(Given(Properties(Missing, Missing, Missing, Given("Zilker Park")))),
                         Feature(Given(Properties(Missing, Missing, Missing, Given("Austin Eats"))))]))
    requires gemini == Received(200, GeminiBody("{}", Some("A sunny home")))
    ensures Generate(form, places, gemini).response.Generated?
    ensures Generate(form, places, gemini).response.description == Some("A sunny home")
    ensures Generate(form, places, gemini).response.nearbyPlaces == ["Zilker Park", "Austin Eats"]
    ensures Generate(form, places, gemini).response.prompt == PromptFor(form, ["Zilker Park", "Austin Eats"])
    ensures Generate(form, places, gemini).calls ==
            [PlacesRequest(Float(30.27), Float(-97.74)), GeminiRequest(Generate(form, places, gemini).response.prompt)]
  {
    AustinFormPasses(form);
    NearbyPlaces.AustinPlaces();
    GeminiStep(form, places, gemini);
    GeminiAnswered(form, places, gemini);
  }

  /** The JSON body of that request. */
  function AustinForm(): Validation.FormInput
  {
    Validation.FormInput(Some(Str("Austin, TX")), Some(Float(30.27)), Some(Float(-97.74)),
                         Some(Int(3)), Some(Int(2)),
                         Some(Str("pool, modern kitchen")), Some(Str("Instagram")))
  }

  lemma AustinFormPasses(form: Validation.FormInput)
    requires form == AustinForm()
    ensures Validation.Validate(form).Passed?
  {
    assert !Blank("Austin, TX") by { assert "Austin, TX"[0] == 'A'; }
    assert !Blank("pool, modern kitchen") by { assert "pool, modern kitchen"[0] == 'p'; }
    assert "Instagram" in Validation.Platforms;
    Validation.AcceptsJsonForm("Austin, TX", 30.27, -97.74, 3, 2, "pool, modern kitchen", "Instagram");
  }

  /**
   * The prompt for that form and those places names the location, states
   * both counts, lists the places in one sentence and carries Instagram's
   * style clause.
   */
  lemma AustinPrompt(form: Validation.FormInput, names: seq<string>)
    requires form == AustinForm()
    requires names == ["Zilker Park", "Austin Eats"]
    requires Validation.Validate(form).Passed?
    ensures Collections.Occurs("Austin, TX", PromptFor(form, names))
    ensures Collections.Occurs("3 bedrooms and 2 bathrooms", PromptFor(form, names))
    ensures Collections.Occurs("Nearby attractions include: Zilker Park, Austin Eats.", PromptFor(form, names))
    ensures Collections.Occurs(Prompt.InstagramStyle, PromptFor(form, names))
  {
    assert Interpolate(Int(3)) == "3" && Interpolate(Int(2)) == "2";
    assert PromptFor(form, names) == AustinPromptText(names);
    AustinLocation(names);
    AustinRooms(names);
    AustinNearby(names);
    AustinStyle(names);
  }

  function AustinPromptText(names: seq<string>): string
  {
    Prompt.ConstructPrompt("Austin, TX", "3", "2", "pool, modern kitchen", names, "Instagram")
  }

  lemma AustinLocation(names: seq<string>)
    ensures Collections.Occurs("Austin, TX", AustinPromptText(names))
  {
    Prompt.FieldsInPrompt("Austin, TX", "3", "2", "pool, modern kitchen", names, "Instagram");
  }

  lemma AustinRooms(names: seq<string>)
    ensures Collections.Occurs("3 bedrooms and 2 bathrooms", AustinPromptText(names))
  {
    Prompt.FieldsInPrompt("Austin, TX", "3", "2", "pool, modern kitchen", names, "Instagram");
    AustinRoomsText();
    SameText("3" + " bedrooms and " + "2" + " bathrooms", "3 bedrooms and 2 bathrooms", AustinPromptText(names));
  }

  lemma AustinNearby(names: seq<string>)
    requires names == ["Zilker Park", "Austin Eats"]
    ensures Collections.Occurs("Nearby attractions include: Zilker Park, Austin Eats.", AustinPromptText(names))
  {
    Prompt.PlacesInPrompt("Austin, TX", "3", "2", "pool, modern kitchen", names, "Instagram");
    AustinNearbyText(names);
    SameText(Prompt.NearbyLead + Collections.Join(", ", names) + ".", "Nearby attractions include: Zilker Park, Austin Eats.",
             AustinPromptText(names));
  }

  lemma AustinStyle(names: seq<string>)
    ensures Collections.Occurs(Prompt.InstagramStyle, AustinPromptText(names))
  {
    Prompt.PlatformInPrompt("Austin, TX", "3", "2", "pool, modern kitchen", names, "Instagram");
    Prompt.StyleSelection("Instagram");
  }

  lemma AustinRoomsText()
    ensures "3" + " bedrooms and " + "2" + " bathrooms" == "3 bedrooms and 2 bathrooms"
  {
  }

  lemma AustinNearbyText(names: seq<string>)
    requires names == ["Zilker Park", "Austin Eats"]
    ensures Prompt.NearbyLead + Collections.Join(", ", names) + "." == "Nearby attractions include: Zilker Park, Austin Eats."
  {
    assert names[1..] == ["Austin Eats"];
    assert Collections.Join(", ", names) == "Zilker Park, Austin Eats";
  }

  lemma SameText(s: string, t: string, p: string)
    requires Collections.Occurs(s, p) && s == t
    ensures Collections.Occurs(t, p)
  {
  }

  // ---------------------------------------------------------------------------
  // Properties of autocomplete.

  /** An empty query is answered with an empty list before the key is checked or anything is sent. */
  lemma EmptyQueryShortCircuits(query: Option<string>, apiKey: Option<string>, debug: bool,
                                reply: Reply<Field<seq<Feature>>>)
    requires Empty(query)
    ensures Autocomplete(query, apiKey, debug, reply) == Exchange(Listing([]), [])
  {
  }

  /**
   * A non-empty query is sent once, with the query as its text, when a key
   * is configured; without a key nothing is sent and the failure names the
   * missing key in debug mode only.
   */
  lemma QueryCalls(query: Option<string>, apiKey: Option<string>, debug: bool,
                   reply: Reply<Field<seq<Feature>>>)
    requires !Empty(query)
    ensures Empty(apiKey) ==>
              Autocomplete(query, apiKey, debug, reply) ==
              Exchange(Unavailable(if debug then Some(MissingKeyMessage) else None), [])
    ensures !Empty(apiKey) ==> Autocomplete(query, apiKey, debug, reply).calls == [GeocodeRequest(query.value)]
  {
  }

  /**
   * The outcomes of a sent query: a 2xx reply lists the suggestions, in
   * the provider's order and as a JSON list the page shows in full; any
   * other status, or a transport failure, is a 500 "Service unavailable"
   * whose details, in debug mode only, are the exception's message.
   */
  lemma AutocompleteOutcomes(query: Option<string>, apiKey: Option<string>, debug: bool,
                             reply: Reply<Field<seq<Feature>>>)
    requires !Empty(query) && !Empty(apiKey)
    ensures var r := Autocomplete(query, apiKey, debug, reply).response;
            r.Listing? <==> reply.Received? && Successful(reply.status)
    ensures var r := Autocomplete(query, apiKey, debug, reply).response;
            r.Listing? ==>
              AutocompleteStatus(r) == 200 &&
              Suggestions.EncodesAsList(r.entries) &&
              Suggestions.ShownByClient(r.entries) ==
                Collections.Map(Suggestions.Suggestions(FeatureList(reply.body)), (s: Suggestions.Suggestion) => s.formatted) &&
              forall e :: e in r.entries ==> !EmptyString(e.suggestion.formatted)
    ensures var r := Autocomplete(query, apiKey, debug, reply).response;
            r.Listing? ==>
              forall k :: 0 <= k < |r.entries| ==>
                r.entries[k].key == k &&
                r.entries[k].suggestion == Suggestions.EntriesAsWritten(FeatureList(reply.body))[k].suggestion
    ensures var r := Autocomplete(query, apiKey, debug, reply).response;
            r.Unavailable? ==>
              AutocompleteStatus(r) == 500 && AutocompleteErrorLabel(r) == Some(ServiceUnavailable) &&
              (debug <==> r.details.Some?)
    ensures reply.Received? && !Successful(reply.status) && debug ==>
              Autocomplete(query, apiKey, debug, reply).response ==
              Unavailable(Some(RequestFailedLead + IntString(reply.status)))
    ensures reply.Unreachable? && debug ==>
              Autocomplete(query, apiKey, debug, reply).response == Unavailable(Some(reply.message))
  {
    if reply.Received? && Successful(reply.status) {
      var features := FeatureList(reply.body);
      Suggestions.EntriesReachClient(features);
      Suggestions.SuggestionsSpec(features);
      var entries := Suggestions.Entries(features);
      forall e | e in entries ensures !EmptyString(e.suggestion.formatted) {
        var k :| 0 <= k < |entries| && entries[k] == e;
        assert e.suggestion == Suggestions.Suggestions(features)[k];
      }
    }
  }
}
