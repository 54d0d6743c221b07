# Property description prompt generator — a verified model

This project models the controller of a small Laravel application. A real-estate owner fills in a form: location, coordinates, rooms, washrooms, a short description and a target platform. The controller then:

1. checks the form against a rule table;
2. asks Geoapify for places of interest near the coordinates;
3. builds a prompt for Gemini from a fixed template;
4. returns Gemini's text together with the data it used.

A second endpoint proxies Geoapify's address autocomplete.

The model keeps the controller's own structure. It is written as pure functions over values, with lemmas about them.

- The HTTP replies of Geoapify and Gemini are inputs to the model.
- The outbound requests are recorded in a trace, so a lemma can say which calls are made and in what order.
- JSON values reaching the validator are a small datatype covering null, booleans, integers, floats, strings and arrays.
- PHP's `empty`, `trim`, `is_numeric`, `FILTER_VALIDATE_INT` and string interpolation are written out for those values.

Modules:

- `Wrappers`: `Option` and `Result`.
- `Collections`: Laravel's collection steps used here (`map`, `filter`, `unique`, `values`) and `implode`. Each has a reference definition: kept positions, first positions, substrings.
- `PhpValues`: request values, plus the PHP string predicates the validation rules rely on.
- `Validation`: the rule table of `generate`.
- `Prompt`: `constructPrompt`.
- `Provider`: the parts of a Geoapify reply the controller reads.
- `Suggestions`: the suggestion pipeline of `autocomplete`.
- `NearbyPlaces`: `getNearbyPlaces`.
- `Controller`: `generate` and `autocomplete` end to end.

## Model

All source paths are relative to the repository root.

| member | source | states |
|---|---|---|
| Collections.Map | app/Http/Controllers/PromptGeneratorController.php:45-51 | `map` keeps the length and applies the callback at every position |
| Collections.KeptPositionsSpec | app/Http/Controllers/PromptGeneratorController.php:52 | the positions `filter` keeps are strictly increasing, and a position is among them exactly when the callback accepts its element |
| Collections.FilterIsSelect | app/Http/Controllers/PromptGeneratorController.php:52 | `filter` yields the input read at exactly those kept positions |
| Collections.FilterAtKeptPositions | app/Http/Controllers/PromptGeneratorController.php:52 | `filter` yields the input read at strictly increasing positions, and a position is among them exactly when the callback accepts its element |
| Collections.FilterMembership | app/Http/Controllers/PromptGeneratorController.php:146 | a value survives `filter` exactly when it is in the input and accepted |
| Collections.FilterLength | app/Http/Controllers/PromptGeneratorController.php:52 | `filter` never yields more elements than it is given |
| Collections.KeysAreIndicesIffDownClosed | app/Http/Controllers/PromptGeneratorController.php:52-53 | the keys `filter` preserves are 0, 1, 2, … exactly when no rejected element comes before an accepted one |
| Collections.UniqueIsFirstOccurrences | app/Http/Controllers/PromptGeneratorController.php:147 | `unique` equals the input read at the positions whose value has not occurred earlier |
| Collections.FirstPositionsSpec | app/Http/Controllers/PromptGeneratorController.php:147 | those first positions are increasing and contain a position exactly when its value does not occur before it |
| Collections.UniqueSpec | app/Http/Controllers/PromptGeneratorController.php:147 | `unique` has no duplicates, has the same values as its input, and keeps each value at its first occurrence, in input order; it never yields more elements than its input |
| Collections.FilterThenUnique | app/Http/Controllers/PromptGeneratorController.php:146-148 | `filter` then `unique`: no duplicates; exactly the accepted values; a subsequence of the input read at each value's first occurrence; no longer than the input |
| Collections.JoinContainsEach | app/Http/Controllers/PromptGeneratorController.php:157 | `implode` contains every joined string as a substring |
| Collections.JoinEmpty | app/Http/Controllers/PromptGeneratorController.php:157 | joining non-empty strings gives "" exactly when there are none |
| PhpValues.IsNumericString | app/Http/Controllers/PromptGeneratorController.php:70-71 | `is_numeric` on a string: white space, a decimal numeral with optional exponent, white space; `FilterIntIsNumeric` shows it admits every string FILTER_VALIDATE_INT accepts |
| PhpValues.FilterInt | app/Http/Controllers/PromptGeneratorController.php:72-73 | FILTER_VALIDATE_INT on a string: trimmed, an optional sign, no leading zero, only 64-bit values; `FilterIntOfIntString` reads every 64-bit integer back from its printed form |
| PhpValues.Interpolate | app/Http/Controllers/PromptGeneratorController.php:165-167 | string interpolation of a request value; `CountTextReadsBack` shows a validated count reads back as the integer that was checked |
| PhpValues.DropLeading | app/Http/Controllers/PromptGeneratorController.php:69 | trimming the front removes a prefix made only of the given characters, and stops at a character outside them |
| PhpValues.DropTrailing | app/Http/Controllers/PromptGeneratorController.php:69 | trimming the back removes a suffix made only of the given characters, and stops at a character outside them |
| PhpValues.NatString | app/Http/Controllers/PromptGeneratorController.php:166 | a natural number prints as a non-empty digit string, with a leading zero only for 0 and one digit exactly below 10 |
| PhpValues.FilterIntOfIntString | app/Http/Controllers/PromptGeneratorController.php:72-73 | FILTER_VALIDATE_INT reads every 64-bit integer back from its printed form |
| PhpValues.FilterIntIsNumeric | app/Http/Controllers/PromptGeneratorController.php:72-73 | every string FILTER_VALIDATE_INT accepts is also `is_numeric`, so `between` measures the integer value |
| Validation.FieldOk | app/Http/Controllers/PromptGeneratorController.php:68-76 | one predicate per line of the rule table (`LocationOk`, `CoordinateOk`, `CountOk`, `DescriptionOk`, `PlatformOk`); characterised by `Rejections`, `AcceptsBrowserForm`, `AcceptsJsonForm`, `PassedFieldsPresent` and `PassedCountsPrintable` |
| Validation.IntegerValue | app/Http/Controllers/PromptGeneratorController.php:72-73 | the `integer` rule only ever yields 64-bit integers |
| Validation.Validate | app/Http/Controllers/PromptGeneratorController.php:68-84 | the validator passes exactly when every field passes its rules; otherwise it names at least one field, names exactly the failing fields, and names them in rule-table order |
| Validation.FailingIsFilter | app/Http/Controllers/PromptGeneratorController.php:78-82 | the failing fields are the rule table filtered by failure |
| Validation.RuleTableComplete | app/Http/Controllers/PromptGeneratorController.php:68-76 | every field of the form has a line in the rule table |
| Validation.Rejections | app/Http/Controllers/PromptGeneratorController.php:69-75 | each of these alone fails its field: a missing field; a count whose integer value is outside 1..10 (0 or 11 rooms, -1 washrooms); a string description over 500 characters; a platform that is not a string or not one of the three names |
| Validation.ReportsEveryFailure | app/Http/Controllers/PromptGeneratorController.php:78-83 | a field fails its rules exactly when the verdict names it |
| Validation.AcceptsBrowserForm | app/Http/Controllers/PromptGeneratorController.php:68-76 | a form of strings, with counts sent as "1" to "10", passes whenever its location and description are not blank, its coordinates are numeric, the description fits 500 characters and the platform is one of the three |
| Validation.AcceptsJsonForm | app/Http/Controllers/PromptGeneratorController.php:68-76 | a body with numbers for the coordinates and counts passes whenever its location and description are not blank, the counts are in 1..10, the description fits 500 characters and the platform is one of the three |
| Validation.PassedFieldsPresent | app/Http/Controllers/PromptGeneratorController.php:69-75 | a form that passed has every field; its location, description and platform are strings |
| Validation.PassedCountsPrintable | app/Http/Controllers/PromptGeneratorController.php:72-73 | after validation both counts are present, read as integers in 1..10, and can be interpolated into the prompt |
| Validation.CountTextReadsBack | app/Http/Controllers/PromptGeneratorController.php:166 | a count that passes its rules is printed as text that FILTER_VALIDATE_INT reads back as the validated integer |
| Validation.PassedCountReadsBack | app/Http/Controllers/PromptGeneratorController.php:97-104 | the same, for the rooms and washrooms of a validated form |
| Prompt.ConstructPrompt | app/Http/Controllers/PromptGeneratorController.php:155-173 | the template; `PromptLayout` gives its pieces and offsets, `NearbyInsertion` where the places go, and `FieldsInPrompt`, `PlatformInPrompt` and `PlacesInPrompt` what it contains |
| Prompt.NearbyClauseShape | app/Http/Controllers/PromptGeneratorController.php:157 | the nearby clause is "" exactly when there are no places; otherwise it is "Nearby attractions include: " + the names joined by ", " + ". " |
| Prompt.NearbyClauseNamesEachPlace | app/Http/Controllers/PromptGeneratorController.php:157 | every place occurs in the nearby clause |
| Prompt.StyleSelection | app/Http/Controllers/PromptGeneratorController.php:159-163 | "Facebook" selects the engaging clause and "Instagram" the hashtag clause; every other platform, "Own Website" included, selects the SEO clause |
| Prompt.PromptLayout | app/Http/Controllers/PromptGeneratorController.php:165-172 | the prompt is its seven pieces in fixed order, each read back at the offset where the previous one ends |
| Prompt.NearbyInsertion | app/Http/Controllers/PromptGeneratorController.php:157-168 | places enter the prompt only as the nearby clause, inserted after the features sentence; the prompt equals the prompt without places exactly when there are none |
| Prompt.FieldsInPrompt | app/Http/Controllers/PromptGeneratorController.php:165-167 | the prompt contains the location, "R bedrooms and W bathrooms" and the description |
| Prompt.PlatformInPrompt | app/Http/Controllers/PromptGeneratorController.php:159-171 | the prompt contains "optimized for P. " and the style clause the platform selects |
| Prompt.PlacesInPrompt | app/Http/Controllers/PromptGeneratorController.php:157-168 | the prompt contains every place and, when there are places, the sentence "Nearby attractions include: " + the names joined by ", " + "." |
| Provider.FeatureList | app/Http/Controllers/PromptGeneratorController.php:44 | the reply's `features` member as a collection: an absent or null `features` is an empty list; used by `Suggestions.Entries` and `NearbyPlaces.Lookup` |
| Suggestions.ToSuggestion | app/Http/Controllers/PromptGeneratorController.php:45-51 | the map step of `autocomplete`; `SuggestionDefaults` gives its defaults |
| Suggestions.Suggestions | app/Http/Controllers/PromptGeneratorController.php:44-52 | the map and filter steps; `SuggestionsSpec` characterises the kept suggestions |
| Suggestions.SuggestionsSpec | app/Http/Controllers/PromptGeneratorController.php:44-53 | every suggestion has a non-empty address; the suggestions are the mapped features at increasing positions; every feature with a non-empty address is kept; there are no more suggestions than features |
| Suggestions.SuggestionDefaults | app/Http/Controllers/PromptGeneratorController.php:47-49 | a missing or null address is "" and a missing or null coordinate is 0, whether the member or the whole `properties` is absent; given members are passed through |
| Suggestions.EntriesAsWritten | app/Http/Controllers/PromptGeneratorController.php:52-53 | the array as returned: one entry per kept suggestion; each entry's key is a feature's position and its suggestion is that feature mapped, with a non-empty address; the keys rise; every feature with a non-empty address has an entry |
| Suggestions.AsWrittenEncodesAsList | app/Http/Controllers/PromptGeneratorController.php:52-55 | as written, the response is a JSON list exactly when every dropped feature comes after every kept one |
| Suggestions.AsWrittenHidesSuggestions | app/Http/Controllers/PromptGeneratorController.php:52-55 | the concrete case behind the finding below: one suggestion is kept, yet the response is a JSON object and the page shows nothing |
| Suggestions.Entries | app/Http/Controllers/PromptGeneratorController.php:52-53 | with `values()`: the as-written entries in the same order, renumbered 0, 1, 2, … |
| Suggestions.ShownByClient | resources/views/prompt-generator/index.blade.php:141-147 | what the page's script lists: every address of a JSON list, nothing for an object; characterised by `AsWrittenHidesSuggestions` and `EntriesReachClient` |
| Suggestions.EntriesReachClient | resources/views/prompt-generator/index.blade.php:141-147 | with `values()`, the response is always a JSON list; the page shows every kept address in provider order; each entry holds the suggestion of the as-written entry at the same place |
| NearbyPlaces.Lookup | app/Http/Controllers/PromptGeneratorController.php:129-153 | `getNearbyPlaces` on a reply; `LookupOutcomes` and `LookupSpec` characterise it |
| NearbyPlaces.PlaceNames | app/Http/Controllers/PromptGeneratorController.php:142-149 | the names on a 2xx reply once every name can be read; `PlaceNamesSpec` and `PlacesAreGivenNames` characterise them |
| NearbyPlaces.NameFault | app/Http/Controllers/PromptGeneratorController.php:144 | whether reading `properties.name` raises, and why (absent or null `properties`, absent `name`); characterised through `FirstFault`, `LookupOutcomes` and `PlacesAreGivenNames` |
| NearbyPlaces.FirstFault | app/Http/Controllers/PromptGeneratorController.php:142-145 | `map` fails at the first feature whose name cannot be read, and succeeds exactly when there is none |
| NearbyPlaces.PlaceNamesSpec | app/Http/Controllers/PromptGeneratorController.php:142-149 | the names: none empty, none twice, exactly the provider's non-empty names, each taken at its first occurrence in provider order, no more of them than features |
| NearbyPlaces.PlacesAreGivenNames | app/Http/Controllers/PromptGeneratorController.php:142-148 | a string is a place exactly when it is non-empty and some feature gives it as its name; null and absent names never become places |
| NearbyPlaces.FalsyNamesDropped | app/Http/Controllers/PromptGeneratorController.php:146 | a null, "" or "0" name contributes nothing; no result is "" or "0" |
| NearbyPlaces.LookupOutcomes | app/Http/Controllers/PromptGeneratorController.php:141-152 | a transport failure propagates; a status outside 2xx gives exactly []; a 2xx reply fails exactly when some feature's name cannot be read, and then at the first such feature |
| NearbyPlaces.LookupSpec | app/Http/Controllers/PromptGeneratorController.php:141-152 | whatever the reply, the places returned are non-empty, distinct names the provider gave, no more of them than features |
| NearbyPlaces.AustinPlaces | app/Http/Controllers/PromptGeneratorController.php:142-149 | names "Zilker Park", null, "Zilker Park", "Austin Eats" give ["Zilker Park", "Austin Eats"] |
| Controller.Generate | app/Http/Controllers/PromptGeneratorController.php:66-127 | `generate` end to end, the response with the trace of outbound calls; characterised by `RejectedBeforeAnyCall`, `CallOrder`, `LookupFailureStops`, `GeminiStep` and the outcome lemmas below |
| Controller.PromptFor | app/Http/Controllers/PromptGeneratorController.php:97-104 | the prompt of a validated form: `constructPrompt` on the request's values as interpolated; characterised by `PromptForMentions` and `PromptForNamesPlaces` |
| Controller.GenerateStatus | app/Http/Controllers/PromptGeneratorController.php:80-125 | 200 for a generated result, 422 for a rejection, 500 for a failure; stated per outcome by `RejectedBeforeAnyCall`, `GeneratedContent` and `FailedResponse` |
| Controller.GenerateErrorLabel | app/Http/Controllers/PromptGeneratorController.php:80-122 | the `error` member: "Validation failed" for a rejection, "Failed to generate description" for a failure, none on success; stated by `RejectedBeforeAnyCall` and `FailedResponse` |
| Controller.ErrorMessage | app/Http/Controllers/PromptGeneratorController.php:119-126 | the message of a 500: the places exception's text, "Gemini API error: " + the body (line 194), or the transport message; stated by `GeminiErrorReported` |
| Controller.Autocomplete | app/Http/Controllers/PromptGeneratorController.php:17-64 | `autocomplete` with `values()` added; characterised by `EmptyQueryShortCircuits`, `QueryCalls` and `AutocompleteOutcomes` |
| Controller.RejectedBeforeAnyCall | app/Http/Controllers/PromptGeneratorController.php:78-84 | a request is rejected exactly when some field fails; the rejection is a 422 "Validation failed" naming exactly the failing fields, and no outbound call is made |
| Controller.CallOrder | app/Http/Controllers/PromptGeneratorController.php:86-108 | after validation the places lookup is the first call, with the request's coordinates; Gemini is called at most once, and exactly when the lookup did not fail |
| Controller.PromptForMentions | app/Http/Controllers/PromptGeneratorController.php:97-104 | the prompt of a validated form contains its location, its description, "optimized for" its platform, and both counts as interpolated |
| Controller.PromptForNamesPlaces | app/Http/Controllers/PromptGeneratorController.php:97-104 | the prompt of a validated form names every nearby place |
| Controller.LookupFailureStops | app/Http/Controllers/PromptGeneratorController.php:90-93 | after validation, a failed lookup ends the request as that failure, with only the places call made |
| Controller.GeminiStep | app/Http/Controllers/PromptGeneratorController.php:90-108 | after validation and a lookup that yields names, the calls are the places call and then Gemini with the prompt for those names |
| Controller.GeminiAnswered | app/Http/Controllers/PromptGeneratorController.php:108-117 | a 2xx Gemini reply gives the generated result: Gemini's text, the request, the places and the prompt |
| Controller.GeminiRejects | app/Http/Controllers/PromptGeneratorController.php:190-194 | a Gemini reply outside 2xx fails with Gemini's error carrying the reply body |
| Controller.GeminiUnreachableFails | app/Http/Controllers/PromptGeneratorController.php:108-119 | a Gemini transport failure fails with the transport's message |
| Controller.GeneratedResponse | app/Http/Controllers/PromptGeneratorController.php:78-117 | the result is generated exactly when validation, the lookup and Gemini all succeed |
| Controller.GeneratedContent | app/Http/Controllers/PromptGeneratorController.php:112-117 | a generated result is a 200 with Gemini's text, the request as received, distinct non-empty places all named in the prompt, and the prompt Gemini was sent as the second call |
| Controller.FailedResponse | app/Http/Controllers/PromptGeneratorController.php:119-126 | every failure after validation is a 500 "Failed to generate description" |
| Controller.PlacesFailureReported | app/Http/Controllers/PromptGeneratorController.php:90-93 | a places failure is reported only when the lookup failed with that error, and then only one call was made |
| Controller.GeminiErrorReported | app/Http/Controllers/PromptGeneratorController.php:190-194 | Gemini's error is reported only for a Gemini reply outside 2xx, after both calls, with the message "Gemini API error: " + the body |
| Controller.PlacesOutageDegrades | app/Http/Controllers/PromptGeneratorController.php:141-152 | a places reply outside 2xx still leads to a Gemini call, with the prompt for no places, and the result lists no places |
| Controller.AustinRequest | app/Http/Controllers/PromptGeneratorController.php:66-117 | the JSON body for a 3-bedroom, 2-bathroom house in "Austin, TX", with a places reply naming "Zilker Park" twice, a null and "Austin Eats", yields Gemini's text and the two distinct places; the calls are exactly the places call with the request's coordinates and one Gemini call with the prompt for those places |
| Controller.AustinPrompt | app/Http/Controllers/PromptGeneratorController.php:155-172 | that prompt contains "Austin, TX", "3 bedrooms and 2 bathrooms", "Nearby attractions include: Zilker Park, Austin Eats." and the Instagram clause |
| Controller.AutocompleteStatus | app/Http/Controllers/PromptGeneratorController.php:55-62 | 200 for a listing, 500 otherwise; stated by `AutocompleteOutcomes` |
| Controller.AutocompleteErrorLabel | app/Http/Controllers/PromptGeneratorController.php:60 | the `error` member "Service unavailable" of every 500; stated by `AutocompleteOutcomes` |
| Controller.EmptyQueryShortCircuits | app/Http/Controllers/PromptGeneratorController.php:22-24 | an empty query is answered with [] before the key is checked and without any call |
| Controller.QueryCalls | app/Http/Controllers/PromptGeneratorController.php:26-38 | without a key nothing is sent and the failure names the missing key in debug mode only; with a key the query is sent once, as its text |
| Controller.AutocompleteOutcomes | app/Http/Controllers/PromptGeneratorController.php:40-62 | a 2xx reply lists the suggestions as a JSON list the page shows in full, each with an address, entry k holding the k-th as-written suggestion (and so a feature's mapped address and coordinates); any other status or a transport failure is a 500 "Service unavailable" whose details appear only in debug mode, a bad status reports "Geoapify API request failed: " + the status and a transport failure its own message |

## Left out

- HTTP, TLS options, timeouts and query parameters of the three outbound requests. Each reply is an input. The places `filter` string built from the coordinates is not modelled, because it depends on PHP's float printing.
- `env()` lookups, `Log::*` calls and the `index` view. The debug flag is a parameter of `autocomplete`. The stack trace `generate` adds in debug mode is not modelled.
- Gemini's text extraction (`candidates.0.content.parts.0.text`) is not modelled. The extracted text, or its absence, is part of the Gemini reply.
- Laravel's per-rule validation messages come from language files that are not part of this model. The verdict carries the failing fields only: `Validation.Field.Key` gives their request keys.
- Laravel's global request middleware (`TrimStrings`, `ConvertEmptyStringsToNull`) is not part of this model; the application's middleware setup is outside the modelled files. The model validates and interpolates strings as received: a description of 501 characters ending in a space fails here, though trimming would let it pass.
- Extra request keys are outside `Validation.FormInput`: `$request->all()` would echo them in `input_data`. A query that is an array is not modelled either.
- Floats are exact reals. A float count passes `integer` only when it is integral and below 10^14 in magnitude, where PHP prints it without a fraction or an exponent. `Float` values elsewhere are never printed.
- Floats that are not integral but that PHP's 14-digit precision prints as an integer (9.999999999999998 prints as "10") pass `integer` in PHP; the model rejects them as counts.
- `unique()` compares loosely in PHP. The model compares strings exactly, so two names that PHP's loose comparison considers equal are both kept.
- Geoapify features are typed: a `formatted`, `lat`, `lon` or `name` member of another JSON type is not modelled.
- `NearbyPlaces.Message`: the exception messages for unreadable names are PHP 8's warning texts. Laravel turns those warnings into exceptions; that conversion is taken as given and not modelled.
- `Controller.Autocomplete` and the `Controller.AutocompleteOutcomes` lemma state the corrected behaviour, with `values()`. The code as written is modelled by `Suggestions.EntriesAsWritten`; see Findings.
- The code and the system's written design disagree in places. The model follows the code:
  - The places lookup is described as never failing. In the code a transport exception and an unreadable name propagate to the catch block of `generate`, and `NearbyPlaces.Lookup` models that.
  - The raw error message of a 500 from `generate` is always included in the code, not only in debug mode.
  - Coordinates are numeric strings as well as numbers.
  - The nearby list is bounded only by the number of features the provider returns. The request asks for at most 10; that request parameter is not modelled.

## Findings

| source | as written | input that shows it | evidently intended | confidence | as-written member | corrected member |
|---|---|---|---|---|---|---|
| app/Http/Controllers/PromptGeneratorController.php:52-53 | `filter` keeps each suggestion under its original key and `toArray()` returns those keys. When a feature before a kept one is dropped, `json_encode` writes an object, and the page's `data.length > 0` test (resources/views/prompt-generator/index.blade.php:142) hides every suggestion. | A reply whose first feature has no `formatted` and whose second has "Austin, TX, United States of America". | Renumber with `values()` so the response is always a JSON list. | high, not executed | Suggestions.AsWrittenHidesSuggestions | Suggestions.EntriesReachClient |
