# Permit search front end and build script, modelled in Dafny

This project models the data-handling core of a permit-search web front end
(`static/app.js`) and of its build script (`build-config.js`). The model covers:

- **Address parsing** (`parsePlaceToSubfields`). A Google Places result's
  address components are folded into six categories, with the last component
  winning. The route is then split into street name, street type and
  direction: a direction word is taken from the front or the back, and a
  street-type word is searched for from the right, ignoring case and periods.
- **Record identifiers** (`chooseIdFromRecord`). The priority keys are tried
  in order, then every key of the record in order; the first truthy value is
  the identifier, and "unknown" is the fallback.
- **Displaying values** (`safeText`). `null` and `undefined` become "";
  anything else goes through `String(v)`.
- **The search query** built by the submit handler. The address is required.
  It is followed by the optional city, permit and dates, the two fixed
  limits, and the structured address subfields stored when a place was picked.
- **The build script.** A non-empty environment variable comes first. If it
  is missing, the `.env` file is scanned for the first `GOOGLE_MAPS_API_KEY`
  entry. The script refuses to go on without a key; otherwise it produces the
  text of `static/config.js` from a fixed template.

The JavaScript built-ins these rely on are modelled in `JsText`:

- `trim` and `split(/\s+/)`;
- `split(c)` / `join(c)` with one character;
- `replace(/\./g, "")` and `toLowerCase`.

JavaScript values, truthiness and `String(v)` are modelled in `JsValues`.
Each loop or in-place mutation of the source is a method. Each method is
proved equal to a reference function, and lemmas state what that function
means.

Files:

- `wrappers.dfy`: `Option` and `Result`.
- `js_text.dfy`: the `JsText` module (string built-ins).
- `js_values.dfy`: the `JsValues` module (values, truthiness, `String(v)`).
- `place_parser.dfy`: the `PlaceParser` module.
- `search_records.dfy`: the `SearchRecords` module.
- `search_query.dfy`: the `SearchQuery` module.
- `build_config.dfy`: the `BuildConfig` module.

Details of the code that the model keeps:

- Every period is removed from a word before it is compared with the
  direction and street-type vocabularies (`replace(/\./g, "")`).
- The direction comparison is case-sensitive. Only the street-type
  comparison ignores case.
- The street type is searched for even when the route is a single word. So
  the route "Street" gives street type "Street" and an empty street name.
- The street name is re-joined from the remaining words only when a street
  type was found. Otherwise it is the route exactly as given, with its
  direction word and its spacing.
- One component can fill several categories, and `postal_town` fills the
  city.
- With no place, or no `address_components`, the parser returns its
  accumulator record, not the subfield record. The accumulator has
  `street_number`, `postal_code` and `country` properties but no
  `street_name`, `city` or `state`.

## Model

| member | source | states |
|---|---|---|
| JsText.Trim | static/app.js:275-277 | `trim` leaves no white space at either end of the result |
| JsText.TrimIsInfix | static/app.js:275-277 | the trimmed string is the infix of the input that starts right after the leading white space |
| JsText.TrimDropsSpace | static/app.js:275-277 | everything `trim` removes, before and after the kept infix, is white space |
| JsText.TrimIdempotent | static/app.js:89 | trimming twice is trimming once |
| JsText.TrimOfTrimmed | static/app.js:89 | a string with no white space at either end is left unchanged by `trim` |
| JsText.SplitSpaces | static/app.js:89 | `split(/\s+/)` gives at least one piece, and no piece contains white space |
| JsText.SplitSpacesStep | static/app.js:89 | a space-free piece followed by a run of white space is split off and the rest is split alike; with SplitSpacesNoSpace this fixes the pieces of every string, whatever its spacing |
| JsText.SplitSpacesJoin | static/app.js:105 | splitting on white space undoes a single-space join of non-empty, space-free words |
| JsText.SplitSpacesNoSpace | static/app.js:89 | a string without white space splits into itself alone |
| JsText.SplitSpacesOfTrim | static/app.js:89 | `trim().split(/\s+/)` is `[""]` for a blank string; otherwise every word is non-empty |
| JsText.JoinEnds | static/app.js:105 | `join(sep)` of no parts is ""; otherwise the result starts with the first part and ends with the last (the parts themselves are recovered by SplitOnJoin and SplitSpacesJoin) |
| JsText.SplitOn | build-config.js:18-22 | `split(c)` gives at least one piece, and no piece contains the separator |
| JsText.JoinSplitOn | build-config.js:22-24 | joining the pieces of `split(c)` with `c` gives the string back |
| JsText.SplitOnJoin | build-config.js:22-24 | `split(c)` undoes `join(c)` when no piece contains `c` |
| JsText.SplitOnFirst | build-config.js:22-24 | the first piece is the text before the first `c`; the other pieces, re-joined with `c`, are the text after it |
| JsText.StripPeriods | static/app.js:93-94 | `replace(/\./g, "")` removes every period and nothing else (multiset), and leaves a period-free string unchanged |
| JsText.StripPeriodsAppend | static/app.js:100 | removing periods keeps the order of the other characters: it distributes over concatenation |
| JsText.LowerCase | static/app.js:101 | `toLowerCase` maps each character separately and keeps the length |
| JsText.LowerCaseIdempotent | static/app.js:101 | no ASCII capital remains, and lower-casing twice is lower-casing once |
| JsValues.NatToDecimal | static/app.js:153-154 | the decimal form of a natural number is non-empty, all digits, with no leading zero |
| JsValues.DecimalRoundTrip | static/app.js:153-154 | reading back the decimal digits of `n` gives `n` |
| JsValues.IntToDecimal | static/app.js:153-154 | `String(n)` of an integer: the digits of `n`, or `-` and the digits of `-n` for negative `n` |
| JsValues.ToJsString | static/app.js:153-154 | `String(v)` of a string is the string itself, of a number its decimal form, and of a truthy value never empty |
| PlaceParser.Read | static/app.js:73 | a reader of the parser's result sees the subfield record as it is; on the early return it sees the accumulator's street number, postal code and country, and "" for every subfield property the accumulator lacks |
| PlaceParser.NameFor | static/app.js:76-81 | the long name, else the short name, else "" (short first for the state and the country): the preferred name when it is non-empty, else the other, and "" only when both are empty |
| PlaceParser.CategoryValueLastWins | static/app.js:74-82 | a category holds the name from the last component that fills it |
| PlaceParser.CategoryValueUnfilled | static/app.js:72-82 | a category that no component fills stays "" |
| PlaceParser.UntypedComponentIgnored | static/app.js:75 | a component without types changes no category, wherever it stands in the list |
| PlaceParser.AbsorbComponent | static/app.js:74-81 | one `forEach` step: each category the component fills is overwritten with its name, and every other category is kept |
| PlaceParser.FoldComponents | static/app.js:72-82 | the accumulator after the `forEach`: for every category, the name from the last component that fills it |
| PlaceParser.FindType | static/app.js:101 | `types.find` on lower-cased words: when found, a vocabulary entry equal to the word ignoring case; when not found, no entry is equal |
| PlaceParser.ContainsIsMembership | static/app.js:95-96 | `dirTokens.includes(w)` is membership of `w` in the list |
| PlaceParser.TypeTokenNonEmpty | static/app.js:100-103 | a street-type word is never empty, so the matched type is always truthy |
| PlaceParser.RightmostIndex | static/app.js:99-102 | the reverse scan finds the rightmost word that passes the test; no later word passes, and when nothing is found no word passes |
| PlaceParser.ExtractDirection | static/app.js:92-97 | the `shift`/`pop` of a direction word equals the reference direction split |
| PlaceParser.RemoveRightmost | static/app.js:98-102 | the reverse scan with `splice` and `break` removes exactly the rightmost word that passes the test, or nothing |
| PlaceParser.ExtractStreetType | static/app.js:98-102 | the reverse scan removes exactly the rightmost street-type word, or nothing |
| PlaceParser.SplitRoute | static/app.js:84-107 | the route split in the source equals the reference decomposition `RouteParts` |
| PlaceParser.DirectionSplitFacts | static/app.js:92-97 | a direction is found iff there are two or more words and the period-stripped first or last is a direction; a direction first word is taken and removed (`shift`); otherwise a direction last word is taken with its periods removed and removed (`pop`); with no direction the words are kept |
| PlaceParser.DirectionSplitRest | static/app.js:95-96 | finding a direction removes exactly the direction's word, the first or the last, keeping the others in order; finding none removes nothing |
| PlaceParser.RouteDirection | static/app.js:89-97 | on a route, a direction is found iff the route has two or more words and its first or last word is a direction; a direction first word wins, else the last word, each with its periods removed |
| PlaceParser.RouteStreetType | static/app.js:98-106 | a street type is a route word (periods kept) that is a type once periods are removed, and no word after it is one; without one, the name is the route unchanged and no remaining word is a type |
| PlaceParser.RouteTokensAccounted | static/app.js:89-105 | the remaining words, the street-type word and the direction word are exactly as many as the route's words |
| PlaceParser.RemoveWordJoin | static/app.js:101-105 | after one word is spliced out, the space-joined rest splits back into exactly the rest, and is empty only when nothing is left |
| PlaceParser.WordsAfterDirection | static/app.js:95-96 | removing the direction word keeps the other words non-empty and space-free |
| PlaceParser.RouteNameWords | static/app.js:103-106 | with a street type, the name is the join of the remaining words, splits back into them, and is empty iff none remain |
| PlaceParser.OneTypeWord | static/app.js:92-106 | a one-word route that is a street type gives that type, an empty name and no direction |
| PlaceParser.LoneStreetType | static/app.js:84-106 | the route "Street" gives street type "Street", an empty name and no direction |
| PlaceParser.NAve | static/app.js:84-106 | the route "N Ave" gives direction "N", street type "Ave" and an empty name |
| PlaceParser.ParsePlaceToSubfields | static/app.js:71-119 | the parser equals the reference `ParsePlace`: the accumulator when there is no place or no components, otherwise the folded categories with the route split |
| PlaceParser.NothingToParse | static/app.js:73-118 | with no place, no components or an empty list, every subfield reads as empty; a subfield record is returned iff the place and its components are present |
| PlaceParser.ParsedLastWins | static/app.js:74-118 | each non-street subfield of the output holds the name from the last component that fills its category |
| PlaceParser.ParsedUnfilled | static/app.js:109-118 | a non-street subfield whose category no component fills is "" |
| PlaceParser.ParsedStreetFromLastRoute | static/app.js:77-118 | the street name, type and direction are the decomposition of the last route component's name |
| PlaceParser.ParsedNoRoute | static/app.js:84-113 | without a route component, the street name, type and direction are all "" |
| SearchRecords.Get | static/app.js:153-154 | `rec[k]` is the value of the first property named `k` when there is one, and `undefined` for an absent key |
| SearchRecords.Keys | static/app.js:154 | `Object.keys` lists the record's property names in order |
| SearchRecords.FirstTruthy | static/app.js:153-154 | the value found is truthy, and nothing is found iff every key's value is falsy |
| SearchRecords.FirstTruthyAt | static/app.js:153-154 | the first key with a truthy value, all earlier ones falsy, gives the value found |
| SearchRecords.ChooseIdFromRecord | static/app.js:150-156 | the two early-return loops equal the reference `RecordId` |
| SearchRecords.NoRecordIsUnknown | static/app.js:152 | a null or missing record has the id "unknown" |
| SearchRecords.RecordIdPriority | static/app.js:151-153 | the first priority key with a truthy value gives the id, whatever else the record holds |
| SearchRecords.RecordIdFallback | static/app.js:154 | with every priority key falsy, the first property in key order with a truthy value gives the id |
| SearchRecords.RecordIdCases | static/app.js:150-156 | a record with nothing truthy has the id "unknown", and the id is never empty |
| SearchRecords.SafeText | static/app.js:157 | the text is "" exactly for `null`, `undefined` and `""`; a string is shown as itself and a number in decimal |
| SearchQuery.KeyNameInjective | static/app.js:285-305 | different query keys have different names in the query string, so no name is sent twice |
| SearchQuery.Optional | static/app.js:287-305 | `if (v) params.append(key, v)` appends the pair exactly when `v` is non-empty |
| SearchQuery.AppendIfPresent | static/app.js:287-305 | the conditional append adds `(key, value)` to the end when `value` is non-empty, and nothing otherwise |
| SearchQuery.BuildSearchParams | static/app.js:275-306 | the handler's sequence of appends equals the reference `SearchParams`, with no request when the trimmed address is empty |
| SearchQuery.RankedBelowMeaning | static/app.js:286-305 | a ranked list has strictly increasing key ranks, all below the bound, and no empty value |
| SearchQuery.AppendRanked | static/app.js:287-305 | a conditional append of a higher-ranked key keeps the list ranked |
| SearchQuery.FormParamsRanked | static/app.js:286-293 | the form's pairs are ranked below the structured keys |
| SearchQuery.FormParamsMembers | static/app.js:286-293 | the form sends a non-structured key, with its trimmed value, exactly when that value is non-empty; it sends no structured key |
| SearchQuery.WithStructuredRanked | static/app.js:300-305 | the structured appends keep the list ranked |
| SearchQuery.WithStructuredMembers | static/app.js:300-305 | a structured key is sent exactly when its stored subfield is non-empty, and earlier pairs are kept |
| SearchQuery.ExpectedSplit | static/app.js:275-305 | the form decides the keys up to `scan_limit`, the stored subfields decide the rest |
| SearchQuery.SearchParamsOrdered | static/app.js:285-306 | the query keys follow the handler's order, so no key appears twice |
| SearchQuery.SearchParamsCarry | static/app.js:275-306 | a key is sent, with its expected value, exactly when that value is non-empty; with no stored parse result, no structured key is sent |
| SearchQuery.SearchParamsMeaning | static/app.js:275-306 | a request is built iff the trimmed address is non-empty; it then starts with the address, its keys are in order and unique, and each key carries exactly its non-empty expected value |
| BuildConfig.FirstIndex | build-config.js:19-27 | the forward scan finds the first line that passes the test; no earlier line passes, and when nothing is found no line passes |
| BuildConfig.EnvFileKeyNone | build-config.js:19-28 | the scan finds no key exactly when no line is an entry for `GOOGLE_MAPS_API_KEY` |
| BuildConfig.EnvFileKeyAt | build-config.js:19-27 | the first entry for the key decides the value, whatever later lines hold |
| BuildConfig.ScanEnvLines | build-config.js:18-28 | the `for`/`break` loop over the lines equals the reference `EnvFileKey` |
| BuildConfig.ResolveKey | build-config.js:12-29 | the key comes from the environment or from the `.env` entry; a set, non-empty environment key or a missing file leaves the environment's value; otherwise an entry found in the file replaces it |
| BuildConfig.ConfigContentParts | build-config.js:39-44 | the generated text is the fixed prefix, then the key unescaped, then the fixed suffix |
| BuildConfig.ConfigContentInjective | build-config.js:39-44 | different keys give different generated files |
| BuildConfig.GenerateConfig | build-config.js:12-44 | the script (environment, `.env` scan, check, template) equals the reference `GenerateConfigSpec` |
| BuildConfig.EnvironmentFirst | build-config.js:12-16 | a non-empty environment variable is used, and the `.env` file is not consulted |
| BuildConfig.FailsExactlyWhenUnset | build-config.js:12-36 | the script fails exactly when the environment gives no key and the file is missing, has no entry, or has an empty value |
| BuildConfig.SuccessCarriesKey | build-config.js:32-44 | on success, the generated file holds the resolved key, and that key is non-empty |
| BuildConfig.EntrySplitsAtFirstEquals | build-config.js:22-24 | a `KEY=value` line splits at its first `=`: the key and value are trimmed, and the value may itself contain `=` |
| BuildConfig.BareNameEntry | build-config.js:20-24 | a name alone on a line, with no `=` and no surrounding space, is an entry for that name with an empty value |
| BuildConfig.BareKeyLineStopsScan | build-config.js:23-26 | a line holding only the key name ends the scan with an empty value |

## Left out

- The DOM, the autocomplete widget, status messages, the loading window and
  the result rendering. They are UI and have no data logic of their own.
- The network requests, `fetchJson`, `fetchJsonOrBinary`, `performance.now`
  and `makeAbsoluteUrl`. They are I/O, clocks or URL resolution outside this
  core.
- `URLSearchParams.toString` and `encodeURIComponent`. The query is modelled
  as its ordered list of (key, value) pairs before encoding.
- `JSON.stringify` / `JSON.parse` of the stored parse result. The stored
  result is passed in as an optional parse result. `None` stands for an
  absent value and for one that fails to parse; both cases skip the
  structured keys.
- `fs.existsSync`, `readFileSync`, `writeFileSync`, `mkdirSync`,
  `process.exit` and the console output of the build script:
  - the environment variable and the file content are parameters;
  - the error exit is `Failure`;
  - the file write is the `Success` content.
- JsValues.ToJsString: numbers are integers only. Floating point, `NaN`,
  `Infinity` and exponent notation in `String(n)` are not modelled.
- SearchRecords.ChooseIdFromRecord:
  - Record values are scalars. Object and array values, which are truthy and
    print as `[object Object]` or joined text, are not modelled.
  - The JavaScript rule that integer-like keys come first in `Object.keys` is
    not modelled. The record is taken in `Object.keys` order as given.
- JsText.LowerCase: exact only for characters whose lower case is ASCII (A-Z
  and the Kelvin sign). Other characters are kept as they are. This is
  enough to compare against the ASCII street-type vocabulary.
- PlaceParser: a component's missing `long_name`, `short_name` or `types`
  becomes an empty string or an empty list. JavaScript's `undefined` and `""`
  behave the same under the `||` fallbacks and the `!ac.types` test.
- SearchQuery.BuildSearchParams: a missing form input is modelled as an
  empty field. The handler's `? :` defaults make the two equivalent.
