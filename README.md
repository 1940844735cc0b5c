# AgriVerse place resolution, forecast views and crop recommendation in Dafny

This project models the two parts of AgriVerse that carry real decision logic, and proves
properties of each.

**The dashboard script `static/css/js/main.js`.** It resolves a typed place name to
coordinates and then shows a forecast. The steps are:

- The input is trimmed and normalised, then cut into comma segments.
- A trailing two-letter segment is taken as a country code.
- An ordered list of search variants is built from the segments.
- That list is de-duplicated into a queue, using a case-insensitive `query|country` key.
- The geocoding service is asked for each variant in turn. The first variant that gives a
  candidate with finite coordinates ends the search.
- When nothing is found, no country code was given and the place is letters and spaces only,
  one retry is made in country "IN". If that also finds nothing, the result is
  "Location not found".
- The candidates are ranked by population with a stable sort and the first five are kept.
- A single match goes straight to its forecast; two to five are offered to choose from.
- The three forecast views read the hourly and daily arrays at fixed index windows.

The same file holds the client-side checks of the two crop forms. That includes the
comma-separated list of candidate crops typed into a prompt.

**The `recommend` endpoint of `api.py`.** It is a cascade of guards, each with its own status
code:

- a body that does not parse;
- a missing key;
- an unknown season (exact key of the next-season table);
- no weather table;
- no weather row for the state and the next season (compared after strip and lower-case);
- no candidates, which returns the phase-one reply;
- no candidate scored.

When every guard passes, it picks the best-scoring candidate crop. The comparison is strict,
so the earliest candidate wins a tie, and a candidate whose prediction raises is skipped.

**Services as oracles.** The geocoding service, the forecast service and the yield model are
parameters of the model:

- the geocoding service is a function from request to response;
- the forecast service is a function from request to response;
- the yield model is a scorer that may fail on a candidate.

A request is modelled by the parameters it carries, not by its URL text.

**Modules, one file each.**

| Module | File | What it holds |
|---|---|---|
| `Wrappers` | `wrappers.dfy` | `Option` and `Result`, integer minimum and maximum |
| `Text` | `text.dfy` | JS `trim` and Python `strip`, ASCII case folding, `split`/`join`, the trimmed non-empty segments |
| `Normalization` | `normalize.dfy` | the normalisation of line 248 |
| `QueryVariants` | `variants.dfy` | country code, variants and the de-duplicated queue |
| `Geocode` | `geocode.dfy` | geocoding requests, candidates, the ordered search with its retry, `geocodeCandidates` |
| `Forecast` | `forecast.dfy` | forecast request and fetch |
| `Render` | `render.dfy` | the index windows of the three views |
| `Ranking` | `ranking.dfy` | the in-place stable sort and the first five |
| `Resolution` | `resolution.dfy` | `chooseAndForecast` |
| `Forms` | `forms.dfy` | the form checks and the candidate list |
| `Recommend` | `recommend.dfy` | `api.py` |
| `LiteralVariants` | `aswritten.dfy` | the variant code of main.js exactly as written (see Findings) |

**Reading of lines 250-252 and 397.** The main model uses the reading the surrounding code
evidently intends:

- the place is the first segment;
- the region is the trailing segment, when there are at least two;
- administrative words are stripped from the place string;
- the combined variant is the place and the trailing segment;
- a single match is forecast for `top[0]`.

The code as written differs at each of these points. `LiteralVariants` and
`Resolution.SingleMatchAsWritten` model it literally, and the differences are listed under
Findings.

**Transport failures.** Within the search, the code skips only a response that is not ok.
A rejected `fetch`, or a body that is not JSON, ends `geocodeCandidates` with that error.
`Geocode.Aborts` says which responses do this, and `Geocode.AbortMessage` gives the message.

## Model

| member | source | states |
|---|---|---|
| Text.Trim | static/css/js/main.js:245 | the result has no surrounding whitespace and is no longer than the input |
| Text.TrimInfix | static/css/js/main.js:245 | the trimmed text is the slice of the input after its leading whitespace, followed only by whitespace |
| Text.TrimOfTrimmed | static/css/js/main.js:268 | trimming a text with no surrounding whitespace leaves it unchanged |
| Text.Split | static/css/js/main.js:249 | a split gives at least one piece and no piece holds the separator |
| Text.JoinSplit | static/css/js/main.js:249 | joining the pieces of a split with the separator gives back the text |
| Text.SplitJoin | static/css/js/main.js:249 | splitting the join of separator-free pieces gives back the pieces |
| Text.Segments | static/css/js/main.js:249 | every segment is non-empty, trimmed and free of commas |
| Text.SegmentsOfJoin | static/css/js/main.js:249 | segments joined with ", " are read back exactly |
| Text.PyStripLower | api.py:27 | lower-casing and Python strip commute |
| Text.PyStripUpper | api.py:27 | upper-casing and Python strip commute |
| Normalization.Normalize | static/css/js/main.js:248 | the normalised text is trimmed and has no two adjacent whitespace characters; every inner comma is followed by a space, and a whitespace character before a comma only follows another comma; the result is non-empty for a non-blank trimmed input |
| Normalization.NormalizeShape | static/css/js/main.js:248 | the three replacements compose to that shape |
| Normalization.NormalizeVisible | static/css/js/main.js:248 | normalising keeps every non-whitespace character, in order, and adds none |
| Normalization.NormalizeFixed | static/css/js/main.js:248 | a text already in normal form is left unchanged, so a single space between words is kept |
| Normalization.CommaSpaceOfNormal | static/css/js/main.js:248 | on a text in normal form the comma replacement changes nothing but add a space after a final comma |
| Normalization.DoubleCommaKeepsSpace | static/css/js/main.js:248 | two adjacent commas keep a space between them: ",," normalises to ", ," |
| Normalization.CommaSpaceCommas | static/css/js/main.js:248 | after the comma replacement every inner comma is followed by a space |
| Normalization.CommaSpaceGuard | static/css/js/main.js:248 | after the comma replacement a whitespace character before a comma follows a comma, and the text does not start with whitespace then a comma |
| Normalization.CommaSpaceVisible | static/css/js/main.js:248 | the comma replacement keeps the non-whitespace characters in order |
| Normalization.CollapseCommas | static/css/js/main.js:248 | collapsing whitespace runs keeps every comma followed by a space |
| Normalization.CollapseNoDouble | static/css/js/main.js:248 | after collapsing there are no two adjacent whitespace characters |
| Normalization.CollapseGuard | static/css/js/main.js:248 | collapsing whitespace runs keeps a whitespace character before a comma only after a comma |
| Normalization.CollapseVisible | static/css/js/main.js:248 | collapsing whitespace runs keeps the non-whitespace characters in order |
| Normalization.TrimKeepsShape | static/css/js/main.js:248 | the final trim keeps all three properties |
| Normalization.TrimVisible | static/css/js/main.js:248 | trimming keeps the non-whitespace characters in order |
| QueryVariants.CountryCode | static/css/js/main.js:252 | the code is "" or two upper-case letters; it is non-empty exactly when the region is two ASCII letters, and then equals it ignoring case |
| QueryVariants.Aliases | static/css/js/main.js:258-260 | each alias keeps the country code, and there is one only for the city names delhi, mumbai or chennai |
| QueryVariants.AdminVariant | static/css/js/main.js:261-263 | the stripped variant keeps the country code |
| QueryVariants.CombinedVariant | static/css/js/main.js:264 | the combined variant carries no country code |
| QueryVariants.Variants | static/css/js/main.js:254-264 | the full text and the bare place are always searched; every variant carries no code or the detected one |
| QueryVariants.AdminWordAt | static/css/js/main.js:261 | the match length is non-zero exactly when one of village, taluk, tehsil, district occurs at the position ignoring case; it is then that word's length and lies inside the text |
| QueryVariants.ReplaceFrom | static/css/js/main.js:262 | a global replacement by "" never lengthens the text |
| QueryVariants.StripAdminWords | static/css/js/main.js:262 | the stripped place is trimmed and no longer than the place |
| QueryVariants.StripFromUnchanged | static/css/js/main.js:262 | where no whole administrative word starts, the stripping copies the text unchanged |
| QueryVariants.StripOneWord | static/css/js/main.js:262 | a whole administrative word between two texts without one is removed and both texts are kept as they are |
| QueryVariants.VariantOrder | static/css/js/main.js:254-264 | the country-qualified place comes first exactly when a code was found, then the full text and the bare place; after them the aliases, the stripped variant and the combined variant, which is last whenever there are three or more segments |
| QueryVariants.AliasesExact | static/css/js/main.js:258-260 | at most one alias, and each exactly when the place equals its city name ignoring case (delhi, mumbai, chennai) |
| QueryVariants.BuildQueue | static/css/js/main.js:266-270 | the map/filter/filter pipeline with its `seen` set computes the queue: trimmed variants, empty queries dropped, first of each key kept |
| QueryVariants.BuildStep | static/css/js/main.js:268-270 | one step of the pipeline extends the queue and the seen set exactly when the trimmed variant is non-empty and its key is new |
| QueryVariants.KeepFirst | static/css/js/main.js:270 | de-duplication never lengthens the list and keeps only variants of its input |
| QueryVariants.NonEmptyQ | static/css/js/main.js:269 | dropping the empty queries never lengthens the list, and every query left is non-empty |
| QueryVariants.Queue | static/css/js/main.js:266-270 | the queue is no longer than the variant list and holds no empty query |
| QueryVariants.KeySetMembers | static/css/js/main.js:270 | a key is in the seen set exactly when some variant has it |
| QueryVariants.KeepFirstKeys | static/css/js/main.js:270 | de-duplication keeps every key that occurs |
| QueryVariants.KeepFirstDistinct | static/css/js/main.js:270 | the kept keys are pairwise distinct |
| QueryVariants.KeepFirstSubsequence | static/css/js/main.js:270 | the queue is an order-preserving subsequence of its input |
| QueryVariants.KeepFirstKeepsFirst | static/css/js/main.js:270 | a variant whose key has not occurred earlier is kept |
| QueryVariants.QueueProperties | static/css/js/main.js:266-270 | every query in the queue is non-empty, keys are pairwise distinct, the queue is an ordered subsequence of the trimmed non-empty variants and holds each of their keys |
| QueryVariants.QueueKeepsFirst | static/css/js/main.js:266-270 | a trimmed non-empty variant's key reaches the queue |
| QueryVariants.QueueStartsWithCountry | static/css/js/main.js:252-270 | with a trailing two-letter segment the queue starts with the place qualified by that code, upper-cased |
| QueryVariants.QueueNonEmpty | static/css/js/main.js:245-270 | a non-blank normalised text always leaves a variant to search |
| Geocode.BuildGeocodeRequest | static/css/js/main.js:236-242 | name, count 10, language "en", format "json"; a country code exactly when the given code is two ASCII letters, upper-cased |
| Geocode.LabelShape | static/css/js/main.js:283 | the label is the non-empty fields among name, region and country code joined with ", ", and empty only when all three are |
| Geocode.Label | static/css/js/main.js:283 | a label starts with the place's name when there is one |
| Geocode.Usable | static/css/js/main.js:279-284 | the usable candidates are never more than the results |
| Geocode.UsableMembers | static/css/js/main.js:279-284 | the usable candidates are exactly the results with finite coordinates, converted |
| Geocode.SearchVariants | static/css/js/main.js:272-287 | the queue is asked in order, one request per variant; every request but the last missed; candidates come from the last request; a rejected fetch or bad body ends the search with its error; an empty result means every variant was asked and missed |
| Geocode.SearchQueueNonEmpty | static/css/js/main.js:245-270 | a non-blank input yields a non-empty queue |
| Geocode.FallbackAllowed | static/css/js/main.js:290 | the retry in "IN" is allowed only for a non-blank input |
| Geocode.BlankHasNoPlace | static/css/js/main.js:245-250 | a blank input leaves no place to search |
| Geocode.SearchWithFallback | static/css/js/main.js:272-307 | the search then the retry: one extra request for the place in country "IN" exactly when no code was given, the place is letters and spaces, and the whole queue missed; the candidates of the last request, or the error that ended the search, or "Location not found" once every queued variant (and the retry, if made) was asked and missed |
| Geocode.QueueFor | static/css/js/main.js:247-270 | the queue built from the normalised input and its segments, never empty |
| Geocode.GeocodeCandidates | static/css/js/main.js:244-309 | a blank input fails with "Enter a place name" before any request; otherwise the outcome of the search with fallback, and a success is never empty |
| Forecast.BuildForecastRequest | static/css/js/main.js:222-233 | fails with "Invalid coordinates" exactly when a coordinate is not finite; otherwise the seven hourly variables, the daily maximum, seven days and the time zone or "auto" |
| Forecast.NatToString | static/css/js/main.js:314 | the status is written as decimal digits without a leading zero |
| Forecast.NatToStringValue | static/css/js/main.js:314 | the written status reads back as the number |
| Forecast.FetchForecast | static/css/js/main.js:311-316 | at most one request, made exactly when the coordinates are finite; the data of the reply, or "Weather failed: " and the status, or the fetch's own error |
| Render.Round | static/css/js/main.js:325 | the rounded value is within half of the reading |
| Render.At | static/css/js/main.js:320-327 | an entry is read exactly when the index is in range |
| Render.SoilAt | static/css/js/main.js:328-331 | a soil reading is shown exactly when the series is present, long enough and not `null` at that hour, and it is that entry; otherwise the dash |
| Render.RenderCurrent | static/css/js/main.js:318-334 | the view keeps the place and shows a time exactly when there is an hour, the last one |
| Render.CurrentViewOfAligned | static/css/js/main.js:318-334 | with aligned non-empty arrays the view shows the last hour's readings; each sent soil series shows its last entry (the dash when that entry is `null`), and each soil series not sent shows the dash |
| Render.CurrentViewOfEmpty | static/css/js/main.js:320 | with no hours every reading is missing |
| Render.RenderDaily | static/css/js/main.js:336-351 | exactly `min(7, len)` day cards, card i for day i |
| Render.RenderHourlyFrom | static/css/js/main.js:357-371 | the strip reads indices start, start+3, ... below min(n, start+24), at most 8 and all in range, one card per index |
| Render.RenderHourly | static/css/js/main.js:353-372 | with the last index taken as "now" the strip holds one card, at index max(0, n-2), or none |
| Render.FullStrip | static/css/js/main.js:357-360 | a current hour at least a day before the end gives all 8 cards |
| Ranking.InsertLastCount | static/css/js/main.js:393 | an insertion step adds exactly the inserted candidate |
| Ranking.InsertLastSorted | static/css/js/main.js:393 | an insertion step keeps the list ordered by population |
| Ranking.InsertLastWithPop | static/css/js/main.js:393 | an insertion step keeps the order among equal populations |
| Ranking.SortByPopSortedPermutation | static/css/js/main.js:393 | the ranking is a permutation ordered by population, largest first |
| Ranking.SortByPopStable | static/css/js/main.js:393 | candidates of equal population keep the geocoder's order |
| Ranking.SortByPopOfSorted | static/css/js/main.js:393 | an ordered list is left as it is |
| Ranking.SortCandidates | static/css/js/main.js:393 | the in-place sort leaves the array in the stable descending order |
| Ranking.InsertIntoSorted | static/css/js/main.js:393 | one pass of the in-place insertion puts the next candidate after all of at least its population, the rest untouched |
| Ranking.InsertLastAt | static/css/js/main.js:393 | the array after the shifting loop is the insertion step |
| Ranking.Top | static/css/js/main.js:394 | the first `min(5, n)` candidates |
| Ranking.TopOfRanking | static/css/js/main.js:393-394 | every kept candidate came from the geocoder and none left out has a larger population than one kept |
| Resolution.ShowForecast | static/css/js/main.js:398-400 | the forecast of the candidate under its label; "Weather failed: " and the status for an HTTP error; the message of a failed fetch or unreadable body |
| Resolution.ChooseAndForecast | static/css/js/main.js:386-426 | the requests and result are those of the geocoding search of the input ("Enter a place name" for a blank one); its error is shown as is; one match goes straight to its forecast with the exact error messages; two to five are offered as the top of the ranking |
| Resolution.Geocoded | static/css/js/main.js:392 | the requests and result of the geocoding search of the input: "Enter a place name" for a blank input, and a success holds a candidate |
| Resolution.RankTop | static/css/js/main.js:393-394 | the in-place sort then the first five: the top of the ranking, `min(5, n)` long, a single candidate kept as is |
| Resolution.PickCandidate | static/css/js/main.js:410-418 | a chip shows its own candidate's forecast, or "Weather failed: " and the status, or the fetch's own message |
| Resolution.SingleMatchAsWritten | static/css/js/main.js:396-401 | as written, a single match makes no forecast request and shows "Invalid coordinates" |
| Forms.ValidateYieldForm | static/css/js/main.js:80-96 | accepted exactly when state, season and trimmed crop are present and the area is finite and positive; the missing-field message takes precedence over the area message |
| Forms.ValidateRecoForm | static/css/js/main.js:128-138 | accepted exactly when state, season and trimmed crop are present |
| Forms.ParseCandidates | static/css/js/main.js:162-169 | a cancelled or empty answer is refused with "No candidates provided."; otherwise entries are non-empty and trimmed |
| Forms.CandidateListRoundTrip | static/css/js/main.js:162-169 | a list typed as "Wheat, Mustard" is read back entry for entry |
| Forms.BlankEntriesGiveEmptyList | static/css/js/main.js:166-169 | an answer of commas and spaces passes the emptiness check but gives no candidates |
| Recommend.Norm | api.py:27 | stripping then lower-casing is lower-casing then stripping, and never lengthens the key |
| Recommend.NormIdempotent | api.py:27 | normalising twice is normalising once |
| Recommend.NormIgnoresCase | api.py:27 | a key and its upper-cased form normalise alike |
| Recommend.NextSeason | api.py:55-63 | defined exactly for the seven season names, always one of Kharif, Rabi, Zaid, never the season itself |
| Recommend.SeasonCycle | api.py:55-63 | Kharif, Rabi and Zaid follow one another in a cycle of three |
| Recommend.FirstFrom | api.py:111-117 | the first index satisfying the test, or none when no element does |
| Recommend.MatchingRow | api.py:111-117 | the first row whose state and season match after normalisation, or none when no row does |
| Recommend.BestIndex | api.py:139-155 | the pick, when there is one, is a candidate that scored |
| Recommend.BestIndexIsBest | api.py:139-155 | there is a pick exactly when some candidate scored; it has the largest score, and every earlier candidate scored strictly less |
| Recommend.BestIsUnique | api.py:139-155 | at most one candidate is best |
| Recommend.BestCandidate | api.py:139-155 | the loop with its strict comparison and skipped failures picks exactly the best candidate |
| Recommend.MissingKey | api.py:99-101 | a key is reported missing exactly when one of state, current season, current crop is absent |
| Recommend.Recommend | api.py:95-168 | the guard cascade in source order with each status and message; the phase-one reply exactly for absent or empty candidates; 422 exactly when no candidate scored; otherwise, and only then, 200 with the best candidate and its score |
| LiteralVariants.VariantsAsWritten | static/css/js/main.js:249-264 | as written, the search fails with the TypeError exactly when the joined segment array contains an administrative word |
| LiteralVariants.JoinHasSeparator | static/css/js/main.js:250 | an array of two or more segments stringifies with a comma |
| LiteralVariants.CountryIgnoredAsWritten | static/css/js/main.js:251-255 | as written, with five segments or fewer no variant carries a country code |
| LiteralVariants.MultiSegmentAsWritten | static/css/js/main.js:250-260 | as written, with two or more segments no alias matches and the retry in "IN" is never allowed |
| LiteralVariants.NoAdminInitial | static/css/js/main.js:261 | a text with no v, t or d holds no administrative word |
| LiteralVariants.ChennaiNoAdmin | static/css/js/main.js:261 | "Chennai,IN" holds no administrative word |
| LiteralVariants.TwoSegmentsAsWritten | static/css/js/main.js:249-264 | as written, two segments are searched only as the whole text and as the segments joined by "," |
| LiteralVariants.ChennaiAsWritten | static/css/js/main.js:249-264 | as written, "Chennai, IN" is searched without its country code |
| LiteralVariants.ChennaiIntended | static/css/js/main.js:252-260 | as intended, "Chennai, IN" is searched first as ("Chennai", "IN"), and "Madras" in "IN" is also tried |
| LiteralVariants.SalemAsWritten | static/css/js/main.js:261-262 | as written, "Salem taluk" makes the whole search fail with a TypeError |
| LiteralVariants.AdminWordIntended | static/css/js/main.js:261-263 | as intended, a place with an administrative word is also searched stripped, in the same country |
| LiteralVariants.CombinedAsWritten | static/css/js/main.js:264 | as written, the combined variant repeats the joined array around ", " |

## Left out

- DOM creation and styling, and the panel and chooser widgets, are UI. The model returns the
  values a view shows, not the elements it builds.
- `fetch`, `res.json()`, `window.prompt` and `navigator.geolocation` are I/O. They are modelled
  by oracles and parameters: functions from request to response. The geolocation button handler is not part of this model.
- The model does not capture interleaving between overlapping `chooseAndForecast` calls. The
  source has no cancellation, so every call runs to completion.
- URL text and `URLSearchParams` encoding are left out. A request is the set of parameters it
  carries.
- Date and number formatting (`toLocaleString`, `toLocaleDateString`, `toLocaleTimeString`,
  `toFixed`) is left out.
- `Math.round` is modelled only on finite readings.
- Floating point is modelled as exact reals. This affects the acre-to-hectare conversion and
  the revenue multiplication.
- The yield and revenue form requests, and their replies (lines 98-124), are not part of this
  model beyond the validation.
- The second phase of the recommendation form (sending the candidate list, lines 170-200) is not
  part of this model beyond the list parsing.
- Regular expressions are written as character predicates and left-to-right scans. This covers
  two ASCII letters, letters-or-whitespace, the exact alias names, administrative words with
  word boundaries, and the normalisation patterns.
- Case folding is ASCII-only. Whitespace follows JavaScript's `\s` and `trim`, and Python's
  `isspace`, over the characters `Text` lists.
- `load_avg_weather`, `pd.read_csv`, the pandas coercions and the Flask routing (api.py:1-53,
  170-173) are foreign libraries. The weather table is a sequence of rows, absent when it could
  not be loaded.
- The `/predict` and `/health` routes of api.py are not part of this model.
- The yield model is an oracle, and `revenue_model` is unused by `recommend`.
- The training scripts js/CropPredML.py, yeildNrevenuePredictionML.py and
  generate_avg_weather.py are not part of this model. They run scikit-learn and pandas at import
  time.
- Recommend.Recommend: the predicted yield is returned unrounded, because `round(x, 2)` on a
  float is not modelled. The weather values are taken as already numeric.
- Geocode.Usable: its own contract states only the length bound. Membership in both directions
  is stated by Geocode.UsableMembers.
- Render.RenderCurrent does not model `new Date(...)` parsing of the time text. The view carries
  the time text itself.
- Render.RenderCurrent, Render.RenderDaily and Render.RenderHourlyFrom do not model a JSON
  `null` inside the temperature, humidity, precipitation or daily maximum arrays, which are
  sequences of reals here. The source would show 0 for a rounded `null` and the text "null"
  for an unrounded one. A `null` inside a soil series is modelled: it shows the dash.

## Findings

| source | as written | input that shows it | evidently intended | confidence | as-written member | corrected member |
|---|---|---|---|---|---|---|
| static/css/js/main.js:250-252 | `place` is the whole segment array (stringified with ","), and `region` is the sixth segment | "Chennai, IN" is searched as "Chennai, IN" and "Chennai,IN", both without a country, and "Madras" is never tried | place = first segment, region = trailing segment | high, not executed | LiteralVariants.ChennaiAsWritten, LiteralVariants.CountryIgnoredAsWritten, LiteralVariants.MultiSegmentAsWritten | QueryVariants.QueueStartsWithCountry, LiteralVariants.ChennaiIntended |
| static/css/js/main.js:290 | the retry test runs on the stringified array, so two or more segments never allow the retry in "IN" | "Salem, Tamil Nadu" | the test applies to the place segment | high, not executed | LiteralVariants.MultiSegmentAsWritten | Geocode.SearchWithFallback |
| static/css/js/main.js:261-262 | `place.replace` is called on an array and throws a TypeError, which fails the whole search | "Salem taluk" | the place with the administrative word removed is searched as one more variant | high, not executed | LiteralVariants.SalemAsWritten, LiteralVariants.VariantsAsWritten | LiteralVariants.AdminWordIntended |
| static/css/js/main.js:264 | the combined variant interpolates the whole array after the stringified place | "Village, Taluk, District" | the place followed by the trailing segment | high, not executed | LiteralVariants.CombinedAsWritten | QueryVariants.VariantOrder |
| static/css/js/main.js:396-398, 223 | `const c = top` binds the array, so its `lat` and `lon` are undefined and the forecast request is refused | any input with exactly one usable match | `const c = top[0]` | high, not executed | Resolution.SingleMatchAsWritten | Resolution.ChooseAndForecast |
| static/css/js/main.js:320, 357-360 | the hourly strip's "now" is the last hourly index, so at most one card is shown from a seven-day forecast | any forecast with more than two hours | a strip of up to eight cards from the current hour | medium, not executed | Render.RenderHourly | Render.RenderHourlyFrom, Render.FullStrip |
