/**
  * Place search against the geocoding service, static/css/js/main.js:236-309:
  * the request parameters, the conversion of results into candidates, the
  * short-circuiting search over the variant queue and the India-biased retry.
  * The service is an oracle `server` from request to response.
  */
module Geocode {
  import opened Wrappers
  import opened Text
  import opened Normalization
  import opened QueryVariants

  /** `Number(x)`: a finite double, or NaN / an infinity (also what a missing field gives). */
  datatype Num = Finite(value: real) | NonFinite

  /** One entry of the service's `results` array; an absent text field is "". */
  datatype RawPlace = RawPlace(latitude: Num, longitude: Num, population: Num,
                               name: string, admin1: string, countryCode: string)

  /** A place the user can pick: finite coordinates, a population (0 when unknown) and a display label. */
  datatype Candidate = Candidate(lat: real, lon: real, pop: real, name: string)

  /**
    * What `fetch` and `res.json()` give for one request: a rejected fetch, a
    * response that is not ok, a body that is not JSON, or the results (an
    * absent `results` field is the empty list).
    */
  datatype Response =
    | NetworkError(message: string)
    | HttpError(status: int)
    | BadJson(message: string)
    | Json(results: seq<RawPlace>)

  /** The query parameters of a geocoding request; `countryCode` is present or not. */
  datatype GeocodeRequest = GeocodeRequest(name: string, count: nat, language: string,
                                           format: string, countryCode: Option<string>)

  /**
    * `buildGeocodeUrl` (lines 236-242): the fixed parameters, and a country code
    * exactly when `cc` is two ASCII letters, then upper-cased.
    */
  function BuildGeocodeRequest(q: string, cc: string): (req: GeocodeRequest)
    ensures req.name == q && req.count == 10 && req.language == "en" && req.format == "json"
    ensures req.countryCode.Some? <==> IsTwoLetters(cc)
    ensures req.countryCode.Some? ==>
              IsUpperTwoLetters(req.countryCode.value) && EqualsIgnoreCase(req.countryCode.value, cc)
  {
    var code := CountryCode(cc);
    GeocodeRequest(q, 10, "en", "json", if code != "" then Some(code) else None)
  }

  function RequestFor(v: Variant): GeocodeRequest {
    BuildGeocodeRequest(v.q, v.cc)
  }

  /** The non-empty fields among the name, the first-level region and the country code, in that order. */
  function LabelFields(r: RawPlace): seq<string> {
    (if r.name != "" then [r.name] else [])
    + (if r.admin1 != "" then [r.admin1] else [])
    + (if r.countryCode != "" then [r.countryCode] else [])
  }

  /** The label: the non-empty fields among name, region and country code, joined with ", ". */
  function Label(r: RawPlace): (text: string)
    ensures r.name != "" ==> |r.name| <= |text| && text[..|r.name|] == r.name
  {
    Join(LabelFields(r), ", ")
  }

  lemma LabelShape(r: RawPlace)
    ensures Label(r) == "" <==> r.name == "" && r.admin1 == "" && r.countryCode == ""
    ensures r.name != "" && r.admin1 != "" && r.countryCode != ""
            ==> Label(r) == r.name + ", " + r.admin1 + ", " + r.countryCode
    ensures r.name != "" && r.admin1 == "" && r.countryCode != ""
            ==> Label(r) == r.name + ", " + r.countryCode
  {
    var f := LabelFields(r);
    if |f| >= 2 {
      assert Label(r) == f[0] + ", " + Join(f[1..], ", ");
      if |f| == 3 {
        assert Join(f[1..], ", ") == f[1] + ", " + Join(f[2..], ", ");
      }
    }
  }

  predicate HasFiniteCoordinates(r: RawPlace) {
    r.latitude.Finite? && r.longitude.Finite?
  }

  /**
    * `Number(r.population) || 0`: an absent or NaN population reads as 0. The
    * service sends populations as ordinary JSON numbers, so the only
    * `NonFinite` population that arises is NaN (an infinity would be kept).
    */
  function Population(n: Num): real {
    if n.Finite? then n.value else 0.0
  }

  function ToCandidate(r: RawPlace): Candidate
    requires HasFiniteCoordinates(r)
  {
    Candidate(r.latitude.value, r.longitude.value, Population(r.population), Label(r))
  }

  /** Lines 279-284: the results mapped to candidates, dropping those without finite coordinates. */
  function Usable(results: seq<RawPlace>): (cs: seq<Candidate>)
    ensures |cs| <= |results|
    decreases |results|
  {
    if results == [] then []
    else
      var rest := Usable(results[1..]);
      if HasFiniteCoordinates(results[0]) then [ToCandidate(results[0])] + rest else rest
  }

  /**
    * The usable candidates are exactly the results with finite latitude and
    * longitude, mapped to candidates.
    */
  lemma {:induction false} UsableMembers(results: seq<RawPlace>)
    ensures forall r :: r in results && HasFiniteCoordinates(r) ==> ToCandidate(r) in Usable(results)
    ensures forall c :: c in Usable(results) ==>
              exists r :: r in results && HasFiniteCoordinates(r) && ToCandidate(r) == c
    decreases |results|
  {
    if results != [] {
      UsableMembers(results[1..]);
      assert forall r :: r in results[1..] ==> r in results;
      assert forall r :: r in results ==> r == results[0] || r in results[1..];
    }
  }

  /** The candidates a response contributes: none unless it carries results. */
  function Hits(resp: Response): seq<Candidate> {
    if resp.Json? then Usable(resp.results) else []
  }

  /** A rejected fetch or an unparsable body is not caught inside the search: it ends it with its error. */
  predicate Aborts(resp: Response) {
    resp.NetworkError? || resp.BadJson?
  }

  function AbortMessage(resp: Response): string
    requires Aborts(resp)
  {
    resp.message
  }

  /** A response the loop moves past: not ok, or no usable candidate. */
  predicate Misses(resp: Response) {
    !Aborts(resp) && Hits(resp) == []
  }

  /** Each request made is the request for the queue entry at the same position, as far as the queue goes. */
  predicate FollowsQueue(requests: seq<GeocodeRequest>, queue: seq<Variant>) {
    forall k :: 0 <= k < |requests| && k < |queue| ==> requests[k] == RequestFor(queue[k])
  }

  /** The first `n` requests all missed. */
  predicate MissedBefore(requests: seq<GeocodeRequest>, server: GeocodeRequest -> Response, n: int) {
    forall k :: 0 <= k < n && k < |requests| ==> Misses(server(requests[k]))
  }

  /**
    * The loop of lines 272-287. The variants are asked strictly in queue
    * order; each one that misses is passed over; the first one with usable
    * candidates ends the search and no later variant is asked. A rejected
    * fetch or an unparsable body ends it with that error.
    */
  method SearchVariants(queue: seq<Variant>, server: GeocodeRequest -> Response)
    returns (requests: seq<GeocodeRequest>, outcome: Result<seq<Candidate>>)
    ensures |requests| <= |queue|
    ensures forall k :: 0 <= k < |requests| ==> requests[k] == RequestFor(queue[k])
    ensures forall k :: 0 <= k < |requests| - 1 ==> Misses(server(requests[k]))
    ensures outcome.Failure? ==> requests != [] && Aborts(server(requests[|requests| - 1]))
                                 && outcome.message == AbortMessage(server(requests[|requests| - 1]))
    ensures outcome.Success? && outcome.value != [] ==>
              requests != [] && outcome.value == Hits(server(requests[|requests| - 1]))
    ensures outcome.Success? && outcome.value == [] ==>
              |requests| == |queue| && forall k :: 0 <= k < |requests| ==> Misses(server(requests[k]))
  {
    requests := [];
    var i := 0;
    while i < |queue|
      invariant i <= |queue| && |requests| == i
      invariant forall k :: 0 <= k < i ==> requests[k] == RequestFor(queue[k])
      invariant forall k :: 0 <= k < i ==> Misses(server(requests[k]))
    {
      var req := RequestFor(queue[i]);
      requests := requests + [req];
      var resp := server(req);
      if Aborts(resp) {
        return requests, Failure(AbortMessage(resp));
      }
      var found := Hits(resp);
      if found != [] {
        return requests, Success(found);
      }
      i := i + 1;
    }
    outcome := Success([]);
  }

  /** A non-empty text of ASCII letters and whitespace only (line 290). */
  predicate LettersOrSpaces(s: string) {
    s != [] && forall i :: 0 <= i < |s| ==> IsAsciiLetter(s[i]) || IsJsSpace(s[i])
  }

  /** The trimmed input, its normalised form and its segments. */
  function Prepared(rawInput: string): string {
    Normalize(JsTrim(rawInput))
  }

  function PartsOf(rawInput: string): seq<string> {
    Segments(Prepared(rawInput))
  }

  function SearchQueue(rawInput: string): seq<Variant> {
    Queue(Variants(Prepared(rawInput), PartsOf(rawInput)))
  }

  function SearchPlace(rawInput: string): string {
    PlaceOf(PartsOf(rawInput))
  }

  function SearchCountry(rawInput: string): string {
    CountryCode(RegionOf(PartsOf(rawInput)))
  }

  /** The India-biased retry of lines 289-305 is allowed: no country code and a place of letters and spaces only. */
  predicate FallbackAllowed(rawInput: string): (allowed: bool)
    ensures allowed ==> !IsBlank(rawInput)
  {
    BlankHasNoPlace(rawInput);
    SearchCountry(rawInput) == "" && LettersOrSpaces(SearchPlace(rawInput))
  }

  /** A blank input leaves no place to search. */
  lemma BlankHasNoPlace(rawInput: string)
    ensures IsBlank(rawInput) ==> SearchPlace(rawInput) == ""
  {
    if IsBlank(rawInput) {
      assert CommaSpace("") == "" && CollapseSpaces("") == "";
      assert LeadingCount("", IsJsSpace) == 0;
      assert Prepared(rawInput) == "";
      assert Split("", ',') == [""];
      assert LeadingCount("", IsJsSpace) == 0 && TrailingCount("", IsJsSpace) == 0;
    }
  }

  /** The place name still searchable after trimming: a non-blank input. */
  predicate IsBlank(rawInput: string) {
    JsTrim(rawInput) == ""
  }

  /** A non-blank input yields a non-empty queue. */
  lemma SearchQueueNonEmpty(rawInput: string)
    requires !IsBlank(rawInput)
    ensures SearchQueue(rawInput) != []
  {
    var raw := JsTrim(rawInput);
    assert !IsJsSpace(raw[0]);
    QueueNonEmpty(Prepared(rawInput), PartsOf(rawInput));
  }

  /**
    * What the search of lines 272-307 promises for a queue, a place and a
    * country code: at least one request; the queue asked in order, every
    * request but the last one missing; one extra request, for the place in
    * country "IN", exactly when no country code was given, the place is
    * letters and spaces only and the whole queue missed; candidates only when
    * the last request found some, and otherwise the last request's error or
    * "Location not found" once every variant of the queue was asked and every
    * request missed.
    */
  predicate SearchResult(queue: seq<Variant>, place: string, cc: string, server: GeocodeRequest -> Response,
                         requests: seq<GeocodeRequest>, outcome: Result<seq<Candidate>>)
  {
    && requests != []
    && FollowsQueue(requests, queue)
    && MissedBefore(requests, server, |requests| - 1)
    && (|requests| > |queue| <==>
          cc == "" && LettersOrSpaces(place) && |queue| <= |requests| && MissedBefore(requests, server, |queue|))
    && (|requests| > |queue| ==>
          |requests| == |queue| + 1 && requests[|queue|] == BuildGeocodeRequest(place, "IN"))
    && (outcome.Success? ==> outcome.value != [] && outcome.value == Hits(server(requests[|requests| - 1])))
    && (outcome.Failure? ==>
          || (Aborts(server(requests[|requests| - 1])) && outcome.message == AbortMessage(server(requests[|requests| - 1])))
          || (outcome.message == "Location not found" && |queue| <= |requests|
              && MissedBefore(requests, server, |requests|)))
  }

  /**
    * Lines 272-307 once the queue is built: the ordered search, then the
    * retry with country "IN" when nothing was found, no country code was
    * given and the place is letters and spaces only, then "Location not found".
    */
  method SearchWithFallback(queue: seq<Variant>, place: string, cc: string,
                            server: GeocodeRequest -> Response)
    returns (requests: seq<GeocodeRequest>, outcome: Result<seq<Candidate>>)
    requires queue != []
    ensures SearchResult(queue, place, cc, server, requests, outcome)
  {
    requests, outcome := SearchVariants(queue, server);
    if outcome.Failure? {
      return;
    }
    var candidates := outcome.value;
    if candidates != [] {
      return;
    }
    if cc == "" && LettersOrSpaces(place) {
      var retry := BuildGeocodeRequest(place, "IN");
      var searched := requests;
      requests := requests + [retry];
      assert requests[..|searched|] == searched && requests[|searched|] == retry;
      var resp := server(retry);
      if Aborts(resp) {
        return requests, Failure(AbortMessage(resp));
      }
      candidates := Hits(resp);
      if candidates != [] {
        return requests, Success(candidates);
      }
    }
    outcome := Failure("Location not found");
  }

  /** Lines 247-270: the normalised text, its segments, the variants and the queue built from them. */
  method QueueFor(rawInput: string) returns (queue: seq<Variant>)
    requires !IsBlank(rawInput)
    ensures queue == SearchQueue(rawInput) && queue != []
  {
    var normalized := Prepared(rawInput);
    var parts := Segments(normalized);
    queue := BuildQueue(Variants(normalized, parts));
    SearchQueueNonEmpty(rawInput);
  }

  /**
    * `geocodeCandidates` (lines 244-309). A blank input is refused before any
    * request. Otherwise the search of the input's queue, place and country
    * code has the outcome `SearchResult` describes; in particular the retry in
    * country "IN" is made exactly when `FallbackAllowed` and every variant
    * missed, and the result is never an empty list.
    */
  method GeocodeCandidates(rawInput: string, server: GeocodeRequest -> Response)
    returns (requests: seq<GeocodeRequest>, outcome: Result<seq<Candidate>>)
    ensures IsBlank(rawInput) ==> requests == [] && outcome == Failure("Enter a place name")
    ensures outcome.Success? ==> outcome.value != []
    ensures !IsBlank(rawInput) ==>
              SearchResult(SearchQueue(rawInput), SearchPlace(rawInput), SearchCountry(rawInput), server,
                           requests, outcome)
  {
    if IsBlank(rawInput) {
      return [], Failure("Enter a place name");
    }
    var queue := QueueFor(rawInput);
    requests, outcome := SearchWithFallback(queue, SearchPlace(rawInput), SearchCountry(rawInput), server);
  }
}
