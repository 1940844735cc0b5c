/**
  * `chooseAndForecast`, static/css/js/main.js:386-426: geocode the input,
  * rank the candidates, then either forecast the single match or offer up
  * to five to choose from. Every error is caught and shown as its message.
  */
module Resolution {
  import opened Wrappers
  import opened Geocode
  import opened Ranking
  import opened Forecast

  /** What the weather panel ends up showing. */
  datatype Outcome =
    | Shown(place: string, data: ForecastData)  // the three views rendered for `place`
    | Choose(top: seq<Candidate>)               // one chip per candidate, "Multiple matches found. Please pick one."
    | Error(message: string)                    // the message line in red

  /**
    * `outcome` is what the panel shows for the forecast of `c`: the data under
    * the candidate's label, "Weather failed: " and the status for an HTTP
    * error, or the message of a failed fetch or unreadable body.
    */
  predicate ShowsForecast(c: Candidate, server: ForecastRequest -> ForecastResponse, outcome: Outcome) {
    var resp := server(BuildForecastRequest(Finite(c.lat), Finite(c.lon), "auto").value);
    && (resp.ForecastJson? ==> outcome == Shown(c.name, resp.data))
    && (resp.ForecastHttpError? ==> outcome == Error("Weather failed: " + NatToString(resp.status)))
    && (resp.ForecastNetworkError? || resp.ForecastBadJson? ==> outcome == Error(resp.message))
  }

  /** The forecast of one candidate shown under its label, or the error of the fetch. */
  method ShowForecast(c: Candidate, server: ForecastRequest -> ForecastResponse)
    returns (outcome: Outcome)
    ensures ShowsForecast(c, server, outcome)
  {
    var requests, fetched := FetchForecast(Finite(c.lat), Finite(c.lon), server);
    outcome := if fetched.Success? then Shown(c.name, fetched.value) else Error(fetched.message);
  }

  /**
    * Lines 386-402 and 404-425. The geocoding search of the input is the one
    * `geocodeCandidates` makes (`requests`, with result `found`); its error,
    * if any, is what is shown. Otherwise the candidates are sorted by
    * population in place and the first five kept. Exactly one goes straight
    * to its forecast; two to five are offered to choose from.
    */
  method ChooseAndForecast(rawInput: string, geocoder: GeocodeRequest -> Response,
                           forecaster: ForecastRequest -> ForecastResponse)
    returns (requests: seq<GeocodeRequest>, found: Result<seq<Candidate>>, outcome: Outcome)
    ensures IsBlank(rawInput) ==> requests == [] && found == Failure("Enter a place name")
    ensures !IsBlank(rawInput) ==>
              SearchResult(SearchQueue(rawInput), SearchPlace(rawInput), SearchCountry(rawInput), geocoder,
                           requests, found)
    ensures found.Failure? ==> outcome == Error(found.message)
    ensures found.Success? ==> found.value != []
    ensures found.Success? && |found.value| > 1 ==>
              outcome == Choose(Top(SortByPop(found.value))) && 2 <= |outcome.top| <= 5
    ensures found.Success? && |found.value| == 1 ==> ShowsForecast(found.value[0], forecaster, outcome)
  {
    requests, found := Geocoded(rawInput, geocoder);
    if found.Failure? {
      return requests, found, Error(found.message);
    }
    var top := RankTop(found.value);
    if |top| == 1 {
      outcome := ShowForecast(top[0], forecaster);
      return;
    }
    outcome := Choose(top);
  }

  /** Line 392: the requests `geocodeCandidates` makes and its result; a success always holds a candidate. */
  method Geocoded(rawInput: string, geocoder: GeocodeRequest -> Response)
    returns (requests: seq<GeocodeRequest>, found: Result<seq<Candidate>>)
    ensures IsBlank(rawInput) ==> requests == [] && found == Failure("Enter a place name")
    ensures !IsBlank(rawInput) ==>
              SearchResult(SearchQueue(rawInput), SearchPlace(rawInput), SearchCountry(rawInput), geocoder,
                           requests, found)
    ensures found.Success? ==> found.value != []
  {
    requests, found := GeocodeCandidates(rawInput, geocoder);
  }

  /**
    * Lines 393-394: the candidates sorted in place by population, largest
    * first, and the first five of them; a single candidate is its own top.
    */
  method RankTop(candidates: seq<Candidate>) returns (top: seq<Candidate>)
    ensures top == Top(SortByPop(candidates))
    ensures |top| == Min(5, |candidates|)
    ensures |candidates| == 1 ==> top == candidates
  {
    var a := new Candidate[|candidates|](i requires 0 <= i < |candidates| => candidates[i]);
    assert a[..] == candidates;
    SortCandidates(a);
    var ranked := a[..];
    SortByPopSortedPermutation(candidates);
    if |candidates| == 1 {
      SortByPopOfSorted(candidates);
    }
    top := Top(ranked);
  }

  /** A click on chip `k` (lines 410-419): the forecast of that candidate, or the error of the fetch. */
  method PickCandidate(top: seq<Candidate>, k: nat, forecaster: ForecastRequest -> ForecastResponse)
    returns (outcome: Outcome)
    requires k < |top|
    ensures ShowsForecast(top[k], forecaster, outcome)
  {
    outcome := ShowForecast(top[k], forecaster);
  }

  /**
    * The single-match branch as written at lines 396-401: `const c = top`
    * binds the array, so `c.lat` and `c.lon` are `undefined`, the forecast
    * request is refused and the panel shows "Invalid coordinates" without any
    * forecast request being made.
    */
  method SingleMatchAsWritten(top: seq<Candidate>, forecaster: ForecastRequest -> ForecastResponse)
    returns (requests: seq<ForecastRequest>, outcome: Outcome)
    requires |top| == 1
    ensures requests == []
    ensures outcome == Error("Invalid coordinates")
  {
    // `Number.isFinite(undefined)` is false for both coordinates
    var fetched;
    requests, fetched := FetchForecast(NonFinite, NonFinite, forecaster);
    outcome := Error(fetched.message);
  }
}
