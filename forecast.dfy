/**
  * The forecast request and its fetch, static/css/js/main.js:222-233 and
  * :311-316. The forecast service is an oracle from request to response.
  */
module Forecast {
  import opened Wrappers
  import opened Geocode

  /** The hourly variables the dashboard asks for, in the order of the `hourly` parameter. */
  const HourlyFields: seq<string> := [
    "temperature_2m", "relative_humidity_2m", "precipitation",
    "soil_temperature_0cm", "soil_temperature_6cm",
    "soil_moisture_0_to_1cm", "soil_moisture_1_to_3cm"
  ]

  /** The query parameters of a forecast request. */
  datatype ForecastRequest = ForecastRequest(latitude: real, longitude: real, timezone: string,
                                             hourly: seq<string>, daily: seq<string>, forecastDays: nat)

  /**
    * `buildForecastUrl`: non-finite coordinates are refused with "Invalid
    * coordinates"; otherwise a seven-day request for the seven hourly
    * variables and the daily maximum, in the given time zone or "auto".
    */
  function BuildForecastRequest(lat: Num, lon: Num, timezone: string): (r: Result<ForecastRequest>)
    ensures r.Failure? <==> !(lat.Finite? && lon.Finite?)
    ensures r.Failure? ==> r.message == "Invalid coordinates"
    ensures r.Success? ==>
              && r.value.latitude == lat.value && r.value.longitude == lon.value
              && r.value.timezone == (if timezone == "" then "auto" else timezone)
              && r.value.hourly == HourlyFields && r.value.daily == ["temperature_2m_max"]
              && r.value.forecastDays == 7
  {
    if !(lat.Finite? && lon.Finite?) then Failure("Invalid coordinates")
    else
      Success(ForecastRequest(lat.value, lon.value, if timezone == "" then "auto" else timezone,
                              HourlyFields, ["temperature_2m_max"], 7))
  }

  /**
    * The hourly arrays of a forecast. A soil series the service did not send
    * is `None`; within a sent soil series a `null` reading is `None`.
    */
  datatype Hourly = Hourly(time: seq<string>, temperature: seq<real>, humidity: seq<real>,
                           precipitation: seq<real>,
                           soilTemp0: Option<seq<Option<real>>>, soilTemp6: Option<seq<Option<real>>>,
                           soilMoist0: Option<seq<Option<real>>>, soilMoist1: Option<seq<Option<real>>>)

  datatype Daily = Daily(time: seq<string>, maxTemp: seq<real>)

  datatype ForecastData = ForecastData(hourly: Hourly, daily: Daily)

  /** What `fetch` and `res.json()` give for a forecast request. */
  datatype ForecastResponse =
    | ForecastNetworkError(message: string)
    | ForecastHttpError(status: nat)
    | ForecastBadJson(message: string)
    | ForecastJson(data: ForecastData)

  function DigitChar(d: nat): char
    requires d < 10
  {
    "0123456789"[d]
  }

  /** The decimal numeral of `n`, as a template literal writes an integer. */
  function NatToString(n: nat): (s: string)
    ensures s != []
    ensures forall i :: 0 <= i < |s| ==> '0' <= s[i] <= '9'
    ensures |s| > 1 ==> s[0] != '0'
    decreases n
  {
    if n < 10 then [DigitChar(n)] else NatToString(n / 10) + [DigitChar(n % 10)]
  }

  /** The value of a string of decimal digits. */
  function DigitsValue(s: string): nat
    requires forall i :: 0 <= i < |s| ==> '0' <= s[i] <= '9'
    decreases |s|
  {
    if s == [] then 0 else 10 * DigitsValue(s[..|s| - 1]) + (s[|s| - 1] as int - '0' as int)
  }

  /** The numeral reads back as the number. */
  lemma {:induction false} NatToStringValue(n: nat)
    ensures DigitsValue(NatToString(n)) == n
    decreases n
  {
    var s := NatToString(n);
    if n >= 10 {
      NatToStringValue(n / 10);
      assert s[..|s| - 1] == NatToString(n / 10);
    }
  }

  /**
    * `fetchForecast` (lines 311-316): the request for (lat, lon) in time zone
    * "auto"; a response that is not ok fails with "Weather failed: " and its
    * status, a rejected fetch or unparsable body with its own error.
    */
  method FetchForecast(lat: Num, lon: Num, server: ForecastRequest -> ForecastResponse)
    returns (requests: seq<ForecastRequest>, outcome: Result<ForecastData>)
    ensures |requests| <= 1
    ensures requests == [] <==> BuildForecastRequest(lat, lon, "auto").Failure?
    ensures requests == [] ==> outcome == Failure("Invalid coordinates")
    ensures requests != [] ==>
              var resp := server(requests[0]);
              && requests[0] == BuildForecastRequest(lat, lon, "auto").value
              && (resp.ForecastJson? ==> outcome == Success(resp.data))
              && (resp.ForecastHttpError? ==> outcome == Failure("Weather failed: " + NatToString(resp.status)))
              && (resp.ForecastNetworkError? || resp.ForecastBadJson? ==> outcome == Failure(resp.message))
  {
    var req := BuildForecastRequest(lat, lon, "auto");
    if req.Failure? {
      return [], Failure(req.message);
    }
    requests := [req.value];
    var resp := server(req.value);
    match resp
    case ForecastNetworkError(m) => outcome := Failure(m);
    case ForecastHttpError(status) => outcome := Failure("Weather failed: " + NatToString(status));
    case ForecastBadJson(m) => outcome := Failure(m);
    case ForecastJson(data) => outcome := Success(data);
  }
}
