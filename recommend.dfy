/**
  * The crop-recommendation endpoint of api.py: key normalisation (line 27),
  * the next-season table (lines 55-63) and `recommend` (lines 95-168), a
  * cascade of guards followed by a choice of the best-scoring candidate crop.
  * The weather-averages table is a sequence of rows (absent when it could not
  * be loaded) and the yield model an oracle that may fail on a candidate.
  */
module Recommend {
  import opened Wrappers
  import opened Text

  /** `norm`: Python `strip()` then lower case. */
  function Norm(s: string): (r: string)
    ensures r == PyStrip(Lower(s))
    ensures |r| <= |s|
  {
    PyStripLower(s);
    Lower(PyStrip(s))
  }

  lemma LowerLower(s: string)
    ensures Lower(Lower(s)) == Lower(s)
  {
  }

  lemma LowerUpper(s: string)
    ensures Lower(Upper(s)) == Lower(s)
  {
  }

  /** Normalising twice is normalising once. */
  lemma NormIdempotent(s: string)
    ensures Norm(Norm(s)) == Norm(s)
  {
    var t := PyStrip(s);
    PyStripLower(t);
    TrimOfTrimmed(t, IsPySpace);
    LowerLower(t);
  }

  /** Case does not matter: a key and its upper-cased form normalise alike. */
  lemma NormIgnoresCase(s: string)
    ensures Norm(Upper(s)) == Norm(s)
  {
    PyStripUpper(s);
    LowerUpper(PyStrip(s));
  }

  /** `SEASON_MAP`: the season that follows each of the seven season names. */
  const SeasonMap: map<string, string> := map[
    "Kharif" := "Rabi", "Rabi" := "Zaid", "Zaid" := "Kharif", "Summer" := "Kharif",
    "Autumn" := "Rabi", "Winter" := "Zaid", "Whole Year" := "Kharif"
  ]

  /** `SEASON_MAP.get(season)`: an exact, case-sensitive lookup. */
  function NextSeason(season: string): (r: Option<string>)
    ensures r.Some? <==> season in SeasonMap
    ensures r.Some? ==> r.value in {"Kharif", "Rabi", "Zaid"} && r.value != season
  {
    if season in SeasonMap then Some(SeasonMap[season]) else None
  }

  /** Kharif, Rabi and Zaid follow one another in a cycle of three. */
  lemma SeasonCycle(season: string)
    requires season in {"Kharif", "Rabi", "Zaid"}
    ensures var n1 := NextSeason(season).value;
      var n2 := NextSeason(n1).value;
      NextSeason(n2) == Some(season) && n1 != n2
  {
  }

  /** One row of the weather-averages table. */
  datatype WeatherRow = WeatherRow(state: string, season: string, year: int,
                                   avgTemp: real, rainfall: real, humidity: real)

  /** A row is for the state and season when both agree after `norm`. */
  predicate RowMatches(row: WeatherRow, state: string, season: string) {
    Norm(row.state) == Norm(state) && Norm(row.season) == Norm(season)
  }

  /** The first index at `i` or later whose element satisfies `p`, if any. */
  function FirstFrom<T>(xs: seq<T>, p: T -> bool, i: nat): (r: Option<nat>)
    requires i <= |xs|
    ensures r.Some? ==> i <= r.value < |xs| && p(xs[r.value])
                        && forall k :: i <= k < r.value ==> !p(xs[k])
    ensures r.None? ==> forall k :: i <= k < |xs| ==> !p(xs[k])
    decreases |xs| - i
  {
    if i == |xs| then None
    else if p(xs[i]) then Some(i)
    else FirstFrom(xs, p, i + 1)
  }

  /**
    * The mask of lines 111-117 and its first row: the index of the first
    * row for the state and season, or none when no row is.
    */
  function MatchingRow(rows: seq<WeatherRow>, state: string, season: string): (r: Option<nat>)
    ensures r.Some? ==> r.value < |rows| && RowMatches(rows[r.value], state, season)
                        && forall k :: 0 <= k < r.value ==> !RowMatches(rows[k], state, season)
    ensures r.None? ==> forall k :: 0 <= k < |rows| ==> !RowMatches(rows[k], state, season)
  {
    FirstFrom(rows, row => RowMatches(row, state, season), 0)
  }

  /** The year of a row, where 0 (a missing year) reads as 2025. */
  function YearOf(row: WeatherRow): int {
    if row.year == 0 then 2025 else row.year
  }

  /** The input to the yield model for one candidate crop. */
  datatype Features = Features(year: int, avgTemp: real, rainfall: real, humidity: real,
                               state: string, season: string, crop: string)

  /** Candidate `i` was scored; `score` returns `None` when the prediction raised. */
  predicate Scored(candidates: seq<string>, score: string -> Option<real>, i: int) {
    0 <= i < |candidates| && score(candidates[i]).Some?
  }

  /**
    * Candidate `i` is the one `recommend` picks: it scored, no candidate
    * scored higher, and every earlier candidate scored strictly lower.
    */
  predicate IsBest(candidates: seq<string>, score: string -> Option<real>, i: int) {
    && Scored(candidates, score, i)
    && (forall j :: 0 <= j < |candidates| && Scored(candidates, score, j) ==>
          score(candidates[j]).value <= score(candidates[i]).value)
    && (forall j :: 0 <= j < i && Scored(candidates, score, j) ==>
          score(candidates[j]).value < score(candidates[i]).value)
  }

  /** The loop of lines 139-155 as a function of the candidates seen so far. */
  function BestIndex(candidates: seq<string>, score: string -> Option<real>): (r: Option<nat>)
    ensures r.Some? ==> Scored(candidates, score, r.value)
    decreases |candidates|
  {
    if candidates == [] then None
    else
      var n := |candidates| - 1;
      var prev := BestIndex(candidates[..n], score);
      var s := score(candidates[n]);
      if s.None? then prev
      else if prev.None? || s.value > score(candidates[prev.value]).value then Some(n)
      else prev
  }

  /**
    * The pick is characterised exactly: there is one precisely when some
    * candidate scored, and it is the best one with ties going to the earliest.
    */
  lemma {:induction false} BestIndexIsBest(candidates: seq<string>, score: string -> Option<real>)
    ensures BestIndex(candidates, score).None? <==> forall j :: 0 <= j < |candidates| ==> !Scored(candidates, score, j)
    ensures BestIndex(candidates, score).Some? ==> IsBest(candidates, score, BestIndex(candidates, score).value)
    decreases |candidates|
  {
    if candidates != [] {
      var n := |candidates| - 1;
      var init := candidates[..n];
      BestIndexIsBest(init, score);
      assert forall j :: 0 <= j < n ==> (Scored(init, score, j) <==> Scored(candidates, score, j));
      var prev := BestIndex(init, score);
      if prev.Some? {
        assert init[prev.value] == candidates[prev.value];
      }
    }
  }

  /** At most one candidate is best. */
  lemma BestIsUnique(candidates: seq<string>, score: string -> Option<real>, i: int, j: int)
    requires IsBest(candidates, score, i) && IsBest(candidates, score, j)
    ensures i == j
  {
  }

  /**
    * The `for crop in candidates` loop: each candidate is scored in turn, a
    * failing prediction is skipped, and a score replaces the best so far only
    * when strictly greater.
    */
  method BestCandidate(candidates: seq<string>, score: string -> Option<real>) returns (best: Option<nat>)
    ensures best == BestIndex(candidates, score)
    ensures best.None? <==> forall j :: 0 <= j < |candidates| ==> !Scored(candidates, score, j)
    ensures best.Some? ==> IsBest(candidates, score, best.value)
  {
    best := None;
    var bestScore := 0.0;
    var i := 0;
    while i < |candidates|
      invariant 0 <= i <= |candidates|
      invariant best == BestIndex(candidates[..i], score)
      invariant best.Some? ==> best.value < i && score(candidates[best.value]).Some?
                               && bestScore == score(candidates[best.value]).value
    {
      assert candidates[..i + 1][..i] == candidates[..i];
      var pred := score(candidates[i]);
      if pred.Some? {
        if best.None? || pred.value > bestScore {
          best, bestScore := Some(i), pred.value;
        }
      }
      i := i + 1;
    }
    assert candidates[..i] == candidates;
    BestIndexIsBest(candidates, score);
  }

  /** The JSON body of a request; an absent key is `None`. */
  datatype Body = Body(state: Option<string>, currentSeason: Option<string>,
                       currentCrop: Option<string>, candidates: Option<seq<string>>)

  /** A body that parsed, or the error raised when it did not. */
  datatype RecommendRequest = Unparsable(error: string) | Parsed(body: Body)

  datatype WeatherSummary = WeatherSummary(year: int, avgTemp: real, rainfall: real, humidity: real)

  datatype ReplyBody =
    | ErrorBody(error: string)
    | PhaseOne(nextSeason: string, weather: WeatherSummary)
    | Recommendation(nextSeason: string, crop: string, predictedYield: real)

  datatype Reply = Reply(status: nat, body: ReplyBody)

  function Summary(row: WeatherRow): WeatherSummary {
    WeatherSummary(YearOf(row), row.avgTemp, row.rainfall, row.humidity)
  }

  /** The scorer for one request: the yield model on the row's averages and the given crop. */
  function ScoreFor(model: Features -> Option<real>, row: WeatherRow, state: string, season: string)
    : string -> Option<real>
  {
    crop => model(Features(YearOf(row), row.avgTemp, row.rainfall, row.humidity, state, season, crop))
  }

  /** The first of the three required keys that is missing, as Python names it in a `KeyError`. */
  function MissingKey(body: Body): (r: Option<string>)
    ensures r.None? <==> body.state.Some? && body.currentSeason.Some? && body.currentCrop.Some?
  {
    if body.state.None? then Some("'state'")
    else if body.currentSeason.None? then Some("'current_season'")
    else if body.currentCrop.None? then Some("'current_crop'")
    else None
  }

  /**
    * `recommend` (lines 95-168). The guards apply in this order: a body that
    * does not parse (500), a missing key (400), an unknown season (400), no
    * weather table (500), no weather row for the state and next season (404),
    * no candidates (the next season and the averages), no candidate scored
    * (422); otherwise, and only then, a 200 reply with the best candidate
    * and its score.
    */
  method Recommend(req: RecommendRequest, table: Option<seq<WeatherRow>>, model: Features -> Option<real>)
    returns (reply: Reply)
    ensures req.Unparsable? ==> reply == Reply(500, ErrorBody(req.error))
    ensures req.Parsed? && MissingKey(req.body).Some? ==>
              reply == Reply(400, ErrorBody("Missing field: " + MissingKey(req.body).value))
    ensures req.Parsed? && MissingKey(req.body).None? ==>
              var b := req.body;
              var next := NextSeason(b.currentSeason.value);
              && (next.None? ==> reply == Reply(400, ErrorBody("Unknown season '" + b.currentSeason.value + "'")))
              && (next.Some? && table.None? ==> reply == Reply(500, ErrorBody("Average weather data not available")))
              && (next.Some? && table.Some? && MatchingRow(table.value, b.state.value, next.value).None? ==>
                    reply == Reply(404, ErrorBody("No weather averages for " + b.state.value + " in " + next.value)))
    ensures reply.body.PhaseOne? <==>
              && req.Parsed? && MissingKey(req.body).None?
              && NextSeason(req.body.currentSeason.value).Some? && table.Some?
              && MatchingRow(table.value, req.body.state.value, NextSeason(req.body.currentSeason.value).value).Some?
              && (req.body.candidates.None? || req.body.candidates.value == [])
    ensures reply.body.PhaseOne? ==>
              var next := NextSeason(req.body.currentSeason.value).value;
              var row := table.value[MatchingRow(table.value, req.body.state.value, next).value];
              reply == Reply(200, PhaseOne(next, Summary(row)))
    ensures reply.status == 422 <==>
              && req.Parsed? && MissingKey(req.body).None?
              && NextSeason(req.body.currentSeason.value).Some? && table.Some?
              && MatchingRow(table.value, req.body.state.value, NextSeason(req.body.currentSeason.value).value).Some?
              && req.body.candidates.Some? && req.body.candidates.value != []
              && var next := NextSeason(req.body.currentSeason.value).value;
                 var row := table.value[MatchingRow(table.value, req.body.state.value, next).value];
                 BestIndex(req.body.candidates.value, ScoreFor(model, row, req.body.state.value, next)).None?
    ensures reply.status == 422 ==> reply.body == ErrorBody("No predictions could be made for candidates")
    ensures reply.body.Recommendation? ==>
              var b := req.body;
              var next := NextSeason(b.currentSeason.value).value;
              var row := table.value[MatchingRow(table.value, b.state.value, next).value];
              var score := ScoreFor(model, row, b.state.value, next);
              && reply.status == 200
              && b.candidates.Some? && b.candidates.value != []
              && exists i :: IsBest(b.candidates.value, score, i)
                             && reply.body == Recommendation(next, b.candidates.value[i], score(b.candidates.value[i]).value)
    ensures req.Parsed? && MissingKey(req.body).None? && NextSeason(req.body.currentSeason.value).Some?
            && table.Some?
            && MatchingRow(table.value, req.body.state.value, NextSeason(req.body.currentSeason.value).value).Some?
            && req.body.candidates.Some? && req.body.candidates.value != [] ==>
              var b := req.body;
              var next := NextSeason(b.currentSeason.value).value;
              var row := table.value[MatchingRow(table.value, b.state.value, next).value];
              var score := ScoreFor(model, row, b.state.value, next);
              var best := BestIndex(b.candidates.value, score);
              best.Some? ==>
                reply == Reply(200, Recommendation(next, b.candidates.value[best.value],
                                                   score(b.candidates.value[best.value]).value))
  {
    if req.Unparsable? {
      return Reply(500, ErrorBody(req.error));
    }
    var body := req.body;
    var missing := MissingKey(body);
    if missing.Some? {
      return Reply(400, ErrorBody("Missing field: " + missing.value));
    }
    var state, currentSeason := body.state.value, body.currentSeason.value;
    var next := NextSeason(currentSeason);
    if next.None? {
      return Reply(400, ErrorBody("Unknown season '" + currentSeason + "'"));
    }
    if table.None? {
      return Reply(500, ErrorBody("Average weather data not available"));
    }
    var found := MatchingRow(table.value, state, next.value);
    if found.None? {
      return Reply(404, ErrorBody("No weather averages for " + state + " in " + next.value));
    }
    var row := table.value[found.value];
    if body.candidates.None? || body.candidates.value == [] {
      return Reply(200, PhaseOne(next.value, Summary(row)));
    }
    var candidates := body.candidates.value;
    var score := ScoreFor(model, row, state, next.value);
    var best := BestCandidate(candidates, score);
    if best.None? {
      return Reply(422, ErrorBody("No predictions could be made for candidates"));
    }
    reply := Reply(200, Recommendation(next.value, candidates[best.value], score(candidates[best.value]).value));
  }
}
