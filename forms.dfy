/**
  * Client-side checks of the two crop forms, static/css/js/main.js:80-96,
  * :128-137 and :163-169: the fields that must be filled in, the area that
  * must be positive, and the comma-separated list of candidate crops.
  */
module Forms {
  import opened Wrappers
  import opened Text
  import opened Geocode

  const MissingYieldFields := "Please select State and Season, and enter Crop."
  const InvalidArea := "Please enter a valid Area (> 0)."
  const MissingRecoFields := "Please select State & Season and enter Current Crop."
  const NoCandidates := "No candidates provided."

  /** What the yield form sends, with the area it will multiply the revenue by. */
  datatype YieldQuery = YieldQuery(state: string, season: string, crop: string, area: real)

  /**
    * The yield form (lines 80-96): the crop is trimmed; a missing state,
    * season or crop is reported first, then an area that is not a finite
    * positive number. Nothing is sent in either case.
    */
  function ValidateYieldForm(state: string, season: string, cropInput: string, area: Num): (r: Result<YieldQuery>)
    ensures r.Success? <==>
              state != "" && season != "" && JsTrim(cropInput) != "" && area.Finite? && area.value > 0.0
    ensures r.Success? ==> r.value == YieldQuery(state, season, JsTrim(cropInput), area.value)
    ensures r.Failure? ==>
              r.message == (if state == "" || season == "" || JsTrim(cropInput) == "" then MissingYieldFields
                            else InvalidArea)
  {
    var crop := JsTrim(cropInput);
    if state == "" || season == "" || crop == "" then Failure(MissingYieldFields)
    else if !area.Finite? || area.value <= 0.0 then Failure(InvalidArea)
    else Success(YieldQuery(state, season, crop, area.value))
  }

  /** What the recommendation form sends in its first request. */
  datatype RecoQuery = RecoQuery(state: string, currentSeason: string, currentCrop: string)

  /** The recommendation form (lines 128-137): state, season and the trimmed crop must all be present. */
  function ValidateRecoForm(state: string, season: string, cropInput: string): (r: Result<RecoQuery>)
    ensures r.Success? <==> state != "" && season != "" && JsTrim(cropInput) != ""
    ensures r.Success? ==> r.value == RecoQuery(state, season, JsTrim(cropInput))
    ensures r.Failure? ==> r.message == MissingRecoFields
  {
    var crop := JsTrim(cropInput);
    if state == "" || season == "" || crop == "" then Failure(MissingRecoFields)
    else Success(RecoQuery(state, season, crop))
  }

  /**
    * The answer to the prompt for candidate crops (lines 163-169): a
    * cancelled or empty answer is refused; otherwise its comma-separated
    * entries, trimmed, with the blank ones dropped.
    */
  function ParseCandidates(entered: Option<string>): (r: Result<seq<string>>)
    ensures r.Failure? <==> entered.None? || entered.value == ""
    ensures r.Failure? ==> r.message == NoCandidates
    ensures r.Success? ==> forall k :: 0 <= k < |r.value| ==> r.value[k] != "" && IsTrimmed(r.value[k], IsJsSpace)
  {
    if entered.None? || entered.value == "" then Failure(NoCandidates)
    else Success(Segments(entered.value))
  }

  /** A list typed as the prompt suggests ("Wheat, Mustard") is read back entry for entry. */
  lemma CandidateListRoundTrip(crops: seq<string>)
    requires |crops| >= 1
    requires forall k :: 0 <= k < |crops| ==> crops[k] != "" && IsTrimmed(crops[k], IsJsSpace) && ',' !in crops[k]
    ensures ParseCandidates(Some(Join(crops, ", "))) == Success(crops)
  {
    SegmentsOfJoin(crops);
    assert |Join(crops, ", ")| >= |crops[0]| by {
      if |crops| > 1 {
        assert Join(crops, ", ") == crops[0] + ", " + Join(crops[1..], ", ");
      }
    }
  }

  /**
    * An answer made only of commas and spaces passes the check but yields no
    * candidate, so the second request carries an empty list.
    */
  lemma BlankEntriesGiveEmptyList()
    ensures ParseCandidates(Some(" , ")) == Success([])
  {
    assert " , " == " " + [','] + " ";
    SplitAtSeparator(" ", ',', " ");
    SplitFree(" ", ',');
    assert Split(" , ", ',') == [" ", " "];
    TrimmedNonEmptyCons(" ", [" "]);
    TrimmedNonEmptyCons(" ", []);
    assert JsTrim(" ") == "" by {
      assert LeadingCount(" ", IsJsSpace) == 1;
    }
  }
}
