/**
  * The variant list of static/css/js/main.js:249-264 and the retry guard of
  * line 290 exactly as the code is written, where `place` is the whole
  * segment array. Wherever an array meets a string operation it is converted
  * with `String(array)`, which joins the segments with ","; `region` is the
  * sixth segment; and `place.replace` does not exist on an array, so reaching
  * line 262 throws. Each lemma here exhibits one consequence; the model in
  * `QueryVariants` reads the code as its authors evidently intended.
  */
module LiteralVariants {
  import opened Wrappers
  import opened Text
  import opened QueryVariants
  import opened Geocode

  /** `String(place)` when `place` is the segment array. */
  function PlaceAsWritten(parts: seq<string>): string {
    Join(parts, ",")
  }

  /** The sixth segment, or "" when there are fewer than six. */
  function RegionAsWritten(parts: seq<string>): string {
    if |parts| >= 6 then parts[5] else ""
  }

  /** The TypeError thrown by `place.replace(...)` on an array. */
  const ReplaceError := "place.replace is not a function"

  /**
    * Lines 252-264 as written: the same sequence of pushes, with the array
    * place joined by "," wherever a pattern is matched against it or it is
    * searched for; a place containing an administrative word makes the whole
    * search fail.
    */
  function VariantsAsWritten(normalized: string, parts: seq<string>): (r: Result<seq<Variant>>)
    ensures r.Failure? <==> ContainsAdminWord(PlaceAsWritten(parts))
    ensures r.Failure? ==> r.message == ReplaceError
  {
    var place := PlaceAsWritten(parts);
    var cc := CountryCode(RegionAsWritten(parts));
    if ContainsAdminWord(place) then Failure(ReplaceError)
    else
      Success((if cc != "" then [Variant(place, cc)] else [])
              + [Variant(normalized, ""), Variant(place, "")]
              + Aliases(place, cc)
              + (if |parts| >= 3 then [Variant(place + ", " + place, "")] else []))
  }

  /** The India-biased retry guard of line 290 as written, on the joined place. */
  predicate FallbackAllowedAsWritten(parts: seq<string>) {
    CountryCode(RegionAsWritten(parts)) == "" && LettersOrSpaces(PlaceAsWritten(parts))
  }

  lemma {:induction false} JoinHasSeparator(parts: seq<string>)
    requires |parts| >= 2
    ensures ',' in Join(parts, ",")
  {
    var j := Join(parts, ",");
    assert j == parts[0] + "," + Join(parts[1..], ",");
    assert j[|parts[0]|] == ',';
  }

  /**
    * With fewer than six segments no country code is ever read, so a trailing
    * "IN" or "US" is ignored and every variant is unqualified.
    */
  lemma CountryIgnoredAsWritten(normalized: string, parts: seq<string>)
    requires |parts| <= 5
    ensures var r := VariantsAsWritten(normalized, parts);
      r.Success? ==> forall k :: 0 <= k < |r.value| ==> r.value[k].cc == ""
  {
  }

  /**
    * With two or more segments the joined place contains a comma: no alias
    * can match it and the retry in country "IN" is never made.
    */
  lemma MultiSegmentAsWritten(parts: seq<string>)
    requires |parts| >= 2
    ensures Aliases(PlaceAsWritten(parts), CountryCode(RegionAsWritten(parts))) == []
    ensures !FallbackAllowedAsWritten(parts)
  {
    var place := PlaceAsWritten(parts);
    JoinHasSeparator(parts);
    var i :| 0 <= i < |place| && place[i] == ',';
    assert !IsAsciiLetter(place[i]) && !IsJsSpace(place[i]);
    forall w | w in ["delhi", "mumbai", "chennai"]
      ensures !EqualsIgnoreCase(place, w)
    {
      assert Lower(place)[i] == ',';
      assert forall k :: 0 <= k < |w| ==> w[k] != ',';
      LowerLiteral();
    }
  }

  /** A text with no letter that starts an administrative word (v, t, d, in either case) contains none. */
  lemma NoAdminInitial(s: string)
    requires forall j :: 0 <= j < |s| ==> LowerChar(s[j]) !in "vtd"
    ensures !ContainsAdminWord(s)
  {
    forall i | 0 <= i < |s|
      ensures AdminWordAt(s, i) == 0
    {
      forall w | w in AdminWords
        ensures !OccursAt(s, i, w)
      {
        assert w[0] in "vtd";
        if OccursAt(s, i, w) {
          OccursAtChar(s, i, w, 0);
        }
      }
    }
  }

  lemma ChennaiNoAdmin()
    ensures !ContainsAdminWord("Chennai,IN")
  {
    NoAdminInitial("Chennai,IN");
  }

  /**
    * Two segments without an administrative word are searched only as the
    * whole text and as the segments joined by ",", both without a country.
    */
  lemma TwoSegmentsAsWritten(normalized: string, a: string, b: string)
    requires !ContainsAdminWord(a + "," + b)
    ensures VariantsAsWritten(normalized, [a, b]) == Success([Variant(normalized, ""), Variant(a + "," + b, "")])
  {
    var parts := [a, b];
    assert PlaceAsWritten(parts) == a + "," + b by {
      assert Join(parts[1..], ",") == b;
    }
    MultiSegmentAsWritten(parts);
    assert CountryCode(RegionAsWritten(parts)) == "";
    var r := VariantsAsWritten(normalized, parts);
    assert r.value == [] + [Variant(normalized, ""), Variant(a + "," + b, "")] + [] + [];
    assert r.value == [Variant(normalized, ""), Variant(a + "," + b, "")];
  }

  /** "Chennai, IN" is searched without its country code, as "Chennai, IN" and "Chennai,IN". */
  lemma ChennaiAsWritten()
    ensures VariantsAsWritten("Chennai, IN", ["Chennai", "IN"])
            == Success([Variant("Chennai, IN", ""), Variant("Chennai,IN", "")])
  {
    ChennaiNoAdmin();
    assert "Chennai" + "," + "IN" == "Chennai,IN";
    TwoSegmentsAsWritten("Chennai, IN", "Chennai", "IN");
  }

  /** The same input in the intended reading leads with ("Chennai", "IN") and also tries the "Madras" alias in "IN". */
  lemma ChennaiIntended()
    ensures var vs := Variants("Chennai, IN", ["Chennai", "IN"]);
      vs[0] == Variant("Chennai", "IN") && Variant("Madras", "IN") in vs
  {
    var parts := ["Chennai", "IN"];
    assert IsTwoLetters(RegionOf(parts));
    assert Upper("IN") == "IN";
    assert CountryCode(RegionOf(parts)) == "IN";
    assert EqualsIgnoreCase("Chennai", "chennai");
    LowerLiteral();
    VariantOrder("Chennai, IN", parts);
    AliasesExact("Chennai", "IN");
  }

  /** A name qualified by an administrative word makes the search fail as written. */
  lemma SalemAsWritten()
    ensures VariantsAsWritten("Salem taluk", ["Salem taluk"]) == Failure(ReplaceError)
  {
    var place := PlaceAsWritten(["Salem taluk"]);
    assert place == "Salem taluk";
    assert OccursAt(place, 6, "taluk") by {
      assert Lower(place[6..11]) == "taluk";
    }
    assert AdminWordAt(place, 6) > 0;
  }

  /**
    * In the intended reading a place with an administrative word is also
    * searched with the word stripped, in the same country, instead of the
    * whole search failing.
    */
  lemma AdminWordIntended(normalized: string, parts: seq<string>)
    requires ContainsAdminWord(PlaceOf(parts))
    ensures Variant(StripAdminWords(PlaceOf(parts)), CountryCode(RegionOf(parts))) in Variants(normalized, parts)
  {
    var place := PlaceOf(parts);
    var cc := CountryCode(RegionOf(parts));
    var x := Variant(StripAdminWords(place), cc);
    var head := (if cc != "" then [Variant(place, cc)] else []) + [Variant(normalized, ""), Variant(place, "")];
    var tail := Aliases(place, cc) + AdminVariant(place, cc) + CombinedVariant(parts);
    VariantsSplit(normalized, parts);
    assert AdminVariant(place, cc) == [x];
    assert tail[|Aliases(place, cc)|] == x;
    assert (head + tail)[|head| + |Aliases(place, cc)|] == x;
  }

  /** Three or more segments give the combined query: the joined array, ", ", and the joined array again. */
  lemma CombinedAsWritten(parts: seq<string>)
    requires |parts| >= 3 && !ContainsAdminWord(PlaceAsWritten(parts))
    ensures var vs := VariantsAsWritten(Join(parts, ", "), parts).value;
      vs[|vs| - 1] == Variant(Join(parts, ",") + ", " + Join(parts, ","), "")
  {
  }
}
