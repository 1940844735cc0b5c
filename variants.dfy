/**
  * Search variants for a place name, static/css/js/main.js:244-270: the
  * country code, the ordered list of (query, country) variants and the
  * de-duplicated queue that the geocoder is asked in order.
  *
  * Reading of lines 250-251: `place` is the first comma segment and `region`
  * the trailing one (only when there are at least two segments). The code as
  * written binds `place` to the whole segment array and reads `region` from
  * `parts[5]`; that behaviour is modelled separately by `VariantsAsWritten`.
  */
module QueryVariants {
  import opened Wrappers
  import opened Text

  /** One geocoder query: the place text and a country code ("" for none). */
  datatype Variant = Variant(q: string, cc: string)

  /** The place searched for: the first segment, or "" when there is none. */
  function PlaceOf(parts: seq<string>): string {
    if parts == [] then "" else parts[0]
  }

  /** The segment inspected for a country code: the last one, when it is not also the place. */
  function RegionOf(parts: seq<string>): string {
    if |parts| >= 2 then parts[|parts| - 1] else ""
  }

  predicate IsUpperTwoLetters(s: string) {
    |s| == 2 && 'A' <= s[0] <= 'Z' && 'A' <= s[1] <= 'Z'
  }

  /** static/css/js/main.js:252: a two-letter region, upper-cased, or "". */
  function CountryCode(region: string): (cc: string)
    ensures cc == "" || IsUpperTwoLetters(cc)
    ensures cc != "" <==> IsTwoLetters(region)
    ensures cc != "" ==> EqualsIgnoreCase(cc, region)
  {
    if IsTwoLetters(region) then
      var cc := Upper(region);
      assert Lower(cc) == Lower(region);
      cc
    else ""
  }

  // ---------------------------------------------------------------------
  // Administrative words (village, taluk, tehsil, district)
  // ---------------------------------------------------------------------

  const AdminWords: seq<string> := ["village", "taluk", "tehsil", "district"]

  /** `w` (lower case) occurs at position `i` of `s`, ignoring ASCII case. */
  predicate OccursAt(s: string, i: nat, w: string) {
    i + |w| <= |s| && Lower(s[i..i + |w|]) == w
  }

  /**
    * Length of the administrative word at position `i` of `s`, ignoring case,
    * or 0 when none of the four words starts there.
    */
  function AdminWordAt(s: string, i: nat): (n: nat)
    ensures n == 0 <==> forall w :: w in AdminWords ==> !OccursAt(s, i, w)
    ensures forall w :: w in AdminWords && OccursAt(s, i, w) ==> n == |w|
    ensures n > 0 ==> i + n <= |s|
  {
    AdminWordsExclusive(s, i);
    if OccursAt(s, i, "village") then 7
    else if OccursAt(s, i, "taluk") then 5
    else if OccursAt(s, i, "tehsil") then 6
    else if OccursAt(s, i, "district") then 8
    else 0
  }

  /** The `k`-th character of an occurrence of `w`, lower-cased, is `w[k]`. */
  lemma OccursAtChar(s: string, i: nat, w: string, k: nat)
    requires OccursAt(s, i, w) && k < |w|
    ensures LowerChar(s[i + k]) == w[k]
  {
    assert Lower(s[i..i + |w|])[k] == LowerChar(s[i + k]);
  }

  /** No two administrative words start at the same position: they differ in their first two letters. */
  lemma AdminWordsExclusive(s: string, i: nat)
    ensures forall u, w :: u in AdminWords && w in AdminWords && OccursAt(s, i, u) && OccursAt(s, i, w) ==> u == w
  {
    forall u, w | u in AdminWords && w in AdminWords && OccursAt(s, i, u) && OccursAt(s, i, w)
      ensures u == w
    {
      OccursAtChar(s, i, u, 0);
      OccursAtChar(s, i, w, 0);
      OccursAtChar(s, i, u, 1);
      OccursAtChar(s, i, w, 1);
    }
  }

  /** Some administrative word occurs in `s`, in any case (line 261). */
  predicate ContainsAdminWord(s: string) {
    exists i :: 0 <= i < |s| && AdminWordAt(s, i) > 0
  }

  /**
    * Length of a whole administrative word at position `i` (case-insensitive),
    * or 0: the word must not be preceded or followed by a word character.
    */
  function WholeAdminWordAt(s: string, i: nat): (n: nat)
    ensures n == 0 || (n >= 5 && i + n <= |s|)
  {
    var n := AdminWordAt(s, i);
    if n > 0 && (i == 0 || (i <= |s| && !IsWordChar(s[i - 1])))
       && (i + n == |s| || !IsWordChar(s[i + n]))
    then n else 0
  }

  /**
    * A global replacement by "" from position `i` on: `wordAt(p)` is the length
    * of the match starting at position `p`, or 0 when none starts there.
    */
  function ReplaceFrom(s: string, i: nat, wordAt: nat -> nat): (r: string)
    ensures r == [] || i + |r| <= |s|
    decreases |s| - i
  {
    if i >= |s| then []
    else
      var n := wordAt(i);
      if n > 0 then ReplaceFrom(s, i + n, wordAt) else [s[i]] + ReplaceFrom(s, i + 1, wordAt)
  }

  /** The global replacement of whole administrative words by "" from position `i` on (line 262, before `trim()`). */
  function StripFrom(s: string, i: nat): string {
    ReplaceFrom(s, i, p => WholeAdminWordAt(s, p))
  }

  /** The place with every whole administrative word removed, then trimmed (line 262). */
  function StripAdminWords(place: string): (r: string)
    ensures IsTrimmed(r, IsJsSpace) && |r| <= |place|
  {
    JsTrim(StripFrom(place, 0))
  }

  /** With no match starting at or after position `i`, the rest of `s` is copied through unchanged. */
  lemma {:induction false} ReplaceFromCopies(s: string, i: nat, wordAt: nat -> nat)
    requires i <= |s|
    requires forall p :: i <= p < |s| ==> wordAt(p) == 0
    ensures ReplaceFrom(s, i, wordAt) == s[i..]
    decreases |s| - i
  {
    if i < |s| {
      ReplaceFromCopies(s, i + 1, wordAt);
      assert s[i..] == [s[i]] + s[i + 1..];
    }
  }

  /** Without a whole administrative word the replacement changes nothing. */
  lemma StripFromUnchanged(s: string, i: nat)
    requires i <= |s|
    requires forall j :: i <= j < |s| ==> WholeAdminWordAt(s, j) == 0
    ensures StripFrom(s, i) == s[i..]
  {
    ReplaceFromCopies(s, i, p => WholeAdminWordAt(s, p));
  }

  /** With no match starting in `[i, j)`, that stretch is copied through and the replacement goes on at `j`. */
  lemma {:induction false} ReplaceFromPrefix(s: string, i: nat, j: nat, wordAt: nat -> nat)
    requires i <= j <= |s|
    requires forall p :: i <= p < j ==> wordAt(p) == 0
    ensures ReplaceFrom(s, i, wordAt) == s[i..j] + ReplaceFrom(s, j, wordAt)
    decreases j - i
  {
    if i < j {
      calc {
        ReplaceFrom(s, i, wordAt);
      ==
        [s[i]] + ReplaceFrom(s, i + 1, wordAt);
      == { ReplaceFromPrefix(s, i + 1, j, wordAt); }
        [s[i]] + (s[i + 1..j] + ReplaceFrom(s, j, wordAt));
      == { assert s[i..j] == [s[i]] + s[i + 1..j]; }
        s[i..j] + ReplaceFrom(s, j, wordAt);
      }
    }
  }

  /** A match at position `i` is dropped and the replacement goes on after it. */
  lemma ReplaceFromSkip(s: string, i: nat, j: nat, wordAt: nat -> nat)
    requires i < j <= |s| && wordAt(i) == j - i
    ensures ReplaceFrom(s, i, wordAt) == ReplaceFrom(s, j, wordAt)
  {
  }

  /** A single match at `[i, j)` is all the replacement removes. */
  lemma ReplaceAround(s: string, i: nat, j: nat, wordAt: nat -> nat)
    requires i < j <= |s|
    requires forall p :: 0 <= p < i ==> wordAt(p) == 0
    requires wordAt(i) == j - i
    requires forall p :: j <= p < |s| ==> wordAt(p) == 0
    ensures ReplaceFrom(s, 0, wordAt) == s[..i] + s[j..]
  {
    ReplaceFromPrefix(s, 0, i, wordAt);
    ReplaceFromSkip(s, i, j, wordAt);
    ReplaceFromCopies(s, j, wordAt);
    assert s[0..i] == s[..i];
  }

  /** A single whole administrative word at `[i, j)` is all the replacement removes. */
  lemma StripAround(s: string, i: nat, j: nat)
    requires i < j <= |s|
    requires forall p :: 0 <= p < i ==> WholeAdminWordAt(s, p) == 0
    requires WholeAdminWordAt(s, i) == j - i
    requires forall p :: j <= p < |s| ==> WholeAdminWordAt(s, p) == 0
    ensures StripFrom(s, 0) == s[..i] + s[j..]
  {
    ReplaceAround(s, i, j, p => WholeAdminWordAt(s, p));
  }

  /** The administrative words are lower case and made of word characters. */
  lemma AdminWordsShape()
    ensures forall w :: w in AdminWords ==> Lower(w) == w
    ensures forall w, k :: w in AdminWords && 0 <= k < |w| ==> IsWordChar(w[k])
  {
    assert Lower("village") == "village";
    assert Lower("taluk") == "taluk";
    assert Lower("tehsil") == "tehsil";
    assert Lower("district") == "district";
  }

  /** An occurrence that starts in `t` inside `a + t + b` lies inside `t` when `t` ends in a non-word character or the text ends with it. */
  lemma OccursInside(a: string, t: string, b: string, j: nat, u: string)
    requires u in AdminWords && |a| <= j < |a| + |t|
    requires b == [] || !IsWordChar(t[|t| - 1])
    ensures OccursAt(a + t + b, j, u) ==> OccursAt(t, j - |a|, u)
  {
    var s := a + t + b;
    if OccursAt(s, j, u) {
      if j + |u| <= |a| + |t| {
        assert s[j..j + |u|] == t[j - |a|..j - |a| + |u|];
      } else if b != [] {
        var k := |a| + |t| - 1 - j;
        OccursAtChar(s, j, u, k);
        assert s[j + k] == t[|t| - 1];
        AdminWordsShape();
      }
    }
  }

  /** No administrative word starts inside a part `t` of a text when `t` has none and ends in a non-word character or ends the text. */
  lemma NoWordFrom(a: string, t: string, b: string, j: nat)
    requires !ContainsAdminWord(t) && |a| <= j < |a| + |t|
    requires b == [] || !IsWordChar(t[|t| - 1])
    ensures AdminWordAt(a + t + b, j) == 0
  {
    var s := a + t + b;
    forall u | u in AdminWords
      ensures !OccursAt(s, j, u)
    {
      OccursInside(a, t, b, j, u);
      var n := AdminWordAt(t, j - |a|);
    }
  }

  /** No whole administrative word starts inside `p` in `p + w + q`. */
  lemma StripPrefixClear(p: string, w: string, q: string)
    requires !ContainsAdminWord(p)
    requires p == [] || !IsWordChar(p[|p| - 1])
    ensures forall j :: 0 <= j < |p| ==> WholeAdminWordAt(p + w + q, j) == 0
  {
    forall j | 0 <= j < |p|
      ensures AdminWordAt(p + w + q, j) == 0
    {
      NoWordFrom([], p, w + q, j);
      assert [] + p + (w + q) == p + w + q;
    }
  }

  /** No whole administrative word starts inside `q` in `p + w + q`. */
  lemma StripSuffixClear(p: string, w: string, q: string)
    requires !ContainsAdminWord(q)
    ensures forall j :: |p| + |w| <= j < |p| + |w| + |q| ==> WholeAdminWordAt(p + w + q, j) == 0
  {
    forall j | |p| + |w| <= j < |p| + |w| + |q|
      ensures AdminWordAt(p + w + q, j) == 0
    {
      NoWordFrom(p + w, q, [], j);
      assert p + w + q + [] == p + w + q;
    }
  }

  /** An administrative word between non-word characters is a whole match of its own length. */
  lemma StripWordAt(p: string, w: string, q: string)
    requires w in AdminWords
    requires p == [] || !IsWordChar(p[|p| - 1])
    requires q == [] || !IsWordChar(q[0])
    ensures WholeAdminWordAt(p + w + q, |p|) == |w|
  {
    var s := p + w + q;
    AdminWordsShape();
    assert s[|p|..|p| + |w|] == w;
    assert OccursAt(s, |p|, w);
  }

  /**
    * The main case of line 262: a whole administrative word between two
    * texts without one is removed, and nothing else changes.
    */
  lemma StripOneWord(p: string, w: string, q: string)
    requires w in AdminWords
    requires !ContainsAdminWord(p) && !ContainsAdminWord(q)
    requires p == [] || !IsWordChar(p[|p| - 1])
    requires q == [] || !IsWordChar(q[0])
    ensures StripFrom(p + w + q, 0) == p + q
  {
    var s := p + w + q;
    StripPrefixClear(p, w, q);
    StripWordAt(p, w, q);
    StripSuffixClear(p, w, q);
    StripAround(s, |p|, |p| + |w|);
    SliceAround(p, w, q);
  }

  /** The parts of `p + w + q` before and after `w`. */
  lemma SliceAround<T>(p: seq<T>, w: seq<T>, q: seq<T>)
    ensures (p + w + q)[..|p|] == p && (p + w + q)[|p| + |w|..] == q
  {
  }

  // ---------------------------------------------------------------------
  // The ordered variant list (lines 254-264)
  // ---------------------------------------------------------------------

  /** Lines 258-260: alias rewrites for an exact, case-insensitive city name. */
  function Aliases(place: string, cc: string): (r: seq<Variant>)
    ensures forall k :: 0 <= k < |r| ==> r[k].cc == cc
    ensures r != [] ==> EqualsIgnoreCase(place, "delhi") || EqualsIgnoreCase(place, "mumbai")
                        || EqualsIgnoreCase(place, "chennai")
  {
    (if EqualsIgnoreCase(place, "delhi") then [Variant("New Delhi", cc)] else [])
    + (if EqualsIgnoreCase(place, "mumbai") then [Variant("Bombay", cc)] else [])
    + (if EqualsIgnoreCase(place, "chennai") then [Variant("Madras", cc)] else [])
  }

  /** The variant built from the place with its administrative words stripped, when it has one (lines 261-263). */
  function AdminVariant(place: string, cc: string): (r: seq<Variant>)
    ensures forall k :: 0 <= k < |r| ==> r[k].cc == cc
  {
    if ContainsAdminWord(place) then [Variant(StripAdminWords(place), cc)] else []
  }

  /** The multi-part variant, place and trailing segment, for three or more segments (line 264). */
  function CombinedVariant(parts: seq<string>): (r: seq<Variant>)
    ensures forall k :: 0 <= k < |r| ==> r[k].cc == ""
  {
    if |parts| >= 3 then [Variant(PlaceOf(parts) + ", " + parts[|parts| - 1], "")] else []
  }

  /** Each of three lists has only the codes "" and `cc`, so their concatenation has too. */
  lemma CodesAppend(a: seq<Variant>, b: seq<Variant>, c: seq<Variant>, cc: string)
    requires forall k :: 0 <= k < |a| ==> a[k].cc == "" || a[k].cc == cc
    requires forall k :: 0 <= k < |b| ==> b[k].cc == "" || b[k].cc == cc
    requires forall k :: 0 <= k < |c| ==> c[k].cc == "" || c[k].cc == cc
    ensures var r := a + (b + c); forall k :: 0 <= k < |r| ==> r[k].cc == "" || r[k].cc == cc
  {
  }

  /** The variants of lines 254-264, most specific first. */
  function Variants(normalized: string, parts: seq<string>): (r: seq<Variant>)
    ensures Variant(normalized, "") in r && Variant(PlaceOf(parts), "") in r
    ensures forall k :: 0 <= k < |r| ==> r[k].cc == "" || r[k].cc == CountryCode(RegionOf(parts))
  {
    var place := PlaceOf(parts);
    var cc := CountryCode(RegionOf(parts));
    var head := (if cc != "" then [Variant(place, cc)] else []) + [Variant(normalized, ""), Variant(place, "")];
    var tail := Aliases(place, cc) + AdminVariant(place, cc) + CombinedVariant(parts);
    assert head[|head| - 2] == Variant(normalized, "") && head[|head| - 1] == Variant(place, "");
    CodesAppend(head, Aliases(place, cc) + AdminVariant(place, cc), CombinedVariant(parts), cc);
    assert tail == (Aliases(place, cc) + AdminVariant(place, cc)) + CombinedVariant(parts);
    head + tail
  }

  lemma LowerLiteral()
    ensures Lower("delhi") == "delhi" && Lower("mumbai") == "mumbai" && Lower("chennai") == "chennai"
  {
    assert Lower("delhi") == "delhi";
    assert Lower("mumbai") == "mumbai";
    assert Lower("chennai") == "chennai";
  }

  /**
    * The order of the variant list: the country-qualified place first exactly
    * when a country code was found, then the full string and the bare place;
    * then at most one alias, present exactly for an exact case-insensitive city
    * name; the stripped variant; and last the combined variant, exactly when
    * there are at least three segments.
    */
  lemma VariantOrder(normalized: string, parts: seq<string>)
    ensures var vs := Variants(normalized, parts);
      var place := PlaceOf(parts);
      var cc := CountryCode(RegionOf(parts));
      var h := if cc != "" then 3 else 2;
      && h <= |vs|
      && (cc != "" ==> vs[..3] == [Variant(place, cc), Variant(normalized, ""), Variant(place, "")])
      && (cc == "" ==> vs[..2] == [Variant(normalized, ""), Variant(place, "")])
      && vs[h..] == Aliases(place, cc) + AdminVariant(place, cc) + CombinedVariant(parts)
      && (|parts| >= 3 ==> vs[|vs| - 1] == Variant(place + ", " + parts[|parts| - 1], ""))
  {
    VariantsSplit(normalized, parts);
    var place := PlaceOf(parts);
    var cc := CountryCode(RegionOf(parts));
    HeadTailParts((if cc != "" then [Variant(place, cc)] else []) + [Variant(normalized, ""), Variant(place, "")],
                  Aliases(place, cc) + AdminVariant(place, cc), CombinedVariant(parts));
  }

  /** Cutting `head + (middle + last)` after `head`, and the last element of a non-empty `last`. */
  lemma HeadTailParts<T>(head: seq<T>, middle: seq<T>, last: seq<T>)
    ensures var vs := head + (middle + last);
      && (vs[..|head|] == head && vs[|head|..] == middle + last)
      && (last != [] ==> vs[|vs| - 1] == last[|last| - 1])
  {
  }

  lemma VariantsSplit(normalized: string, parts: seq<string>)
    ensures var place := PlaceOf(parts);
      var cc := CountryCode(RegionOf(parts));
      Variants(normalized, parts)
      == ((if cc != "" then [Variant(place, cc)] else []) + [Variant(normalized, ""), Variant(place, "")])
         + (Aliases(place, cc) + AdminVariant(place, cc) + CombinedVariant(parts))
  {
  }

  /** At most one alias applies, and each exactly for its city name. */
  lemma AliasesExact(place: string, cc: string)
    ensures |Aliases(place, cc)| <= 1
    ensures Aliases(place, cc) == [Variant("New Delhi", cc)] <==> EqualsIgnoreCase(place, "delhi")
    ensures Aliases(place, cc) == [Variant("Bombay", cc)] <==> EqualsIgnoreCase(place, "mumbai")
    ensures Aliases(place, cc) == [Variant("Madras", cc)] <==> EqualsIgnoreCase(place, "chennai")
  {
    LowerLiteral();
    var d := EqualsIgnoreCase(place, "delhi");
    var m := EqualsIgnoreCase(place, "mumbai");
    var c := EqualsIgnoreCase(place, "chennai");
    assert d ==> !m && !c;
    assert m ==> !c;
    var nd, bo, ma := Variant("New Delhi", cc), Variant("Bombay", cc), Variant("Madras", cc);
    assert nd != bo && nd != ma && bo != ma;
    if d {
      assert Aliases(place, cc) == [nd];
    } else if m {
      assert Aliases(place, cc) == [bo];
    } else if c {
      assert Aliases(place, cc) == [ma];
    } else {
      assert Aliases(place, cc) == [];
    }
  }

  // ---------------------------------------------------------------------
  // The de-duplicated queue (lines 266-270)
  // ---------------------------------------------------------------------

  /** The de-duplication key: the lower-cased query and country code, separated by "|". */
  function Key(v: Variant): string {
    Lower(v.q) + "|" + Lower(v.cc)
  }

  /** The keys of `vs`. */
  function KeySet(vs: seq<Variant>): set<string>
    decreases |vs|
  {
    if vs == [] then {} else KeySet(vs[..|vs| - 1]) + {Key(vs[|vs| - 1])}
  }

  /** A variant with its query and country code trimmed (line 268). */
  function Clean(v: Variant): Variant {
    Variant(JsTrim(v.q), JsTrim(v.cc))
  }

  function CleanAll(vs: seq<Variant>): (r: seq<Variant>)
    ensures |r| == |vs|
  {
    seq(|vs|, i requires 0 <= i < |vs| => Clean(vs[i]))
  }

  /** The variants whose query is not empty, in order (line 269). */
  function NonEmptyQ(vs: seq<Variant>): (r: seq<Variant>)
    ensures |r| <= |vs|
    ensures forall k :: 0 <= k < |r| ==> r[k].q != ""
    decreases |vs|
  {
    if vs == [] then []
    else
      var kept := NonEmptyQ(vs[..|vs| - 1]);
      if vs[|vs| - 1].q == "" then kept else kept + [vs[|vs| - 1]]
  }

  /** Each variant whose key has not been seen in an earlier variant: the first occurrence of every key. */
  function KeepFirst(vs: seq<Variant>): (r: seq<Variant>)
    ensures |r| <= |vs|
    ensures forall k :: 0 <= k < |r| ==> r[k] in vs
    decreases |vs|
  {
    if vs == [] then []
    else
      var init := vs[..|vs| - 1];
      if Key(vs[|vs| - 1]) in KeySet(init) then KeepFirst(init)
      else KeepFirst(init) + [vs[|vs| - 1]]
  }

  /** The queue of lines 266-270. */
  function Queue(variants: seq<Variant>): (r: seq<Variant>)
    ensures |r| <= |variants|
    ensures forall k :: 0 <= k < |r| ==> r[k].q != ""
  {
    KeepFirst(NonEmptyQ(CleanAll(variants)))
  }

  /** `a` is `b` with some elements left out, order kept. */
  predicate IsSubsequence(a: seq<Variant>, b: seq<Variant>)
    decreases |b|
  {
    if a == [] then true
    else if b == [] then false
    else
      (a[|a| - 1] == b[|b| - 1] && IsSubsequence(a[..|a| - 1], b[..|b| - 1]))
      || IsSubsequence(a, b[..|b| - 1])
  }

  /**
    * The loop of lines 266-270: trim, drop the empty queries, and keep a
    * variant only when the `seen` set does not hold its key yet.
    */
  method BuildQueue(variants: seq<Variant>) returns (queue: seq<Variant>)
    ensures queue == Queue(variants)
  {
    var seen: set<string> := {};
    queue := [];
    var i := 0;
    while i < |variants|
      invariant 0 <= i <= |variants|
      invariant queue == KeepFirst(NonEmptyQ(CleanAll(variants[..i])))
      invariant seen == KeySet(NonEmptyQ(CleanAll(variants[..i])))
    {
      var v := Clean(variants[i]);
      BuildStep(variants, i, queue, seen);
      if v.q != "" {
        var k := Key(v);
        if k !in seen {
          queue := queue + [v];
          seen := seen + {k};
        }
      }
      i := i + 1;
    }
    assert variants[..i] == variants;
  }

  /**
    * One turn of the loop: the variant joins the queue, and its key the
    * `seen` set, exactly when its query is non-empty and its key is new.
    */
  lemma BuildStep(variants: seq<Variant>, i: nat, queue: seq<Variant>, seen: set<string>)
    requires i < |variants|
    requires queue == KeepFirst(NonEmptyQ(CleanAll(variants[..i])))
    requires seen == KeySet(NonEmptyQ(CleanAll(variants[..i])))
    ensures var v := Clean(variants[i]);
      var added := v.q != "" && Key(v) !in seen;
      && KeepFirst(NonEmptyQ(CleanAll(variants[..i + 1]))) == (if added then queue + [v] else queue)
      && KeySet(NonEmptyQ(CleanAll(variants[..i + 1]))) == (if added then seen + {Key(v)} else seen)
  {
    var v := Clean(variants[i]);
    var done := NonEmptyQ(CleanAll(variants[..i]));
    var next := NonEmptyQ(CleanAll(variants[..i + 1]));
    CleanStep(variants, i);
    if v.q != "" {
      assert next == done + [v];
      KeepFirstStep(done, v);
      KeySetAppend(done, v);
    } else {
      assert next == done;
    }
  }

  lemma CleanStep(variants: seq<Variant>, i: nat)
    requires i < |variants|
    ensures Clean(variants[i]).q == "" ==> NonEmptyQ(CleanAll(variants[..i + 1])) == NonEmptyQ(CleanAll(variants[..i]))
    ensures Clean(variants[i]).q != "" ==> NonEmptyQ(CleanAll(variants[..i + 1])) == NonEmptyQ(CleanAll(variants[..i])) + [Clean(variants[i])]
  {
    var c := CleanAll(variants[..i + 1]);
    assert c[..i] == CleanAll(variants[..i]);
    assert c[i] == Clean(variants[i]);
  }

  lemma KeepFirstStep(done: seq<Variant>, v: Variant)
    ensures KeepFirst(done + [v]) == if Key(v) in KeySet(done) then KeepFirst(done) else KeepFirst(done) + [v]
  {
    assert (done + [v])[..|done|] == done;
  }

  lemma KeySetAppend(vs: seq<Variant>, v: Variant)
    ensures KeySet(vs + [v]) == KeySet(vs) + {Key(v)}
  {
    assert (vs + [v])[..|vs|] == vs;
  }

  /** A key is in `KeySet(vs)` exactly when some variant of `vs` has it. */
  lemma {:induction false} KeySetMembers(vs: seq<Variant>, x: string)
    ensures x in KeySet(vs) <==> exists j :: 0 <= j < |vs| && Key(vs[j]) == x
    decreases |vs|
  {
    if vs != [] {
      var init := vs[..|vs| - 1];
      KeySetMembers(init, x);
      if x in KeySet(init) {
        var j :| 0 <= j < |init| && Key(init[j]) == x;
        assert vs[j] == init[j];
      }
      if j :| 0 <= j < |vs| - 1 && Key(vs[j]) == x {
        assert init[j] == vs[j];
      }
    }
  }

  lemma KeySetHas(vs: seq<Variant>, v: Variant)
    requires v in vs
    ensures Key(v) in KeySet(vs)
  {
    var j :| 0 <= j < |vs| && vs[j] == v;
    KeySetMembers(vs, Key(v));
  }

  /** The queue keeps exactly the keys of its input. */
  lemma {:induction false} KeepFirstKeys(vs: seq<Variant>)
    ensures KeySet(KeepFirst(vs)) == KeySet(vs)
    decreases |vs|
  {
    if vs != [] {
      var init := vs[..|vs| - 1];
      var last := vs[|vs| - 1];
      KeepFirstKeys(init);
      assert KeySet(vs) == KeySet(init) + {Key(last)};
      if Key(last) !in KeySet(init) {
        KeySetAppend(KeepFirst(init), last);
      }
    }
  }

  /** No two variants in the queue share a key. */
  lemma {:induction false} KeepFirstDistinct(vs: seq<Variant>)
    ensures forall i, j :: 0 <= i < j < |KeepFirst(vs)| ==> Key(KeepFirst(vs)[i]) != Key(KeepFirst(vs)[j])
    decreases |vs|
  {
    if vs != [] {
      var init := vs[..|vs| - 1];
      var last := vs[|vs| - 1];
      KeepFirstDistinct(init);
      if Key(last) !in KeySet(init) {
        KeepFirstKeys(init);
        var r := KeepFirst(vs);
        var p := KeepFirst(init);
        assert r == p + [last];
        forall i, j | 0 <= i < j < |r|
          ensures Key(r[i]) != Key(r[j])
        {
          if j == |r| - 1 {
            assert r[i] == p[i] && r[i] in p;
            KeySetHas(p, r[i]);
          } else {
            assert r[i] == p[i] && r[j] == p[j];
          }
        }
      }
    }
  }

  /** The queue is the input with some variants left out, order kept. */
  lemma {:induction false} KeepFirstSubsequence(vs: seq<Variant>)
    ensures IsSubsequence(KeepFirst(vs), vs)
    decreases |vs|
  {
    if vs != [] {
      var init := vs[..|vs| - 1];
      KeepFirstSubsequence(init);
      var x := vs[|vs| - 1];
      var r := KeepFirst(vs);
      if Key(x) in KeySet(init) {
        assert r == KeepFirst(init);
        SubsequenceExtend(r, init, x);
        assert init + [x] == vs;
      } else {
        assert r == KeepFirst(init) + [x];
        assert r[..|r| - 1] == KeepFirst(init) && r[|r| - 1] == x;
        assert IsSubsequence(r[..|r| - 1], vs[..|vs| - 1]);
      }
    }
  }

  lemma {:induction false} SubsequenceExtend(a: seq<Variant>, b: seq<Variant>, x: Variant)
    requires IsSubsequence(a, b)
    ensures IsSubsequence(a, b + [x])
  {
    assert (b + [x])[..|b|] == b;
  }

  /** The first variant is always kept, in front. */
  lemma {:induction false} KeepFirstHead(vs: seq<Variant>)
    requires vs != []
    ensures KeepFirst(vs) != [] && KeepFirst(vs)[0] == vs[0]
    decreases |vs|
  {
    if |vs| > 1 {
      var init := vs[..|vs| - 1];
      KeepFirstHead(init);
    }
  }

  /** A variant whose key no earlier variant has is in the queue: the first occurrence of a key is the one kept. */
  lemma {:induction false} KeepFirstKeepsFirst(vs: seq<Variant>, i: nat)
    requires i < |vs|
    requires forall j :: 0 <= j < i ==> Key(vs[j]) != Key(vs[i])
    ensures vs[i] in KeepFirst(vs)
    decreases |vs|
  {
    var init := vs[..|vs| - 1];
    if i < |vs| - 1 {
      KeepFirstKeepsFirst(init, i);
    } else {
      KeySetMembers(init, Key(vs[i]));
    }
  }

  lemma {:induction false} NonEmptyQKeeps(vs: seq<Variant>, i: nat)
    requires i < |vs| && vs[i].q != ""
    ensures vs[i] in NonEmptyQ(vs)
    decreases |vs|
  {
    if i < |vs| - 1 {
      NonEmptyQKeeps(vs[..|vs| - 1], i);
    }
  }

  lemma {:induction false} NonEmptyQHead(vs: seq<Variant>)
    requires vs != [] && vs[0].q != ""
    ensures NonEmptyQ(vs) != [] && NonEmptyQ(vs)[0] == vs[0]
    decreases |vs|
  {
    if |vs| > 1 {
      NonEmptyQHead(vs[..|vs| - 1]);
    }
  }

  /**
    * The queue: every query non-empty, keys pairwise distinct, an
    * order-preserving subsequence of the trimmed variants, and it holds the
    * key of every trimmed non-empty variant.
    */
  lemma QueueProperties(variants: seq<Variant>)
    ensures var queue := Queue(variants);
      && (forall k :: 0 <= k < |queue| ==> queue[k].q != "")
      && (forall i, j :: 0 <= i < j < |queue| ==> Key(queue[i]) != Key(queue[j]))
      && IsSubsequence(queue, NonEmptyQ(CleanAll(variants)))
      && KeySet(queue) == KeySet(NonEmptyQ(CleanAll(variants)))
  {
    var ne := NonEmptyQ(CleanAll(variants));
    KeepFirstDistinct(ne);
    KeepFirstSubsequence(ne);
    KeepFirstKeys(ne);
    KeepFirstQ(ne);
  }

  lemma {:induction false} KeepFirstQ(vs: seq<Variant>)
    requires forall k :: 0 <= k < |vs| ==> vs[k].q != ""
    ensures forall k :: 0 <= k < |KeepFirst(vs)| ==> KeepFirst(vs)[k].q != ""
    decreases |vs|
  {
    if vs != [] {
      KeepFirstQ(vs[..|vs| - 1]);
    }
  }

  /** A variant that is already trimmed and non-empty reaches the queue, unless an earlier one has its key. */
  lemma QueueKeepsFirst(variants: seq<Variant>, i: nat)
    requires i < |variants| && Clean(variants[i]) == variants[i] && variants[i].q != ""
    ensures Key(variants[i]) in KeySet(Queue(variants))
  {
    var ne := NonEmptyQ(CleanAll(variants));
    NonEmptyQKeeps(CleanAll(variants), i);
    KeySetHas(ne, variants[i]);
    KeepFirstKeys(ne);
  }

  lemma TrimmedLetters(s: string)
    requires IsTwoLetters(s) || IsUpperTwoLetters(s)
    ensures JsTrim(s) == s
  {
    TrimOfTrimmed(s, IsJsSpace);
  }

  /**
    * When the trailing segment is a two-letter code, the queue starts with the
    * place qualified by that code, upper-cased (the first variant is never dropped).
    */
  lemma QueueStartsWithCountry(normalized: string, parts: seq<string>)
    requires |parts| >= 2 && IsTwoLetters(parts[|parts| - 1])
    requires parts[0] != "" && IsTrimmed(parts[0], IsJsSpace)
    ensures var queue := Queue(Variants(normalized, parts));
      queue != [] && queue[0] == Variant(parts[0], Upper(parts[|parts| - 1]))
  {
    var cc := CountryCode(RegionOf(parts));
    var vs := Variants(normalized, parts);
    assert vs[0] == Variant(parts[0], cc);
    TrimmedLetters(cc);
    TrimOfTrimmed(parts[0], IsJsSpace);
    var c := CleanAll(vs);
    assert c[0] == vs[0];
    NonEmptyQHead(c);
    KeepFirstHead(NonEmptyQ(c));
  }

  /** A non-blank normalised string always leaves at least one variant to search. */
  lemma QueueNonEmpty(normalized: string, parts: seq<string>)
    requires normalized != [] && IsTrimmed(normalized, IsJsSpace)
    ensures Queue(Variants(normalized, parts)) != []
  {
    var vs := Variants(normalized, parts);
    var cc := CountryCode(RegionOf(parts));
    var i := if cc != "" then 1 else 0;
    assert vs[i] == Variant(normalized, "");
    TrimOfTrimmed(normalized, IsJsSpace);
    assert JsTrim("") == "";
    assert Clean(vs[i]) == vs[i];
    QueueKeepsFirst(vs, i);
  }
}
