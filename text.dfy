/**
  * String primitives shared by the browser code (static/css/js/main.js) and the
  * recommendation service (api.py): character classes, trimming, ASCII case
  * mapping, and JavaScript's String.prototype.split / Array.prototype.join.
  */
module Text {

  /** Characters matched by `\s` in a JavaScript regular expression; the same set is removed by `trim()`. */
  predicate IsJsSpace(c: char) {
    || c == ' ' || c == '\t' || c == '\n' || c == '\r' || c == '\U{B}' || c == '\U{C}'
    || c == '\U{A0}' || c == '\U{1680}' || ('\U{2000}' <= c <= '\U{200A}')
    || c == '\U{2028}' || c == '\U{2029}' || c == '\U{202F}' || c == '\U{205F}'
    || c == '\U{3000}' || c == '\U{FEFF}'
  }

  /** Characters removed by Python's `str.strip()` with no argument (those for which `str.isspace()` holds). */
  predicate IsPySpace(c: char) {
    || c == ' ' || c == '\t' || c == '\n' || c == '\r' || c == '\U{B}' || c == '\U{C}'
    || ('\U{1C}' <= c <= '\U{1F}') || c == '\U{85}'
    || c == '\U{A0}' || c == '\U{1680}' || ('\U{2000}' <= c <= '\U{200A}')
    || c == '\U{2028}' || c == '\U{2029}' || c == '\U{202F}' || c == '\U{205F}'
    || c == '\U{3000}'
  }

  predicate IsAsciiLetter(c: char) {
    'A' <= c <= 'Z' || 'a' <= c <= 'z'
  }

  /** `\w` of a JavaScript regular expression without the `u` flag; `\b` sits between a word and a non-word character. */
  predicate IsWordChar(c: char) {
    IsAsciiLetter(c) || '0' <= c <= '9' || c == '_'
  }

  function LowerChar(c: char): char {
    if 'A' <= c <= 'Z' then (c as int + 32) as char else c
  }

  function UpperChar(c: char): char {
    if 'a' <= c <= 'z' then (c as int - 32) as char else c
  }

  function Lower(s: string): (r: string)
    ensures |r| == |s|
  {
    seq(|s|, i requires 0 <= i < |s| => LowerChar(s[i]))
  }

  function Upper(s: string): (r: string)
    ensures |r| == |s|
  {
    seq(|s|, i requires 0 <= i < |s| => UpperChar(s[i]))
  }

  /** Equality after ASCII case folding: what a regular expression `^word$` with the `i` flag tests. */
  predicate EqualsIgnoreCase(s: string, t: string) {
    Lower(s) == Lower(t)
  }

  /** Exactly two ASCII letters, in either case. */
  predicate IsTwoLetters(s: string) {
    |s| == 2 && IsAsciiLetter(s[0]) && IsAsciiLetter(s[1])
  }

  /** Number of leading characters of `s` that satisfy `ws`. */
  function LeadingCount(s: string, ws: char -> bool): (n: nat)
    ensures n <= |s|
    ensures forall i :: 0 <= i < n ==> ws(s[i])
    ensures n == |s| || !ws(s[n])
    decreases |s|
  {
    if s != [] && ws(s[0]) then 1 + LeadingCount(s[1..], ws) else 0
  }

  /** Number of trailing characters of `s` that satisfy `ws`. */
  function TrailingCount(s: string, ws: char -> bool): (n: nat)
    ensures n <= |s|
    ensures forall i :: |s| - n <= i < |s| ==> ws(s[i])
    ensures n == |s| || !ws(s[|s| - 1 - n])
    decreases |s|
  {
    if s != [] && ws(s[|s| - 1]) then 1 + TrailingCount(s[..|s| - 1], ws) else 0
  }

  predicate IsTrimmed(s: string, ws: char -> bool) {
    s == [] || (!ws(s[0]) && !ws(s[|s| - 1]))
  }

  /**
    * Removes the characters satisfying `ws` at both ends: the result is the
    * infix of `s` that starts after the leading run of such characters, and
    * everything after it is such a character too.
    */
  function Trim(s: string, ws: char -> bool): (r: string)
    ensures IsTrimmed(r, ws)
    ensures |r| <= |s|
  {
    var a := LeadingCount(s, ws);
    var rest := s[a..];
    var b := TrailingCount(rest, ws);
    assert b < |rest| ==> !ws(rest[|rest| - 1 - b]);
    rest[..|rest| - b]
  }

  /** Where the trimmed text sits in `s`: after the leading run, followed only by characters satisfying `ws`. */
  lemma TrimInfix(s: string, ws: char -> bool)
    ensures var r := Trim(s, ws);
      var a := LeadingCount(s, ws);
      && a + |r| <= |s|
      && r == s[a..a + |r|]
      && (forall i :: a + |r| <= i < |s| ==> ws(s[i]))
  {
    var a := LeadingCount(s, ws);
    var rest := s[a..];
    var b := TrailingCount(rest, ws);
    assert |Trim(s, ws)| == |rest| - b;
  }

  /** JavaScript string trimming: whitespace removed at both ends. */
  function JsTrim(s: string): string {
    Trim(s, IsJsSpace)
  }

  /** Python's `str.strip()`. */
  function PyStrip(s: string): string {
    Trim(s, IsPySpace)
  }

  lemma TrimOfTrimmed(s: string, ws: char -> bool)
    requires IsTrimmed(s, ws)
    ensures Trim(s, ws) == s
  {
    assert LeadingCount(s, ws) == 0;
    assert s[0..] == s;
  }

  /** Trimming removes only characters at the ends, so it keeps out any character `s` does not contain. */
  lemma TrimKeepsOut(s: string, ws: char -> bool, c: char)
    requires c !in s
    ensures c !in Trim(s, ws)
  {
  }

  /** `Array.prototype.join(sep)`; `String(array)` is `Join(array, ",")`. */
  function Join(parts: seq<string>, sep: string): string
    decreases |parts|
  {
    if |parts| == 0 then ""
    else if |parts| == 1 then parts[0]
    else parts[0] + sep + Join(parts[1..], sep)
  }

  /** `String.prototype.split(sep)` for a one-character separator: the pieces between separators, at least one. */
  function Split(s: string, sep: char): (r: seq<string>)
    ensures |r| >= 1
    ensures forall k :: 0 <= k < |r| ==> sep !in r[k]
    decreases |s|
  {
    if s == [] then [""]
    else
      var rest := Split(s[1..], sep);
      if s[0] == sep then [""] + rest
      else [[s[0]] + rest[0]] + rest[1..]
  }

  /** Joining the pieces of a split with the separator gives back the string. */
  lemma {:induction false} JoinSplit(s: string, sep: char)
    ensures Join(Split(s, sep), [sep]) == s
    decreases |s|
  {
    if s != [] {
      var rest := Split(s[1..], sep);
      JoinSplit(s[1..], sep);
      if s[0] == sep {
        assert Split(s, sep) == [""] + rest;
        assert ([""] + rest)[1..] == rest;
      } else {
        var r := Split(s, sep);
        assert r == [[s[0]] + rest[0]] + rest[1..];
        if |rest| == 1 {
          assert s == [s[0]] + s[1..];
        } else {
          assert r[1..] == rest[1..];
          assert Join(rest, [sep]) == rest[0] + [sep] + Join(rest[1..], [sep]);
          assert s == [s[0]] + s[1..];
        }
      }
    }
  }

  lemma {:induction false} SplitFree(x: string, sep: char)
    requires sep !in x
    ensures Split(x, sep) == [x]
    decreases |x|
  {
    if x != [] {
      SplitFree(x[1..], sep);
      assert [x[0]] + x[1..] == x;
    }
  }

  lemma {:induction false} SplitAtSeparator(x: string, sep: char, y: string)
    requires sep !in x
    ensures Split(x + [sep] + y, sep) == [x] + Split(y, sep)
    decreases |x|
  {
    var s := x + [sep] + y;
    if x == [] {
      assert s[1..] == y;
    } else {
      assert s[1..] == x[1..] + [sep] + y;
      SplitAtSeparator(x[1..], sep, y);
      assert [x[0]] + x[1..] == x;
    }
  }

  /** Splitting the join of separator-free pieces gives back the pieces. */
  lemma {:induction false} SplitJoin(parts: seq<string>, sep: char)
    requires |parts| >= 1
    requires forall k :: 0 <= k < |parts| ==> sep !in parts[k]
    ensures Split(Join(parts, [sep]), sep) == parts
    decreases |parts|
  {
    if |parts| == 1 {
      SplitFree(parts[0], sep);
    } else {
      SplitJoin(parts[1..], sep);
      SplitAtSeparator(parts[0], sep, Join(parts[1..], [sep]));
      assert [parts[0]] + parts[1..] == parts;
    }
  }

  /** Each piece trimmed, and the empty ones dropped. */
  function TrimmedNonEmpty(pieces: seq<string>): (r: seq<string>)
    ensures |r| <= |pieces|
    ensures forall k :: 0 <= k < |r| ==> r[k] != "" && IsTrimmed(r[k], IsJsSpace)
    decreases |pieces|
  {
    if pieces == [] then []
    else
      var t := JsTrim(pieces[0]);
      var rest := TrimmedNonEmpty(pieces[1..]);
      if t == "" then rest else [t] + rest
  }

  lemma {:induction false} TrimmedNonEmptyKeepsOut(pieces: seq<string>, c: char)
    requires forall k :: 0 <= k < |pieces| ==> c !in pieces[k]
    ensures forall k :: 0 <= k < |TrimmedNonEmpty(pieces)| ==> c !in TrimmedNonEmpty(pieces)[k]
    decreases |pieces|
  {
    if pieces != [] {
      TrimKeepsOut(pieces[0], IsJsSpace, c);
      TrimmedNonEmptyKeepsOut(pieces[1..], c);
    }
  }

  /**
    * Splitting on commas, trimming each piece and dropping the blank ones
    * (static/css/js/main.js:249 and :169):
    * the comma-separated segments of `s`, trimmed, with the blank ones dropped.
    */
  function Segments(s: string): (r: seq<string>)
    ensures forall k :: 0 <= k < |r| ==> r[k] != "" && IsTrimmed(r[k], IsJsSpace) && ',' !in r[k]
  {
    TrimmedNonEmptyKeepsOut(Split(s, ','), ',');
    TrimmedNonEmpty(Split(s, ','))
  }

  /** A leading space makes no difference to `trim`. */
  lemma JsTrimLeadingSpace(z: string)
    ensures JsTrim(" " + z) == JsTrim(z)
  {
    var s := " " + z;
    assert s[1..] == z;
    assert LeadingCount(s, IsJsSpace) == 1 + LeadingCount(z, IsJsSpace);
    assert s[LeadingCount(s, IsJsSpace)..] == z[LeadingCount(z, IsJsSpace)..];
  }

  lemma SplitNonSeparator(c: char, y: string, sep: char)
    requires c != sep
    ensures Split([c] + y, sep) == [[c] + Split(y, sep)[0]] + Split(y, sep)[1..]
  {
    assert ([c] + y)[1..] == y;
  }

  lemma TrimmedNonEmptyCons(a: string, rest: seq<string>)
    ensures TrimmedNonEmpty([a] + rest)
            == (if JsTrim(a) == "" then [] else [JsTrim(a)]) + TrimmedNonEmpty(rest)
  {
    assert ([a] + rest)[1..] == rest;
  }

  /** A space after a comma does not change the segments that follow it. */
  lemma SegmentsAfterSpace(y: string)
    ensures TrimmedNonEmpty(Split(" " + y, ',')) == TrimmedNonEmpty(Split(y, ','))
  {
    var zs := Split(y, ',');
    SplitNonSeparator(' ', y, ',');
    JsTrimLeadingSpace(zs[0]);
    TrimmedNonEmptyCons(" " + zs[0], zs[1..]);
    TrimmedNonEmptyCons(zs[0], zs[1..]);
    assert zs == [zs[0]] + zs[1..];
  }

  /** A trimmed segment without commas, then ", ", adds exactly that segment in front. */
  lemma SegmentsCons(p0: string, y: string)
    requires p0 != [] && IsTrimmed(p0, IsJsSpace) && ',' !in p0
    ensures Segments(p0 + ", " + y) == [p0] + Segments(y)
  {
    TrimOfTrimmed(p0, IsJsSpace);
    assert p0 + ", " + y == p0 + [','] + (" " + y);
    SplitAtSeparator(p0, ',', " " + y);
    SegmentsAfterSpace(y);
    TrimmedNonEmptyCons(p0, Split(" " + y, ','));
  }

  /**
    * Segments written out with ", " between them split back into the same
    * segments: the inverse of `Segments` on lists it can produce.
    */
  lemma {:induction false} SegmentsOfJoin(parts: seq<string>)
    requires |parts| >= 1
    requires forall k :: 0 <= k < |parts| ==> parts[k] != "" && IsTrimmed(parts[k], IsJsSpace) && ',' !in parts[k]
    ensures Segments(Join(parts, ", ")) == parts
    decreases |parts|
  {
    var p0 := parts[0];
    if |parts| == 1 {
      TrimOfTrimmed(p0, IsJsSpace);
      SplitFree(p0, ',');
      TrimmedNonEmptyCons(p0, []);
    } else {
      var rest := parts[1..];
      SegmentsOfJoin(rest);
      assert Join(parts, ", ") == p0 + ", " + Join(rest, ", ");
      SegmentsCons(p0, Join(rest, ", "));
      assert parts == [p0] + rest;
    }
  }

  /** `s` and `t` have the same length and whitespace at the same positions. */
  predicate SameSpaces(s: string, t: string, ws: char -> bool) {
    |s| == |t| && forall i :: 0 <= i < |s| ==> ws(s[i]) == ws(t[i])
  }

  lemma SameSpacesTail(s: string, t: string, ws: char -> bool)
    requires SameSpaces(s, t, ws) && s != []
    ensures SameSpaces(s[1..], t[1..], ws)
  {
    forall i | 0 <= i < |s| - 1
      ensures ws(s[1..][i]) == ws(t[1..][i])
    {
      assert s[1..][i] == s[i + 1] && t[1..][i] == t[i + 1];
    }
  }

  lemma SameSpacesInit(s: string, t: string, ws: char -> bool)
    requires SameSpaces(s, t, ws) && s != []
    ensures SameSpaces(s[..|s| - 1], t[..|t| - 1], ws)
  {
    var s', t' := s[..|s| - 1], t[..|t| - 1];
    forall i | 0 <= i < |s'|
      ensures ws(s'[i]) == ws(t'[i])
    {
      assert s'[i] == s[i] && t'[i] == t[i];
    }
  }

  lemma {:induction false} SameSpacesLeading(s: string, t: string, ws: char -> bool)
    requires SameSpaces(s, t, ws)
    ensures LeadingCount(s, ws) == LeadingCount(t, ws)
    decreases |s|
  {
    if s != [] {
      assert ws(s[0]) == ws(t[0]);
      if ws(s[0]) {
        SameSpacesTail(s, t, ws);
        SameSpacesLeading(s[1..], t[1..], ws);
      }
    }
  }

  lemma {:induction false} SameSpacesTrailing(s: string, t: string, ws: char -> bool)
    requires SameSpaces(s, t, ws)
    ensures TrailingCount(s, ws) == TrailingCount(t, ws)
    decreases |s|
  {
    if s != [] {
      assert ws(s[|s| - 1]) == ws(t[|t| - 1]);
      if ws(s[|s| - 1]) {
        SameSpacesInit(s, t, ws);
        SameSpacesTrailing(s[..|s| - 1], t[..|t| - 1], ws);
      }
    }
  }

  /** Trimming cuts strings with whitespace at the same positions at the same places. */
  lemma SameSpacesTrim(s: string, t: string, ws: char -> bool)
    requires SameSpaces(s, t, ws)
    ensures LeadingCount(s, ws) == LeadingCount(t, ws)
    ensures |Trim(s, ws)| == |Trim(t, ws)|
  {
    SameSpacesLeading(s, t, ws);
    var a := LeadingCount(s, ws);
    SameSpacesDrop(s, t, ws, a);
    SameSpacesTrailing(s[a..], t[a..], ws);
    TrimLength(s, ws);
    TrimLength(t, ws);
  }

  lemma SameSpacesDrop(s: string, t: string, ws: char -> bool, a: nat)
    requires SameSpaces(s, t, ws) && a <= |s|
    ensures SameSpaces(s[a..], t[a..], ws)
  {
    forall i | 0 <= i < |s| - a
      ensures ws(s[a..][i]) == ws(t[a..][i])
    {
      assert s[a..][i] == s[a + i] && t[a..][i] == t[a + i];
    }
  }

  lemma TrimLength(s: string, ws: char -> bool)
    ensures var a := LeadingCount(s, ws);
      |Trim(s, ws)| == |s| - a - TrailingCount(s[a..], ws)
  {
  }

  /** ASCII case mapping leaves whitespace alone, so it commutes with Python's `strip()`. */
  lemma LowerSameSpaces(s: string)
    ensures SameSpaces(Lower(s), s, IsPySpace)
  {
    forall i | 0 <= i < |s|
      ensures IsPySpace(Lower(s)[i]) == IsPySpace(s[i])
    {
      assert Lower(s)[i] == LowerChar(s[i]);
    }
  }

  lemma UpperSameSpaces(s: string)
    ensures SameSpaces(Upper(s), s, IsPySpace)
  {
    forall i | 0 <= i < |s|
      ensures IsPySpace(Upper(s)[i]) == IsPySpace(s[i])
    {
      assert Upper(s)[i] == UpperChar(s[i]);
    }
  }

  lemma LowerSlice(s: string, i: nat, j: nat)
    requires i <= j <= |s|
    ensures Lower(s)[i..j] == Lower(s[i..j])
  {
    assert forall k :: 0 <= k < j - i ==> Lower(s)[i..j][k] == Lower(s[i..j])[k];
  }

  lemma UpperSlice(s: string, i: nat, j: nat)
    requires i <= j <= |s|
    ensures Upper(s)[i..j] == Upper(s[i..j])
  {
    assert forall k :: 0 <= k < j - i ==> Upper(s)[i..j][k] == Upper(s[i..j])[k];
  }

  lemma PyStripLower(s: string)
    ensures PyStrip(Lower(s)) == Lower(PyStrip(s))
  {
    LowerSameSpaces(s);
    SameSpacesTrim(Lower(s), s, IsPySpace);
    TrimInfix(s, IsPySpace);
    TrimInfix(Lower(s), IsPySpace);
    var a := LeadingCount(s, IsPySpace);
    LowerSlice(s, a, a + |PyStrip(s)|);
  }

  lemma PyStripUpper(s: string)
    ensures PyStrip(Upper(s)) == Upper(PyStrip(s))
  {
    UpperSameSpaces(s);
    SameSpacesTrim(Upper(s), s, IsPySpace);
    TrimInfix(s, IsPySpace);
    TrimInfix(Upper(s), IsPySpace);
    var a := LeadingCount(s, IsPySpace);
    UpperSlice(s, a, a + |PyStrip(s)|);
  }
}
