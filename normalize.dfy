/**
  * Whitespace and comma normalisation of a place name, static/css/js/main.js:248:
  * every comma with the whitespace around it becomes ", ", every run of two or
  * more whitespace characters becomes one space, and the ends are trimmed.
  * Each regular-expression replacement is written out as a left-to-right scan
  * that tries the pattern at each position, as a global replace does.
  */
module Normalization {
  import opened Text

  /** No two adjacent whitespace characters. */
  predicate NoDoubleSpace(s: string) {
    forall i :: 0 <= i < |s| - 1 ==> !(IsJsSpace(s[i]) && IsJsSpace(s[i + 1]))
  }

  /** Every comma that is not the last character is followed by a plain space. */
  predicate CommaThenSpace(s: string) {
    forall i :: 0 <= i < |s| - 1 && s[i] == ',' ==> s[i + 1] == ' '
  }

  /**
    * A whitespace character right before a comma is the space of an earlier
    * ", ": the character before it is a comma. The comma rewrite turns two
    * adjacent commas into ", , ", so this is as close to "no whitespace before
    * a comma" as the result comes (see `DoubleCommaKeepsSpace`).
    */
  predicate SpaceBeforeCommaAfterComma(s: string) {
    forall i :: 0 < i < |s| - 1 && IsJsSpace(s[i]) && s[i + 1] == ',' ==> s[i - 1] == ','
  }

  /** `s` does not start with a whitespace character followed by a comma. */
  predicate NoSpaceCommaStart(s: string) {
    !(|s| >= 2 && IsJsSpace(s[0]) && s[1] == ',')
  }

  /** The shape every normalised place name has. */
  predicate IsNormalized(s: string) {
    && IsTrimmed(s, IsJsSpace) && NoDoubleSpace(s) && CommaThenSpace(s)
    && SpaceBeforeCommaAfterComma(s)
  }

  /** The non-whitespace characters of `s`, in order. */
  function Visible(s: string): string
    decreases |s|
  {
    if s == [] then [] else (if IsJsSpace(s[0]) then [] else [s[0]]) + Visible(s[1..])
  }

  /**
    * Length of the match of `\s*,\s*` at the start of `s` (whitespace, a comma,
    * whitespace, each run as long as possible), or 0 when there is none.
    */
  function CommaMatch(s: string): (m: nat)
    ensures m <= |s|
    ensures s != [] && s[0] == ',' ==> m > 0
  {
    var k := LeadingCount(s, IsJsSpace);
    if k < |s| && s[k] == ',' then k + 1 + LeadingCount(s[k + 1..], IsJsSpace) else 0
  }

  // A comma with the whitespace around it becomes ", ".
  function CommaSpace(s: string): string
    decreases |s|
  {
    if s == [] then []
    else if CommaMatch(s) > 0 then ", " + CommaSpace(s[CommaMatch(s)..])
    else [s[0]] + CommaSpace(s[1..])
  }

  /** A run of two or more whitespace characters becomes one space. */
  function CollapseSpaces(s: string): string
    decreases |s|
  {
    if |s| >= 2 && IsJsSpace(s[0]) && IsJsSpace(s[1]) then
      " " + CollapseSpaces(s[LeadingCount(s, IsJsSpace)..])
    else if s == [] then []
    else [s[0]] + CollapseSpaces(s[1..])
  }

  /**
    * The normalised place name. It is trimmed, has no run of two or more
    * whitespace characters and writes every inner comma as ", "; a non-blank
    * trimmed input never normalises to the empty string.
    */
  function Normalize(raw: string): (r: string)
    ensures IsNormalized(r)
    ensures raw != [] && !IsJsSpace(raw[0]) ==> r != []
  {
    NormalizeShape(raw);
    JsTrim(CollapseSpaces(CommaSpace(raw)))
  }

  /** Normalising adds, drops and reorders no character other than whitespace. */
  lemma NormalizeVisible(raw: string)
    ensures Visible(Normalize(raw)) == Visible(raw)
  {
    var c := CommaSpace(raw);
    CommaSpaceVisible(raw);
    CollapseVisible(c);
    TrimVisible(CollapseSpaces(c));
  }

  /**
    * A text already in normal form is left as it is: in particular a single
    * whitespace character between two words is kept, not removed.
    */
  lemma NormalizeFixed(s: string)
    requires IsNormalized(s)
    ensures Normalize(s) == s
  {
    if s == [] {
      assert CommaSpace(s) == [] && CollapseSpaces([]) == [];
      TrimOfTrimmed([], IsJsSpace);
    } else {
      CommaSpaceOfNormal(s);
      if s[|s| - 1] == ',' {
        var c := s + " ";
        NoDoubleAppend(s, " ");
        CollapseOfNoDouble(c);
        TrimTrailingSpace(s);
      } else {
        CollapseOfNoDouble(s);
        TrimOfTrimmed(s, IsJsSpace);
      }
    }
  }

  /** Two adjacent commas keep a space between them: ",," becomes ", ,". */
  lemma DoubleCommaKeepsSpace()
    ensures Normalize(",,") == ", ,"
  {
    DoubleCommaSpace();
    DoubleCommaCollapse();
    DoubleCommaTrim();
  }

  lemma DoubleCommaSpace()
    ensures CommaSpace(",,") == ", , "
  {
    assert CommaMatch(",,") == 1;
    assert ",,"[1..] == ",";
    assert CommaMatch(",") == 1;
  }

  lemma DoubleCommaCollapse()
    ensures CollapseSpaces(", , ") == ", , "
  {
    assert ", , "[1..] == " , ";
    assert " , "[1..] == ", ";
    assert ", "[1..] == " ";
    assert " "[1..] == "";
  }

  lemma DoubleCommaTrim()
    ensures JsTrim(", , ") == ", ,"
  {
    var s := ", , ";
    assert LeadingCount(s, IsJsSpace) == 0;
    assert TrailingCount(s, IsJsSpace) == 1 by {
      assert s[..3] == ", ,";
    }
  }

  lemma NormalizeShape(raw: string)
    ensures IsNormalized(JsTrim(CollapseSpaces(CommaSpace(raw))))
    ensures raw != [] && !IsJsSpace(raw[0]) ==> JsTrim(CollapseSpaces(CommaSpace(raw))) != []
  {
    var c := CommaSpace(raw);
    var d := CollapseSpaces(c);
    CommaSpaceCommas(raw);
    CollapseCommas(c);
    CollapseNoDouble(c);
    CommaSpaceGuard(raw);
    CollapseGuard(c);
    TrimKeepsShape(d);
    if raw != [] && !IsJsSpace(raw[0]) {
      CommaSpaceFirst(raw);
      CollapseFirst(c);
      TrimStartsSolid(d);
    }
  }

  /** Facts about the first character of `CollapseSpaces(t)`. */
  lemma CollapseFirst(t: string)
    requires t != []
    ensures CollapseSpaces(t) != []
    ensures !IsJsSpace(t[0]) ==> CollapseSpaces(t)[0] == t[0]
    ensures t[0] == ' ' ==> CollapseSpaces(t)[0] == ' '
  {
  }

  lemma CommaSpaceFirst(t: string)
    requires t != [] && !IsJsSpace(t[0])
    ensures CommaSpace(t) != [] && !IsJsSpace(CommaSpace(t)[0])
  {
  }

  lemma CommasAppend(a: string, b: string)
    requires CommaThenSpace(a) && CommaThenSpace(b)
    requires a != [] && a[|a| - 1] == ',' && b != [] ==> b[0] == ' '
    ensures CommaThenSpace(a + b)
  {
    var r := a + b;
    forall i | 0 <= i < |r| - 1 && r[i] == ','
      ensures r[i + 1] == ' '
    {
      if i >= |a| {
        assert r[i] == b[i - |a|] && r[i + 1] == b[i + 1 - |a|];
      } else if i < |a| - 1 {
        assert r[i] == a[i] && r[i + 1] == a[i + 1];
      }
    }
  }

  lemma NoDoubleAppend(a: string, b: string)
    requires NoDoubleSpace(a) && NoDoubleSpace(b)
    requires a != [] && b != [] ==> !(IsJsSpace(a[|a| - 1]) && IsJsSpace(b[0]))
    ensures NoDoubleSpace(a + b)
  {
    var r := a + b;
    forall i | 0 <= i < |r| - 1
      ensures !(IsJsSpace(r[i]) && IsJsSpace(r[i + 1]))
    {
      if i >= |a| {
        assert r[i] == b[i - |a|] && r[i + 1] == b[i + 1 - |a|];
      } else if i < |a| - 1 {
        assert r[i] == a[i] && r[i + 1] == a[i + 1];
      }
    }
  }

  lemma {:induction false} CommaSpaceCommas(s: string)
    ensures CommaThenSpace(CommaSpace(s))
    decreases |s|
  {
    if s != [] {
      var m := CommaMatch(s);
      if m > 0 {
        CommaSpaceCommas(s[m..]);
        CommasAppend(", ", CommaSpace(s[m..]));
      } else {
        CommaSpaceCommas(s[1..]);
        CommasAppend([s[0]], CommaSpace(s[1..]));
      }
    }
  }

  lemma {:induction false} CollapseCommas(s: string)
    requires CommaThenSpace(s)
    ensures CommaThenSpace(CollapseSpaces(s))
    decreases |s|
  {
    if |s| >= 2 && IsJsSpace(s[0]) && IsJsSpace(s[1]) {
      var u := s[LeadingCount(s, IsJsSpace)..];
      CollapseCommas(u);
      CommasAppend(" ", CollapseSpaces(u));
    } else if s != [] {
      var u := s[1..];
      CollapseCommas(u);
      if u != [] {
        CollapseFirst(u);
      }
      CommasAppend([s[0]], CollapseSpaces(u));
    }
  }

  lemma {:induction false} CollapseNoDouble(s: string)
    ensures NoDoubleSpace(CollapseSpaces(s))
    decreases |s|
  {
    if |s| >= 2 && IsJsSpace(s[0]) && IsJsSpace(s[1]) {
      var u := s[LeadingCount(s, IsJsSpace)..];
      CollapseNoDouble(u);
      if u != [] {
        CollapseFirst(u);
      }
      NoDoubleAppend(" ", CollapseSpaces(u));
    } else if s != [] {
      var u := s[1..];
      CollapseNoDouble(u);
      if u != [] {
        CollapseFirst(u);
      }
      NoDoubleAppend([s[0]], CollapseSpaces(u));
    }
  }

  /** Trimming keeps the shape properties, since its result is an infix. */
  lemma TrimKeepsShape(s: string)
    requires NoDoubleSpace(s) && CommaThenSpace(s) && SpaceBeforeCommaAfterComma(s)
    ensures NoDoubleSpace(JsTrim(s)) && CommaThenSpace(JsTrim(s))
    ensures SpaceBeforeCommaAfterComma(JsTrim(s))
  {
    var r := JsTrim(s);
    var a := LeadingCount(s, IsJsSpace);
    assert forall i :: 0 <= i < |r| ==> r[i] == s[a + i];
  }

  lemma TrimStartsSolid(s: string)
    requires s != [] && !IsJsSpace(s[0])
    ensures JsTrim(s) != []
  {
    assert LeadingCount(s, IsJsSpace) == 0;
  }

  // ---------------------------------------------------------------------
  // Whitespace before a comma
  // ---------------------------------------------------------------------

  lemma GuardAppend(a: string, b: string)
    requires SpaceBeforeCommaAfterComma(a) && SpaceBeforeCommaAfterComma(b)
    requires |a| >= 2 && b != [] && IsJsSpace(a[|a| - 1]) && b[0] == ',' ==> a[|a| - 2] == ','
    requires a != [] && !NoSpaceCommaStart(b) ==> a[|a| - 1] == ','
    ensures SpaceBeforeCommaAfterComma(a + b)
  {
    var r := a + b;
    forall i | 0 < i < |r| - 1 && IsJsSpace(r[i]) && r[i + 1] == ','
      ensures r[i - 1] == ','
    {
      if i > |a| {
        assert r[i - 1] == b[i - 1 - |a|] && r[i] == b[i - |a|] && r[i + 1] == b[i + 1 - |a|];
      } else if i == |a| {
        assert r[i] == b[0] && r[i + 1] == b[1];
      } else if i == |a| - 1 {
        assert r[i + 1] == b[0];
      } else {
        assert r[i - 1] == a[i - 1] && r[i] == a[i] && r[i + 1] == a[i + 1];
      }
    }
  }

  lemma GuardSuffix(s: string, k: nat)
    requires SpaceBeforeCommaAfterComma(s) && k <= |s|
    ensures SpaceBeforeCommaAfterComma(s[k..])
  {
    var t := s[k..];
    assert forall i :: 0 <= i < |t| ==> t[i] == s[k + i];
  }

  /** A whitespace character without a comma match keeps its successor free of one too. */
  lemma CommaMatchAfterSpace(s: string)
    requires |s| >= 2 && IsJsSpace(s[0]) && CommaMatch(s) == 0
    ensures CommaMatch(s[1..]) == 0
  {
    var k := LeadingCount(s[1..], IsJsSpace);
    assert LeadingCount(s, IsJsSpace) == 1 + k;
    assert k < |s| - 1 ==> s[1..][k] == s[1 + k];
  }

  lemma {:induction false} CommaSpaceGuard(s: string)
    ensures SpaceBeforeCommaAfterComma(CommaSpace(s)) && NoSpaceCommaStart(CommaSpace(s))
    decreases |s|
  {
    if s != [] {
      var m := CommaMatch(s);
      if m > 0 {
        CommaSpaceGuard(s[m..]);
        GuardAppend(", ", CommaSpace(s[m..]));
      } else {
        var t := s[1..];
        CommaSpaceGuard(t);
        if IsJsSpace(s[0]) && t != [] {
          CommaMatchAfterSpace(s);
        }
        GuardAppend([s[0]], CommaSpace(t));
      }
    }
  }

  /** The collapsed text keeps a start without whitespace before a comma. */
  lemma CollapseStartGuard(t: string)
    requires SpaceBeforeCommaAfterComma(t) && NoSpaceCommaStart(t)
    ensures NoSpaceCommaStart(CollapseSpaces(t))
  {
    if |t| >= 2 && IsJsSpace(t[0]) && IsJsSpace(t[1]) {
      var n := LeadingCount(t, IsJsSpace);
      var u := t[n..];
      assert n >= 2 && IsJsSpace(t[n - 1]) && IsJsSpace(t[n - 2]);
      if u != [] {
        CollapseFirst(u);
      }
    } else if |t| >= 2 && IsJsSpace(t[0]) {
      CollapseFirst(t[1..]);
    }
  }

  lemma {:induction false} CollapseGuard(s: string)
    requires SpaceBeforeCommaAfterComma(s)
    ensures SpaceBeforeCommaAfterComma(CollapseSpaces(s))
    decreases |s|
  {
    if |s| >= 2 && IsJsSpace(s[0]) && IsJsSpace(s[1]) {
      var n := LeadingCount(s, IsJsSpace);
      var u := s[n..];
      GuardSuffix(s, n);
      CollapseGuard(u);
      if u != [] {
        CollapseFirst(u);
      }
      GuardAppend(" ", CollapseSpaces(u));
    } else if s != [] {
      var t := s[1..];
      GuardSuffix(s, 1);
      CollapseGuard(t);
      if s[0] != ',' {
        assert |s| >= 3 ==> s[1] == t[0] && s[2] == t[1];
        CollapseStartGuard(t);
      }
      GuardAppend([s[0]], CollapseSpaces(t));
    }
  }

  // ---------------------------------------------------------------------
  // The non-whitespace characters
  // ---------------------------------------------------------------------

  lemma {:induction false} VisibleAppend(a: string, b: string)
    ensures Visible(a + b) == Visible(a) + Visible(b)
    decreases |a|
  {
    if a != [] {
      var h := if IsJsSpace(a[0]) then [] else [a[0]];
      calc {
        Visible(a + b);
      == { assert (a + b)[0] == a[0] && (a + b)[1..] == a[1..] + b; }
        h + Visible(a[1..] + b);
      == { VisibleAppend(a[1..], b); }
        h + (Visible(a[1..]) + Visible(b));
      }
    } else {
      assert a + b == b;
    }
  }

  lemma {:induction false} VisibleBlank(s: string)
    requires forall i :: 0 <= i < |s| ==> IsJsSpace(s[i])
    ensures Visible(s) == []
    decreases |s|
  {
    if s != [] {
      VisibleBlank(s[1..]);
    }
  }

  /** Visible(s[..m]) == Visible(s[..k]) + Visible(s[k..m]) for a split point `k`. */
  lemma VisibleSplit(s: string, k: nat)
    requires k <= |s|
    ensures Visible(s) == Visible(s[..k]) + Visible(s[k..])
  {
    assert s == s[..k] + s[k..];
    VisibleAppend(s[..k], s[k..]);
  }

  /** Leading whitespace adds nothing visible. */
  lemma VisibleAfterBlank(s: string, k: nat)
    requires k <= |s| && forall i :: 0 <= i < k ==> IsJsSpace(s[i])
    ensures Visible(s) == Visible(s[k..])
  {
    VisibleSplit(s, k);
    VisibleBlank(s[..k]);
  }

  lemma CommaMatchVisible(s: string)
    requires CommaMatch(s) > 0
    ensures Visible(s) == "," + Visible(s[CommaMatch(s)..])
  {
    var k := LeadingCount(s, IsJsSpace);
    var t := s[k + 1..];
    var n := LeadingCount(t, IsJsSpace);
    VisibleAfterBlank(s, k);
    assert s[k..][0] == ',' && s[k..][1..] == t;
    VisibleAfterBlank(t, n);
    assert t[n..] == s[CommaMatch(s)..];
  }

  lemma {:induction false} CommaSpaceVisible(s: string)
    ensures Visible(CommaSpace(s)) == Visible(s)
    decreases |s|
  {
    if s != [] {
      var m := CommaMatch(s);
      if m > 0 {
        CommaSpaceVisible(s[m..]);
        VisibleAppend(", ", CommaSpace(s[m..]));
        CommaMatchVisible(s);
      } else {
        CommaSpaceVisible(s[1..]);
        VisibleAppend([s[0]], CommaSpace(s[1..]));
      }
    }
  }

  lemma {:induction false} CollapseVisible(s: string)
    ensures Visible(CollapseSpaces(s)) == Visible(s)
    decreases |s|
  {
    if |s| >= 2 && IsJsSpace(s[0]) && IsJsSpace(s[1]) {
      var n := LeadingCount(s, IsJsSpace);
      CollapseVisible(s[n..]);
      VisibleAppend(" ", CollapseSpaces(s[n..]));
      VisibleAfterBlank(s, n);
    } else if s != [] {
      CollapseVisible(s[1..]);
      VisibleAppend([s[0]], CollapseSpaces(s[1..]));
    }
  }

  lemma TrimVisible(s: string)
    ensures Visible(JsTrim(s)) == Visible(s)
  {
    var r := JsTrim(s);
    var a := LeadingCount(s, IsJsSpace);
    TrimInfix(s, IsJsSpace);
    VisibleAfterBlank(s, a);
    var rest := s[a..];
    VisibleSplit(rest, |r|);
    assert rest[..|r|] == r;
    assert forall i :: 0 <= i < |rest| - |r| ==> rest[|r|..][i] == s[a + |r| + i];
    VisibleBlank(rest[|r|..]);
  }

  // ---------------------------------------------------------------------
  // Texts already in normal form
  // ---------------------------------------------------------------------

  /** In a text in normal form a comma matches with the one space after it. */
  lemma CommaMatchAtComma(t: string, i: nat)
    requires NoDoubleSpace(t) && CommaThenSpace(t) && i < |t| && t[i] == ','
    ensures CommaMatch(t[i..]) == if i + 1 == |t| then 1 else 2
  {
    var s := t[i..];
    assert LeadingCount(s, IsJsSpace) == 0;
    if i + 1 < |t| {
      var u := s[1..];
      assert u[0] == t[i + 1] == ' ';
      assert |u| > 1 ==> u[1] == t[i + 2] && !IsJsSpace(t[i + 2]);
      assert LeadingCount(u, IsJsSpace) == 1;
    }
  }

  /** In a text in normal form no comma match starts at a character that is not a comma. */
  lemma CommaMatchAtOther(t: string, i: nat)
    requires NoDoubleSpace(t) && i < |t| && NoSpaceCommaStart(t[i..]) && t[i] != ','
    ensures CommaMatch(t[i..]) == 0
  {
    var s := t[i..];
    assert i + 1 < |t| ==> s[1] == t[i + 1];
    assert IsJsSpace(s[0]) && i + 1 < |t| ==> !IsJsSpace(t[i + 1]);
    var k := LeadingCount(s, IsJsSpace);
    assert k <= 1;
  }

  /** After a character that is not a comma, a normal-form text does not continue with " ,". */
  lemma NoSpaceCommaTail(t: string, i: nat)
    requires SpaceBeforeCommaAfterComma(t) && i < |t| && t[i] != ','
    ensures NoSpaceCommaStart(t[i + 1..])
  {
    assert i + 2 < |t| ==> t[i + 1..][0] == t[i + 1] && t[i + 1..][1] == t[i + 2];
  }

  /** `t` with a space added after a final comma, as the comma rewrite writes it. */
  function FinalCommaSpaced(t: string): string {
    if t != [] && t[|t| - 1] == ',' then t + " " else t
  }

  /** Adding the final space commutes with a prefix when the rest is non-empty. */
  lemma FinalCommaSpacedAppend(p: string, u: string)
    requires u != []
    ensures FinalCommaSpaced(p + u) == p + FinalCommaSpaced(u)
  {
    assert (p + u)[|p + u| - 1] == u[|u| - 1];
    assert p + u + " " == p + (u + " ");
  }

  /**
    * On a text in normal form the comma rewrite changes nothing, except that
    * a final comma gains the space its match writes after it.
    */
  lemma CommaSpaceOfNormal(t: string)
    requires NoDoubleSpace(t) && CommaThenSpace(t) && SpaceBeforeCommaAfterComma(t) && NoSpaceCommaStart(t)
    ensures CommaSpace(t) == if t != [] && t[|t| - 1] == ',' then t + " " else t
  {
    assert t[0..] == t;
    CommaSpaceOfNormalFrom(t, 0);
  }

  /** `CommaSpaceOfNormal` for the suffix of `t` from position `i` on. */
  lemma {:induction false} CommaSpaceOfNormalFrom(t: string, i: nat)
    requires NoDoubleSpace(t) && CommaThenSpace(t) && SpaceBeforeCommaAfterComma(t)
    requires i <= |t| && NoSpaceCommaStart(t[i..])
    ensures CommaSpace(t[i..]) == FinalCommaSpaced(t[i..])
    decreases |t| - i, 1
  {
    if i == |t| {
      assert t[i..] == [];
    } else if t[i] == ',' {
      CommaSpaceOfNormalComma(t, i);
    } else {
      CommaSpaceOfNormalOther(t, i);
    }
  }

  /** The case of `CommaSpaceOfNormalFrom` where a comma stands at position `i`. */
  lemma {:induction false} CommaSpaceOfNormalComma(t: string, i: nat)
    requires NoDoubleSpace(t) && CommaThenSpace(t) && SpaceBeforeCommaAfterComma(t)
    requires i < |t| && t[i] == ','
    ensures CommaSpace(t[i..]) == FinalCommaSpaced(t[i..])
    decreases |t| - i, 0
  {
    var s := t[i..];
    CommaMatchAtComma(t, i);
    if i + 1 == |t| {
      assert s == [','] && s[1..] == [];
      assert CommaSpace(s) == ", " + CommaSpace([]);
    } else {
      var u := t[i + 2..];
      assert s == ", " + u && s[2..] == u;
      assert CommaSpace(s) == ", " + CommaSpace(u);
      assert NoSpaceCommaStart(u) by {
        assert i + 2 < |t| ==> u[0] == t[i + 2] && !IsJsSpace(t[i + 2]);
      }
      CommaSpaceOfNormalFrom(t, i + 2);
      if u == [] {
        assert CommaSpace(u) == [];
      } else {
        FinalCommaSpacedAppend(", ", u);
      }
    }
  }

  /** The case of `CommaSpaceOfNormalFrom` where anything but a comma stands at position `i`. */
  lemma {:induction false} CommaSpaceOfNormalOther(t: string, i: nat)
    requires NoDoubleSpace(t) && CommaThenSpace(t) && SpaceBeforeCommaAfterComma(t)
    requires i < |t| && NoSpaceCommaStart(t[i..]) && t[i] != ','
    ensures CommaSpace(t[i..]) == FinalCommaSpaced(t[i..])
    decreases |t| - i, 0
  {
    var s := t[i..];
    var u := t[i + 1..];
    CommaMatchAtOther(t, i);
    assert s == [t[i]] + u && s[1..] == u;
    assert CommaSpace(s) == [t[i]] + CommaSpace(u);
    NoSpaceCommaTail(t, i);
    CommaSpaceOfNormalFrom(t, i + 1);
    if u == [] {
      assert CommaSpace(u) == [];
    } else {
      FinalCommaSpacedAppend([t[i]], u);
    }
  }

  /** Without two adjacent whitespace characters there is no run to collapse. */
  lemma {:induction false} CollapseOfNoDouble(t: string)
    requires NoDoubleSpace(t)
    ensures CollapseSpaces(t) == t
    decreases |t|
  {
    if t != [] {
      var u := t[1..];
      assert forall i :: 0 <= i < |u| ==> u[i] == t[i + 1];
      CollapseOfNoDouble(u);
      assert t == [t[0]] + u;
    }
  }

  /** Trimming a trimmed text with one space appended gives the text back. */
  lemma TrimTrailingSpace(u: string)
    requires u != [] && IsTrimmed(u, IsJsSpace)
    ensures JsTrim(u + " ") == u
  {
    var s := u + " ";
    var r := JsTrim(s);
    TrimInfix(s, IsJsSpace);
    assert LeadingCount(s, IsJsSpace) == 0;
    assert s[|u| - 1] == u[|u| - 1] && s[|u|] == ' ';
    assert |r| == |u|;
    assert s[..|u|] == u;
  }
}
