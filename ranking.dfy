/**
  * Ranking of geocoding candidates in `chooseAndForecast`,
  * static/css/js/main.js:393-394: an in-place sort comparing populations,
  * larger first, followed by the first five. The sort is stable, so
  * candidates of equal population keep the geocoder's order.
  */
module Ranking {
  import opened Wrappers
  import opened Geocode

  /** Largest population first. */
  predicate SortedByPop(s: seq<Candidate>) {
    forall i, j :: 0 <= i < j < |s| ==> s[i].pop >= s[j].pop
  }

  /**
    * Places `x` into the sorted `s` after every element whose population is
    * at least its own: the step of a stable insertion sort, taken from the right.
    */
  function InsertLast(s: seq<Candidate>, x: Candidate): seq<Candidate>
    decreases |s|
  {
    if s == [] || s[|s| - 1].pop >= x.pop then s + [x]
    else InsertLast(s[..|s| - 1], x) + [s[|s| - 1]]
  }

  /** The order the stable descending sort produces. */
  function SortByPop(s: seq<Candidate>): seq<Candidate>
    decreases |s|
  {
    if s == [] then [] else InsertLast(SortByPop(s[..|s| - 1]), s[|s| - 1])
  }

  /** The elements of `s` with population `p`, in order. */
  function WithPop(s: seq<Candidate>, p: real): seq<Candidate>
    decreases |s|
  {
    if s == [] then []
    else WithPop(s[..|s| - 1], p) + (if s[|s| - 1].pop == p then [s[|s| - 1]] else [])
  }

  /** Every element of `s` has population at least `b`. */
  predicate AllAtLeast(s: seq<Candidate>, b: real) {
    forall i :: 0 <= i < |s| ==> s[i].pop >= b
  }

  lemma {:induction false} InsertLastCount(s: seq<Candidate>, x: Candidate)
    ensures |InsertLast(s, x)| == |s| + 1
    ensures multiset(InsertLast(s, x)) == multiset(s) + multiset{x}
    decreases |s|
  {
    if !(s == [] || s[|s| - 1].pop >= x.pop) {
      var init := s[..|s| - 1];
      InsertLastCount(init, x);
      assert s == init + [s[|s| - 1]];
    }
  }

  lemma {:induction false} InsertLastAtLeast(s: seq<Candidate>, x: Candidate, b: real)
    requires AllAtLeast(s, b) && x.pop >= b
    ensures AllAtLeast(InsertLast(s, x), b)
    decreases |s|
  {
    if !(s == [] || s[|s| - 1].pop >= x.pop) {
      var init := s[..|s| - 1];
      InsertLastAtLeast(init, x, b);
    }
  }

  lemma {:induction false} InsertLastSorted(s: seq<Candidate>, x: Candidate)
    requires SortedByPop(s)
    ensures SortedByPop(InsertLast(s, x))
    decreases |s|
  {
    if s == [] || s[|s| - 1].pop >= x.pop {
      var r := s + [x];
      forall i, j | 0 <= i < j < |r|
        ensures r[i].pop >= r[j].pop
      {
        if j == |r| - 1 && i < |s| && i < |s| - 1 {
          assert r[i].pop >= s[|s| - 1].pop;
        }
      }
    } else {
      var init := s[..|s| - 1];
      var last := s[|s| - 1];
      InsertLastSorted(init, x);
      var t := InsertLast(init, x);
      assert AllAtLeast(init, last.pop);
      InsertLastAtLeast(init, x, last.pop);
      var r := t + [last];
      forall i, j | 0 <= i < j < |r|
        ensures r[i].pop >= r[j].pop
      {
        if j < |r| - 1 {
          assert r[i] == t[i] && r[j] == t[j];
        }
      }
    }
  }

  lemma {:induction false} InsertLastWithPop(s: seq<Candidate>, x: Candidate, p: real)
    ensures WithPop(InsertLast(s, x), p) == WithPop(s, p) + (if x.pop == p then [x] else [])
    decreases |s|
  {
    if s == [] || s[|s| - 1].pop >= x.pop {
      var r := s + [x];
      assert r[..|r| - 1] == s;
    } else {
      var init := s[..|s| - 1];
      var last := s[|s| - 1];
      InsertLastWithPop(init, x, p);
      var t := InsertLast(init, x);
      var r := t + [last];
      assert r[..|r| - 1] == t;
      assert WithPop(r, p) == WithPop(t, p) + (if last.pop == p then [last] else []);
    }
  }

  /** The sort is a permutation that puts the largest population first. */
  lemma {:induction false} SortByPopSortedPermutation(s: seq<Candidate>)
    ensures |SortByPop(s)| == |s|
    ensures SortedByPop(SortByPop(s))
    ensures multiset(SortByPop(s)) == multiset(s)
    decreases |s|
  {
    if s != [] {
      var init := s[..|s| - 1];
      SortByPopSortedPermutation(init);
      InsertLastCount(SortByPop(init), s[|s| - 1]);
      InsertLastSorted(SortByPop(init), s[|s| - 1]);
      assert s == init + [s[|s| - 1]];
    }
  }

  /** Stability: for every population value, the candidates with that value keep their relative order. */
  lemma {:induction false} SortByPopStable(s: seq<Candidate>, p: real)
    ensures WithPop(SortByPop(s), p) == WithPop(s, p)
    decreases |s|
  {
    if s != [] {
      var init := s[..|s| - 1];
      SortByPopStable(init, p);
      InsertLastWithPop(SortByPop(init), s[|s| - 1], p);
    }
  }

  /** A list already in order is left as it is. */
  lemma {:induction false} SortByPopOfSorted(s: seq<Candidate>)
    requires SortedByPop(s)
    ensures SortByPop(s) == s
    decreases |s|
  {
    if s != [] {
      var init := s[..|s| - 1];
      assert SortedByPop(init);
      SortByPopOfSorted(init);
      assert s == init + [s[|s| - 1]];
    }
  }

  /** When the last element may move left past `s[j..]`, the insertion is done on `s[..j]` and `s[j..]` follows. */
  lemma {:induction false} InsertLastPast(s: seq<Candidate>, x: Candidate, j: nat)
    requires j <= |s|
    requires forall k :: j <= k < |s| ==> s[k].pop < x.pop
    ensures InsertLast(s, x) == InsertLast(s[..j], x) + s[j..]
    decreases |s| - j
  {
    if j < |s| {
      var init := s[..|s| - 1];
      InsertLastPast(init, x, j);
      assert init[..j] == s[..j];
      assert init[j..] + [s[|s| - 1]] == s[j..];
    } else {
      assert s[..j] == s;
    }
  }

  /**
    * The in-place sort of line 393 as an insertion sort: the array ends up in
    * the order `SortByPop` describes.
    */
  method SortCandidates(a: array<Candidate>)
    modifies a
    ensures a[..] == SortByPop(old(a[..]))
  {
    ghost var original := a[..];
    var i := 0;
    while i < a.Length
      invariant 0 <= i <= a.Length
      invariant a[..i] == SortByPop(original[..i])
      invariant forall k :: i <= k < a.Length ==> a[k] == original[k]
    {
      InsertIntoSorted(a, i);
      assert original[..i + 1][..i] == original[..i];
      i := i + 1;
    }
    assert a[..] == a[..a.Length] && original == original[..a.Length];
  }

  /**
    * The inner loop of the insertion sort: `a[i]` moves left past every
    * element of smaller population in the sorted prefix `a[..i]`.
    */
  method InsertIntoSorted(a: array<Candidate>, i: nat)
    requires i < a.Length
    modifies a
    ensures a[..i + 1] == InsertLast(old(a[..i]), old(a[i]))
    ensures forall k :: i < k < a.Length ==> a[k] == old(a[k])
  {
    var x := a[i];
    ghost var sorted := a[..i];
    assert sorted == old(a[..i]) && x == old(a[i]);
    var j := i;
    while j > 0 && a[j - 1].pop < x.pop
      invariant 0 <= j <= i
      invariant forall k :: 0 <= k < j ==> a[k] == sorted[k]
      invariant forall k :: j < k <= i ==> a[k] == sorted[k - 1]
      invariant forall k :: i < k < a.Length ==> a[k] == old(a[k])
      invariant forall k :: j <= k < i ==> sorted[k].pop < x.pop
    {
      a[j] := a[j - 1];
      j := j - 1;
    }
    assert j == 0 || sorted[j - 1].pop >= x.pop;
    a[j] := x;
    InsertLastAt(sorted, x, j, a[..i + 1]);
  }

  /**
    * `x` goes in at `j` when everything before `j` has population at least
    * its own and everything from `j` on less: `t` is `s` with `x` placed at `j`.
    */
  lemma InsertLastAt(s: seq<Candidate>, x: Candidate, j: nat, t: seq<Candidate>)
    requires j <= |s| && |t| == |s| + 1
    requires j == 0 || s[j - 1].pop >= x.pop
    requires forall k :: j <= k < |s| ==> s[k].pop < x.pop
    requires forall k :: 0 <= k < j ==> t[k] == s[k]
    requires t[j] == x
    requires forall k :: j < k < |t| ==> t[k] == s[k - 1]
    ensures InsertLast(s, x) == t
  {
    InsertLastPast(s, x, j);
    assert j == 0 || s[..j][j - 1].pop >= x.pop;
    assert InsertLast(s[..j], x) == s[..j] + [x];
    assert t == s[..j] + [x] + s[j..];
  }

  /** `slice(0, 5)`: the first five, or all of them when there are fewer. */
  function Top(ranked: seq<Candidate>): (top: seq<Candidate>)
    ensures |top| == Min(5, |ranked|)
    ensures top == ranked[..|top|]
  {
    ranked[..Min(5, |ranked|)]
  }

  /**
    * What is shown is the top of the ranking: no candidate left out has a
    * larger population than one that is kept, and every kept candidate came
    * from the geocoder.
    */
  lemma TopOfRanking(candidates: seq<Candidate>)
    ensures var ranked := SortByPop(candidates);
      && |Top(ranked)| == Min(5, |candidates|)
      && (forall c :: c in Top(ranked) ==> c in candidates)
      && (forall i, j :: 0 <= i < |Top(ranked)| <= j < |ranked| ==> ranked[i].pop >= ranked[j].pop)
  {
    SortByPopSortedPermutation(candidates);
    var ranked := SortByPop(candidates);
    forall c | c in Top(ranked)
      ensures c in candidates
    {
      assert c in multiset(ranked);
    }
  }
}
