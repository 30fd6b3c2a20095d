/**
  The ranking comparison of the NLL bench: a pairwise check that is meant to guarantee that two
  score lists rank the same candidate surfaces alike. Finite scores are modelled as reals.
 */
module Ranking {

  datatype Score = Finite(v: real) | NotFinite

  datatype Verdict = Same(maxDelta: real) | CountMismatch | NonfiniteScore | ScoreDelta | RankChanged

  function Abs(x: real): real { if x < 0.0 then -x else x }

  predicate AllFinite(s: seq<Score>) { forall i :: 0 <= i < |s| ==> s[i].Finite? }

  // ----- Stable sorting -----

  /** `x` comes before `y` in a stable sort by ascending score. */
  predicate Precedes(scores: seq<Score>, x: nat, y: nat)
    requires x < |scores| && y < |scores| && AllFinite(scores)
  {
    scores[x].v < scores[y].v || (scores[x].v == scores[y].v && x < y)
  }

  ghost predicate Distinct(p: seq<nat>) { forall i, j :: 0 <= i < j < |p| ==> p[i] != p[j] }

  predicate InRange(p: seq<nat>, n: nat) { forall i :: 0 <= i < |p| ==> p[i] < n }

  /** The candidate numbers in stable ascending order of score. */
  ghost predicate StableSort(p: seq<nat>, scores: seq<Score>)
    requires AllFinite(scores)
  {
    && Distinct(p) && InRange(p, |scores|) && (forall x: nat :: x < |scores| ==> x in p)
    && forall i, j :: 0 <= i < j < |p| ==> Precedes(scores, p[i], p[j])
  }

  function Pick(surfaces: seq<string>, p: seq<nat>): (r: seq<string>)
    requires InRange(p, |surfaces|)
    ensures |r| == |p| && forall i :: 0 <= i < |p| ==> r[i] == surfaces[p[i]]
  {
    seq(|p|, i requires 0 <= i < |p| => surfaces[p[i]])
  }

  // ----- Orders that agree on differing surfaces -----

  /** `x` stands before `y` in the list. */
  ghost predicate Ahead(p: seq<nat>, x: nat, y: nat) { exists i, j :: 0 <= i < j < |p| && p[i] == x && p[j] == y }

  /** Two lists of the same numbers that order differing surfaces alike. */
  ghost predicate Agree(surfaces: seq<string>, p: seq<nat>, q: seq<nat>)
  {
    && Distinct(p) && Distinct(q) && (forall x :: x in p <==> x in q)
    && InRange(p, |surfaces|) && InRange(q, |surfaces|)
    && forall x: nat, y: nat ::
         Ahead(p, x, y) && x < |surfaces| && y < |surfaces| && surfaces[x] != surfaces[y] ==> Ahead(q, x, y)
  }

  function Without(q: seq<nat>, m: nat): seq<nat> requires m < |q| { q[..m] + q[m + 1..] }

  /** Where an item of the list is once item `m` is gone. */
  function Shift(m: nat, i: nat): nat { if i < m || i == 0 then i else i - 1 }

  lemma {:induction false} WithoutAt(q: seq<nat>, m: nat, i: nat)
    requires m < |q| && i < |q| && i != m
    ensures Shift(m, i) < |Without(q, m)| && Without(q, m)[Shift(m, i)] == q[i]
  {
  }

  lemma {:induction false} AheadKept(q: seq<nat>, m: nat, x: nat, y: nat)
    requires m < |q| && x != q[m] && y != q[m] && Ahead(q, x, y)
    ensures Ahead(Without(q, m), x, y)
  {
    var i, j :| 0 <= i < j < |q| && q[i] == x && q[j] == y;
    WithoutAt(q, m, i);
    WithoutAt(q, m, j);
    assert Shift(m, i) < Shift(m, j);
  }

  lemma {:induction false} AheadFromRest(p: seq<nat>, x: nat, y: nat)
    requires p != [] && Ahead(p[1..], x, y)
    ensures Ahead(p, x, y)
  {
    var i, j :| 0 <= i < j < |p[1..]| && p[1..][i] == x && p[1..][j] == y;
    assert p[i + 1] == x && p[j + 1] == y;
  }

  lemma {:induction false} MembersWithout(q: seq<nat>, m: nat)
    requires m < |q| && Distinct(q)
    ensures forall x :: x in Without(q, m) <==> x in q && x != q[m]
    ensures Distinct(Without(q, m))
  {
    forall x ensures x in Without(q, m) <==> x in q && x != q[m] {
      if x in q && x != q[m] {
        var i :| 0 <= i < |q| && q[i] == x;
        WithoutAt(q, m, i);
      }
    }
  }

  lemma {:induction false} AheadOnce(q: seq<nat>, i: nat, j: nat)
    requires Distinct(q) && i < |q| && j < |q|
    ensures Ahead(q, q[i], q[j]) <==> i < j
  {
  }

  /** Everything before the leader of `p` in `q` shares its surface. */
  lemma {:induction false} LeadersAlike(surfaces: seq<string>, p: seq<nat>, q: seq<nat>, m: nat)
    requires Agree(surfaces, p, q) && p != [] && m < |q| && q[m] == p[0]
    ensures forall i :: 0 <= i < m ==> surfaces[q[i]] == surfaces[p[0]]
  {
    forall i | 0 <= i < m ensures surfaces[q[i]] == surfaces[p[0]] {
      assert q[i] in q;
      var k :| 0 <= k < |p| && p[k] == q[i];
      AheadOnce(q, m, i);
      AheadOnce(p, 0, k);
    }
  }

  lemma {:induction false} AgreeWithout(surfaces: seq<string>, p: seq<nat>, q: seq<nat>, m: nat)
    requires Agree(surfaces, p, q) && p != [] && m < |q| && q[m] == p[0]
    ensures Agree(surfaces, p[1..], Without(q, m))
  {
    var r := Without(q, m);
    MembersWithout(q, m);
    assert forall x :: x in p[1..] <==> x in p && x != p[0];
    forall x: nat, y: nat | Ahead(p[1..], x, y) && x < |surfaces| && y < |surfaces| && surfaces[x] != surfaces[y]
      ensures Ahead(r, x, y)
    {
      AheadFromRest(p, x, y);
      AheadIn(p[1..], x, y);
      AheadKept(q, m, x, y);
    }
  }

  lemma {:induction false} AheadIn(p: seq<nat>, x: nat, y: nat)
    requires Ahead(p, x, y)
    ensures x in p && y in p
  {
  }

  /** Removing one item of a block of equal surfaces at the front removes the front. */
  lemma {:induction false} PickWithout(surfaces: seq<string>, q: seq<nat>, m: nat)
    requires m < |q| && InRange(q, |surfaces|) && forall i :: 0 <= i < m ==> surfaces[q[i]] == surfaces[q[m]]
    ensures InRange(Without(q, m), |surfaces|)
    ensures Pick(surfaces, q) == [surfaces[q[m]]] + Pick(surfaces, Without(q, m))
  {
    var r := Without(q, m);
    var s, t := Pick(surfaces, q), [surfaces[q[m]]] + Pick(surfaces, r);
    forall i | 0 <= i < |q| ensures s[i] == t[i] {
      if i > m { assert r[i - 1] == q[i]; } else if i > 0 { assert r[i - 1] == q[i - 1]; }
    }
  }

  /** Lists that agree on differing surfaces show the same surfaces in the same places. */
  lemma {:induction false} SameSurfaces(surfaces: seq<string>, p: seq<nat>, q: seq<nat>)
    requires Agree(surfaces, p, q)
    ensures Pick(surfaces, p) == Pick(surfaces, q)
    decreases |p|
  {
    hide Agree, Without, Pick;
    SameMembers(surfaces, p, q);
    if p != [] {
      assert p[0] in q;
      var m :| 0 <= m < |q| && q[m] == p[0];
      LeadersAlike(surfaces, p, q, m);
      AgreeWithout(surfaces, p, q, m);
      PickWithout(surfaces, q, m);
      SameSurfaces(surfaces, p[1..], Without(q, m));
      PickCons(surfaces, p);
    }
  }

  lemma {:induction false} PickCons(surfaces: seq<string>, p: seq<nat>)
    requires InRange(p, |surfaces|) && p != []
    ensures InRange(p[1..], |surfaces|) && Pick(surfaces, p) == [surfaces[p[0]]] + Pick(surfaces, p[1..])
  {
  }

  lemma {:induction false} SameMembers(surfaces: seq<string>, p: seq<nat>, q: seq<nat>)
    requires Agree(surfaces, p, q)
    ensures (forall x :: x in p <==> x in q) && InRange(p, |surfaces|) && InRange(q, |surfaces|) &&
            (p == [] ==> q == [])
  {
    assert q != [] ==> q[0] in q;
  }

  // ----- The check -----

  /** The pair test: candidates with differing surfaces compare alike before and after. */
  predicate PairSame(surfaces: seq<string>, before: seq<Score>, after: seq<Score>, i: nat, j: nat)
    requires i < |surfaces| && j < |surfaces| && Comparable(surfaces, before, after)
  {
    surfaces[i] == surfaces[j] || (before[i].v <= before[j].v <==> after[i].v <= after[j].v)
  }

  ghost predicate RanksKept(surfaces: seq<string>, before: seq<Score>, after: seq<Score>)
    requires Comparable(surfaces, before, after)
  {
    forall i, j :: 0 <= i < j < |surfaces| ==> PairSame(surfaces, before, after, i, j)
  }

  predicate Comparable(surfaces: seq<string>, before: seq<Score>, after: seq<Score>)
  {
    |before| == |after| == |surfaces| && AllFinite(before) && AllFinite(after)
  }

  /** `d` is the largest absolute difference of the first `n` scores. */
  ghost predicate MaxDelta(before: seq<Score>, after: seq<Score>, n: nat, d: real)
    requires n <= |before| == |after| && AllFinite(before[..n]) && AllFinite(after[..n])
  {
    d >= 0.0 && (forall i :: 0 <= i < n ==> -d <= before[i].v - after[i].v <= d) &&
    (d == 0.0 || exists i :: 0 <= i < n && (before[i].v - after[i].v == d || after[i].v - before[i].v == d))
  }

  method RequireSameNllRanking(surfaces: seq<string>, before: seq<Score>, after: seq<Score>,
                               exact: bool) returns (r: Verdict)
    ensures r == CountMismatch <==> surfaces == [] || |before| != |surfaces| || |after| != |surfaces|
    ensures r == NonfiniteScore ==> |before| == |after| == |surfaces| && !(AllFinite(before) && AllFinite(after))
    ensures r == ScoreDelta ==>
      exact && exists i :: 0 <= i < |before| == |after| && before[i].Finite? && after[i].Finite? &&
                                              Abs(before[i].v - after[i].v) > 0.00001
    ensures r == RankChanged || r == ScoreDelta || r.Same? ==> Comparable(surfaces, before, after)
    ensures r == RankChanged ==> !exact && !RanksKept(surfaces, before, after)
    ensures r.Same? ==> MaxDelta(before, after, |surfaces|, r.maxDelta)
    ensures r.Same? && exact ==> r.maxDelta <= 0.00001
    ensures r.Same? && !exact ==> RanksKept(surfaces, before, after)
  {
    if surfaces == [] || |before| != |surfaces| || |after| != |surfaces| { return CountMismatch; }
    var maxDelta := 0.0;
    var n := |surfaces|;
    for i := 0 to n
      invariant AllFinite(before[..i]) && AllFinite(after[..i]) && MaxDelta(before, after, i, maxDelta)
    {
      if before[i].NotFinite? || after[i].NotFinite? { return NonfiniteScore; }
      assert before[..i + 1] == before[..i] + [before[i]] && after[..i + 1] == after[..i] + [after[i]];
      var delta := Abs(before[i].v - after[i].v);
      if delta > maxDelta { maxDelta := delta; }
    }
    assert before[..n] == before && after[..n] == after;
    if exact && maxDelta > 0.00001 { return ScoreDelta; }
    if exact { return Same(maxDelta); }
    for i := 0 to n
      invariant forall a, b :: 0 <= a < i && a < b < n ==> PairSame(surfaces, before, after, a, b)
    {
      for j := i + 1 to n
        invariant forall b :: i < b < j ==> PairSame(surfaces, before, after, i, b)
      {
        if !PairSame(surfaces, before, after, i, j) { return RankChanged; }
      }
    }
    return Same(maxDelta);
  }

  /** Position in a stable sort is precedence. */
  lemma {:induction false} AheadIsPrecedes(p: seq<nat>, scores: seq<Score>, x: nat, y: nat)
    requires AllFinite(scores) && StableSort(p, scores) && x < |scores| && y < |scores| && x != y
    ensures Ahead(p, x, y) <==> Precedes(scores, x, y)
  {
    assert x in p && y in p;
    var i :| 0 <= i < |p| && p[i] == x;
    var j :| 0 <= j < |p| && p[j] == y;
    AheadOnce(p, i, j);
  }

  /** An accepted comparison: sorting by either score list shows the same surfaces in the same order. */
  lemma {:induction false} AcceptedMeansSameOrder(surfaces: seq<string>, before: seq<Score>, after: seq<Score>,
                                                  p: seq<nat>, q: seq<nat>)
    requires Comparable(surfaces, before, after) && RanksKept(surfaces, before, after)
    requires StableSort(p, before) && StableSort(q, after)
    ensures Pick(surfaces, p) == Pick(surfaces, q)
  {
    forall x: nat, y: nat | Ahead(p, x, y) && x < |surfaces| && y < |surfaces| && surfaces[x] != surfaces[y]
      ensures Ahead(q, x, y)
    {
      AheadIsPrecedes(p, before, x, y);
      AheadIsPrecedes(q, after, x, y);
      assert x < y ==> PairSame(surfaces, before, after, x, y);
      assert y < x ==> PairSame(surfaces, before, after, y, x);
    }
    SameSurfaces(surfaces, p, q);
  }

  /** With distinct surfaces the check is exact: equal orders are accepted. */
  lemma {:induction false} DistinctSameOrderAccepted(surfaces: seq<string>, before: seq<Score>, after: seq<Score>,
                                                     p: seq<nat>, q: seq<nat>)
    requires Comparable(surfaces, before, after)
    requires forall i, j :: 0 <= i < j < |surfaces| ==> surfaces[i] != surfaces[j]
    requires StableSort(p, before) && StableSort(q, after) && Pick(surfaces, p) == Pick(surfaces, q)
    ensures RanksKept(surfaces, before, after)
  {
    forall i | 0 <= i < |p| ensures p[i] == q[i] {
      assert Pick(surfaces, p)[i] == Pick(surfaces, q)[i] && p[i] in p && q[i] in q;
    }
    assert p == q;
    forall i, j | 0 <= i < j < |surfaces| ensures PairSame(surfaces, before, after, i, j) {
      AheadIsPrecedes(p, before, i, j);
      AheadIsPrecedes(q, after, i, j);
    }
  }

  lemma {:induction false} SortedThree(p: seq<nat>, scores: seq<Score>)
    requires |p| == |scores| == 3 && AllFinite(scores) && InRange(p, 3)
    requires p[0] != p[1] && p[1] != p[2] && p[0] != p[2]
    requires scores[p[0]].v < scores[p[1]].v < scores[p[2]].v
    ensures StableSort(p, scores)
  {
    assert p[0] in p && p[1] in p && p[2] in p;
  }

  /** With repeated surfaces it is stricter than needed: equal orders that it rejects. */
  lemma {:induction false} RepeatedSurfacesRejected(surfaces: seq<string>, before: seq<Score>, after: seq<Score>)
    requires surfaces == ["A", "B", "A"]
    requires before == [Finite(1.0), Finite(2.0), Finite(3.0)] && after == [Finite(3.0), Finite(2.0), Finite(1.0)]
    ensures Comparable(surfaces, before, after) && !RanksKept(surfaces, before, after)
    ensures StableSort([0, 1, 2], before) && StableSort([2, 1, 0], after)
    ensures Pick(surfaces, [0, 1, 2]) == Pick(surfaces, [2, 1, 0])
  {
    assert surfaces[0] == "A" && surfaces[1] == "B" && surfaces[2] == "A" && "A"[0] != "B"[0];
    assert !PairSame(surfaces, before, after, 0, 1);
    SortedThree([0, 1, 2], before);
    SortedThree([2, 1, 0], after);
  }

  // ----- Exactly when equal orders are accepted -----

  ghost predicate AllDistinct(surfaces: seq<string>)
  {
    forall i, j :: 0 <= i < j < |surfaces| ==> surfaces[i] != surfaces[j]
  }

  ghost predicate AllEqual(surfaces: seq<string>)
  {
    forall i, j :: 0 <= i < j < |surfaces| ==> surfaces[i] == surfaces[j]
  }

  /** If sorting by either score list shows the same surfaces, the check accepts. */
  ghost predicate EqualOrdersAccepted(surfaces: seq<string>, before: seq<Score>, after: seq<Score>, p: seq<nat>,
                                      q: seq<nat>)
  {
    (Comparable(surfaces, before, after) && StableSort(p, before) && StableSort(q, after) &&
     Pick(surfaces, p) == Pick(surfaces, q)) ==> RanksKept(surfaces, before, after)
  }

  /** The numbers below `n` other than three, ascending. */
  function Others(n: nat, i: nat, j: nat, k: nat): (r: seq<nat>)
    ensures forall a :: 0 <= a < |r| ==> r[a] < n && r[a] != i && r[a] != j && r[a] != k
    ensures forall a, b :: 0 <= a < b < |r| ==> r[a] < r[b]
    ensures forall x: nat :: x < n && x != i && x != j && x != k ==> x in r
  {
    if n == 0 then []
    else Others(n - 1, i, j, k) + if n - 1 == i || n - 1 == j || n - 1 == k then [] else [n - 1]
  }

  /** Scores that put `i`, `k`, `j` first, in that order, and tie all others after them. */
  function Trio(n: nat, i: nat, k: nat, j: nat): (r: seq<Score>)
    ensures |r| == n && AllFinite(r)
  {
    seq(n, x requires 0 <= x < n => Finite(if x == i then 1.0 else if x == k then 2.0 else if x == j then 3.0 else 4.0))
  }

  function TrioOrder(n: nat, i: nat, k: nat, j: nat): seq<nat> { [i, k, j] + Others(n, i, j, k) }

  lemma {:induction false} TrioSorted(n: nat, i: nat, k: nat, j: nat)
    requires i < n && j < n && k < n && i != j && j != k && i != k
    ensures StableSort(TrioOrder(n, i, k, j), Trio(n, i, k, j))
  {
    hide Precedes, Others;
    var p, scores := TrioOrder(n, i, k, j), Trio(n, i, k, j);
    TrioPlaces(n, i, k, j);
    forall a, b | 0 <= a < b < |p| ensures p[a] != p[b] && Precedes(scores, p[a], p[b]) { TrioPair(n, i, k, j, a, b); }
    forall x: nat | x < n ensures x in p { TrioMember(n, i, k, j, x); }
  }

  lemma {:induction false} TrioPlaces(n: nat, i: nat, k: nat, j: nat)
    requires i < n && j < n && k < n
    ensures var p, rest := TrioOrder(n, i, k, j), Others(n, i, j, k);
            |p| == 3 + |rest| && p[0] == i && p[1] == k && p[2] == j && InRange(p, n) &&
            forall a :: 3 <= a < |p| ==> p[a] == rest[a - 3]
  {
    hide Others;
  }

  lemma {:induction false} TrioPair(n: nat, i: nat, k: nat, j: nat, a: nat, b: nat)
    requires i < n && j < n && k < n && i != j && j != k && i != k && a < b < |TrioOrder(n, i, k, j)|
    ensures var p := TrioOrder(n, i, k, j);
            p[a] < n && p[b] < n && p[a] != p[b] && Precedes(Trio(n, i, k, j), p[a], p[b])
  {
    hide Others, TrioOrder;
    TrioPlaces(n, i, k, j);
    var p, rest := TrioOrder(n, i, k, j), Others(n, i, j, k);
    if a >= 3 { assert rest[a - 3] < rest[b - 3]; }
    if b >= 3 { assert rest[b - 3] != i && rest[b - 3] != j && rest[b - 3] != k; }
  }

  lemma {:induction false} TrioMember(n: nat, i: nat, k: nat, j: nat, x: nat)
    requires i < n && j < n && k < n && x < n
    ensures x in TrioOrder(n, i, k, j)
  {
    hide Others, TrioOrder;
    TrioPlaces(n, i, k, j);
    var p, rest := TrioOrder(n, i, k, j), Others(n, i, j, k);
    assert p[0] == i && p[1] == k && p[2] == j;
    if x != i && x != j && x != k {
      assert x in rest;
      var a :| 0 <= a < |rest| && rest[a] == x;
      assert p[a + 3] == x;
    }
  }

  lemma {:induction false} SameOthers(n: nat, i: nat, j: nat, k: nat)
    ensures Others(n, i, j, k) == Others(n, j, i, k)
  {
    if n > 0 { SameOthers(n - 1, i, j, k); }
  }

  /** Two equal surfaces on either side of another can swap places without showing. */
  lemma {:induction false} MixedIsInexact(surfaces: seq<string>, i: nat, j: nat, k: nat)
    requires i < |surfaces| && j < |surfaces| && k < |surfaces| && i != j
    requires surfaces[i] == surfaces[j] && surfaces[k] != surfaces[i]
    ensures var n := |surfaces|;
            !EqualOrdersAccepted(surfaces, Trio(n, i, k, j), Trio(n, j, k, i),
                                 TrioOrder(n, i, k, j), TrioOrder(n, j, k, i))
  {
    var n := |surfaces|;
    var before, after, p, q := Trio(n, i, k, j), Trio(n, j, k, i), TrioOrder(n, i, k, j), TrioOrder(n, j, k, i);
    TrioSorted(n, i, k, j);
    TrioSorted(n, j, k, i);
    SameOthers(n, i, j, k);
    TrioPlaces(n, i, k, j);
    TrioPlaces(n, j, k, i);
    hide Others, TrioOrder, StableSort;
    assert Pick(surfaces, p) == Pick(surfaces, q);
    assert if i < k then !PairSame(surfaces, before, after, i, k) else !PairSame(surfaces, before, after, k, i);
  }

  lemma {:induction false} MixedHasTrio(surfaces: seq<string>) returns (i: nat, j: nat, k: nat)
    requires !AllDistinct(surfaces) && !AllEqual(surfaces)
    ensures i < |surfaces| && j < |surfaces| && k < |surfaces| && i != j
    ensures surfaces[i] == surfaces[j] && surfaces[k] != surfaces[i]
  {
    i, j :| 0 <= i < j < |surfaces| && surfaces[i] == surfaces[j];
    var a: nat, b: nat :| a < b < |surfaces| && surfaces[a] != surfaces[b];
    k := if surfaces[a] != surfaces[i] then a else b;
  }

  /** Equal orders are always accepted if and only if the surfaces are all distinct or all equal. */
  lemma {:induction false} EqualOrdersAcceptedExactly(surfaces: seq<string>)
    ensures (forall before, after, p, q :: EqualOrdersAccepted(surfaces, before, after, p, q)) <==>
      AllDistinct(surfaces) || AllEqual(surfaces)
  {
    hide Comparable, StableSort, RanksKept, InRange;
    if AllDistinct(surfaces) || AllEqual(surfaces) {
      forall before, after, p, q
        ensures EqualOrdersAccepted(surfaces, before, after, p, q)
      {
        UniformIsExact(surfaces, before, after, p, q);
      }
    } else {
      var i, j, k := MixedHasTrio(surfaces);
      MixedIsInexact(surfaces, i, j, k);
    }
  }

  lemma {:induction false} UniformIsExact(surfaces: seq<string>, before: seq<Score>, after: seq<Score>, p: seq<nat>,
                                          q: seq<nat>)
    requires AllDistinct(surfaces) || AllEqual(surfaces)
    ensures EqualOrdersAccepted(surfaces, before, after, p, q)
  {
    if Comparable(surfaces, before, after) && StableSort(p, before) && StableSort(q, after) &&
       Pick(surfaces, p) == Pick(surfaces, q) {
      if AllDistinct(surfaces) { DistinctSameOrderAccepted(surfaces, before, after, p, q); }
    }
  }

  /** For any surfaces: a comparison is accepted if and only if both sorts order differing surfaces alike. */
  lemma {:induction false} AcceptedExactly(surfaces: seq<string>, before: seq<Score>, after: seq<Score>, p: seq<nat>,
                                           q: seq<nat>)
    requires Comparable(surfaces, before, after) && StableSort(p, before) && StableSort(q, after)
    ensures RanksKept(surfaces, before, after) <==> forall x: nat, y: nat :: OrderedAlike(surfaces, p, q, x, y)
  {
    hide Ahead, StableSort;
    forall x: nat, y: nat | x < |surfaces| && y < |surfaces| && surfaces[x] != surfaces[y]
      ensures OrderedAlike(surfaces, p, q, x, y) <==> (Precedes(before, x, y) <==> Precedes(after, x, y))
    {
      AheadIsPrecedes(p, before, x, y);
      AheadIsPrecedes(q, after, x, y);
    }
    if RanksKept(surfaces, before, after) {
      forall x: nat, y: nat ensures OrderedAlike(surfaces, p, q, x, y) {
        if x < |surfaces| && y < |surfaces| && surfaces[x] != surfaces[y] {
          assert if x < y then PairSame(surfaces, before, after, x, y) else PairSame(surfaces, before, after, y, x);
        }
      }
    }
    if forall x: nat, y: nat :: OrderedAlike(surfaces, p, q, x, y) {
      forall i, j | 0 <= i < j < |surfaces| ensures PairSame(surfaces, before, after, i, j) {
        assert OrderedAlike(surfaces, p, q, i, j);
      }
    }
  }

  /** Two candidates with differing surfaces stand the same way round in both lists. */
  ghost predicate OrderedAlike(surfaces: seq<string>, p: seq<nat>, q: seq<nat>, x: nat, y: nat)
  {
    x < |surfaces| && y < |surfaces| && surfaces[x] != surfaces[y] ==> (Ahead(p, x, y) <==> Ahead(q, x, y))
  }
}
