/**
  The edit distance of the conversion-quality bench: a two-row dynamic programme, the edit scripts
  it minimises over, and the metric it computes.
 */
module Levenshtein {

  function Min(a: nat, b: nat): nat { if a < b then a else b }

  function Init(s: seq<int>): seq<int> requires s != [] { s[..|s| - 1] }

  function Last(s: seq<int>): int requires s != [] { s[|s| - 1] }

  function Mismatch(x: int, y: int): nat { if x == y then 0 else 1 }

  /** The distance by its recurrence on last elements. */
  function Distance(a: seq<int>, b: seq<int>): (d: nat)
    decreases |a| + |b|
  {
    if a == [] then |b| else if b == [] then |a|
    else Min(Min(Distance(Init(a), b) + 1, Distance(a, Init(b)) + 1),
             Distance(Init(a), Init(b)) + Mismatch(Last(a), Last(b)))
  }

  // ----- The two-row programme -----

  lemma {:induction false} Cell(a: seq<int>, b: seq<int>, i: nat, j: nat)
    requires 0 < i <= |a| && 0 < j <= |b|
    ensures Distance(a[..i], b[..j]) ==
            Min(Min(Distance(a[..i - 1], b[..j]) + 1, Distance(a[..i], b[..j - 1]) + 1),
                Distance(a[..i - 1], b[..j - 1]) + Mismatch(a[i - 1], b[j - 1]))
  {
    assert Init(a[..i]) == a[..i - 1] && Init(b[..j]) == b[..j - 1];
  }

  method LevenshteinDistance(hypothesis: seq<int>, reference: seq<int>) returns (d: nat)
    ensures d == Distance(hypothesis, reference)
  {
    hide Distance, Min;
    var n := |reference|;
    var previous, current := new nat[n + 1](j => j), new nat[n + 1](_ => 0);
    forall j | 0 <= j <= n ensures previous[j] == Distance(hypothesis[..0], reference[..j]) {
      EmptySide(reference[..j]);
      assert hypothesis[..0] == [];
    }
    for row := 1 to |hypothesis| + 1
      invariant previous != current && previous.Length == current.Length == n + 1
      invariant fresh(previous) && fresh(current)
      invariant forall j :: 0 <= j <= n ==> previous[j] == Distance(hypothesis[..row - 1], reference[..j])
    {
      current[0] := row;
      EmptySide(hypothesis[..row]);
      assert reference[..0] == [];
      for column := 1 to n + 1
        invariant forall j :: 0 <= j < column ==> current[j] == Distance(hypothesis[..row], reference[..j])
        invariant forall j :: 0 <= j <= n ==> previous[j] == Distance(hypothesis[..row - 1], reference[..j])
      {
        var substitution := previous[column - 1] + if hypothesis[row - 1] == reference[column - 1] then 0 else 1;
        Cell(hypothesis, reference, row, column);
        current[column] := Min(Min(previous[column] + 1, current[column - 1] + 1), substitution);
      }
      previous, current := current, previous;
    }
    assert hypothesis[..|hypothesis|] == hypothesis && reference[..n] == reference;
    return previous[n];
  }

  lemma {:induction false} EmptySide(s: seq<int>)
    ensures Distance([], s) == |s| && Distance(s, []) == |s|
  {
  }

  // ----- Edit scripts -----

  /** One edit of the hypothesis, from left to right. */
  datatype Edit = Keep | Insert(c: int) | Delete | Substitute(c: int)

  /** Whether a script turns `a` into `b`. */
  predicate Transforms(script: seq<Edit>, a: seq<int>, b: seq<int>)
  {
    if script == [] then a == [] && b == []
    else
      var front := script[..|script| - 1];
      match script[|script| - 1]
      case Keep => a != [] && b != [] && Last(a) == Last(b) && Transforms(front, Init(a), Init(b))
      case Insert(c) => b != [] && Last(b) == c && Transforms(front, a, Init(b))
      case Delete => a != [] && Transforms(front, Init(a), b)
      case Substitute(c) => a != [] && b != [] && Last(b) == c && Transforms(front, Init(a), Init(b))
  }

  /** Every edit but keeping costs one. */
  function Cost(script: seq<Edit>): nat
  {
    if script == [] then 0 else Cost(script[..|script| - 1]) + if script[|script| - 1].Keep? then 0 else 1
  }

  /** No script is cheaper than the distance. */
  lemma {:induction false} LowerBound(script: seq<Edit>, a: seq<int>, b: seq<int>)
    requires Transforms(script, a, b)
    ensures Distance(a, b) <= Cost(script)
  {
    if script != [] {
      var front := script[..|script| - 1];
      match script[|script| - 1]
      case Keep => LowerBound(front, Init(a), Init(b));
      case Insert(c) => LowerBound(front, a, Init(b));
      case Delete => LowerBound(front, Init(a), b);
      case Substitute(c) => LowerBound(front, Init(a), Init(b));
    }
  }

  lemma {:induction false} Extend(script: seq<Edit>, e: Edit)
    ensures (script + [e])[..|script + [e]| - 1] == script &&
            Cost(script + [e]) == Cost(script) + if e.Keep? then 0 else 1
  {
    assert (script + [e])[..|script|] == script;
  }

  /** Some script costs exactly the distance. */
  lemma {:induction false} Attained(a: seq<int>, b: seq<int>) returns (script: seq<Edit>)
    ensures Transforms(script, a, b) && Cost(script) == Distance(a, b)
    decreases |a| + |b|
  {
    var e;
    if a == [] && b == [] {
      script := [];
      return;
    } else if a == [] || (b != [] && Distance(a, b) == Distance(a, Init(b)) + 1) {
      script := Attained(a, Init(b));
      e := Insert(Last(b));
    } else if b == [] || Distance(a, b) == Distance(Init(a), b) + 1 {
      script := Attained(Init(a), b);
      e := Delete;
    } else {
      script := Attained(Init(a), Init(b));
      e := if Last(a) == Last(b) then Keep else Substitute(Last(b));
    }
    Extend(script, e);
    script := script + [e];
  }

  // ----- A metric -----

  lemma {:induction false} Symmetric(a: seq<int>, b: seq<int>)
    ensures Distance(a, b) == Distance(b, a)
    decreases |a| + |b|
  {
    if a != [] && b != [] {
      Symmetric(Init(a), b);
      Symmetric(a, Init(b));
      Symmetric(Init(a), Init(b));
    }
  }

  /** The distance lies between the difference of the lengths and the longer length. */
  lemma {:induction false} Bounds(a: seq<int>, b: seq<int>)
    ensures |a| <= |b| + Distance(a, b) && |b| <= |a| + Distance(a, b)
    ensures Distance(a, b) <= if |a| < |b| then |b| else |a|
    decreases |a| + |b|
  {
    if a != [] && b != [] {
      Bounds(Init(a), b);
      Bounds(a, Init(b));
      Bounds(Init(a), Init(b));
    }
  }

  lemma {:induction false} ZeroIffEqual(a: seq<int>, b: seq<int>)
    ensures Distance(a, b) == 0 <==> a == b
    decreases |a| + |b|
  {
    if a != [] && b != [] {
      ZeroIffEqual(Init(a), Init(b));
      assert a == Init(a) + [Last(a)] && b == Init(b) + [Last(b)];
    }
  }

  lemma {:induction false} DropLeft(a: seq<int>, b: seq<int>)
    requires a != []
    ensures Distance(a, b) <= Distance(Init(a), b) + 1
  {
    if b == [] { EmptySide(Init(a)); }
  }

  lemma {:induction false} DropRight(a: seq<int>, b: seq<int>)
    requires b != []
    ensures Distance(a, b) <= Distance(a, Init(b)) + 1
  {
  }

  lemma {:induction false} Triangle(a: seq<int>, b: seq<int>, c: seq<int>)
    ensures Distance(a, c) <= Distance(a, b) + Distance(b, c)
    decreases |a| + |b| + |c|
  {
    hide Min;
    if b == [] {
      Bounds(a, c);
    } else if a == [] {
      Bounds(b, c);
    } else if c == [] {
      Bounds(a, b);
    } else {
      TriangleStep(a, b, c);
    }
  }

  lemma {:induction false} TriangleStep(a: seq<int>, b: seq<int>, c: seq<int>)
    requires a != [] && b != [] && c != []
    ensures Distance(a, c) <= Distance(a, b) + Distance(b, c)
    decreases |a| + |b| + |c|, 0
  {
    hide Distance, Min;
    LastStep(a, b);
    LastStep(b, c);
    LastStep(a, c);
    Triangle(Init(a), b, c);
    Triangle(a, b, Init(c));
    Triangle(a, Init(b), c);
    Triangle(a, Init(b), Init(c));
    Triangle(Init(a), Init(b), c);
    Triangle(Init(a), Init(b), Init(c));
    DropLeft(a, c);
    DropRight(a, c);
  }

  /** The last step of a cheapest way is a deletion, an insertion, or a kept or substituted element. */
  lemma {:induction false} LastStep(a: seq<int>, b: seq<int>)
    requires a != [] && b != []
    ensures Distance(a, b) == Distance(Init(a), b) + 1 || Distance(a, b) == Distance(a, Init(b)) + 1 ||
            Distance(a, b) == Distance(Init(a), Init(b)) + Mismatch(Last(a), Last(b))
    ensures Distance(a, b) <= Distance(Init(a), b) + 1 && Distance(a, b) <= Distance(a, Init(b)) + 1
    ensures Distance(a, b) <= Distance(Init(a), Init(b)) + Mismatch(Last(a), Last(b))
  {
  }
}
