/**
  `aliases`: the capped closure of a reading under three symmetric kana rewritings.
  Its meaning is given by a canonical form in which every rewritable spelling is replaced by
  the one-character side of its pair.
 */
module Aliases {
  import opened Utf8
  import opened Sorting
  import Sequences

  const VU: scalar := 0x3094
  const SMALL_A: scalar := 0x3041
  const BA: scalar := 0x3070
  const DU: scalar := 0x3065
  const ZU: scalar := 0x305A
  const DI: scalar := 0x3062
  const JI: scalar := 0x3058

  /** The pairs, each in both directions, in the order they are tried. */
  function Rules(): seq<(Text, Text)>
  {
    [([VU, SMALL_A], [BA]), ([BA], [VU, SMALL_A]), ([DU], [ZU]), ([ZU], [DU]), ([DI], [JI]), ([JI], [DI])]
  }

  // ----- Canonical form -----

  function Fold(c: scalar): scalar { if c == DU then ZU else if c == DI then JI else c }

  predicate StartsWithVa(t: Text) { |t| >= 2 && t[0] == VU && t[1] == SMALL_A }

  function Canon(t: Text): Text
  {
    if t == [] then []
    else if StartsWithVa(t) then [BA] + Canon(t[2..])
    else [Fold(t[0])] + Canon(t[1..])
  }

  predicate IsSite(c: scalar) { c == BA || c == ZU || c == JI }

  /** The two spellings of a canonical character (the same one twice when it has only one). */
  function Other(c: scalar): Text
  {
    if c == BA then [VU, SMALL_A] else if c == ZU then [DU] else if c == JI then [DI] else [c]
  }

  /** Rewrite sites of a canonical text. */
  function Sites(c: Text): nat { if c == [] then 0 else (if IsSite(c[0]) then 1 else 0) + Sites(c[1..]) }

  function Pow2(n: nat): nat { if n == 0 then 1 else 2 * Pow2(n - 1) }

  /** Every way to spell a canonical text. */
  function Spellings(c: Text): (r: set<Text>)
  {
    if c == [] then {[]}
    else (set v | v in Spellings(c[1..]) :: [c[0]] + v) + (set v | v in Spellings(c[1..]) :: Other(c[0]) + v)
  }

  // ----- Spellings are the texts with that canonical form -----

  lemma {:induction false} SpellingHasCanon(c: Text, t: Text)
    requires t in Spellings(c) && Canon(c) == c
    ensures Canon(t) == c
  {
    if c != [] {
      var v := SpellingSplits(c, t);
      hide Spellings;
      CanonTail(c);
      SpellingHasCanon(c[1..], v);
      Sequences.HeadAndTail(c);
      if t == [c[0]] + v { SameHead(c[0], v); } else { OtherHead(c[0], v); }
    }
  }

  lemma {:induction false} SpellingSplits(c: Text, t: Text) returns (v: Text)
    requires c != [] && t in Spellings(c)
    ensures v in Spellings(c[1..]) && (t == [c[0]] + v || t == Other(c[0]) + v)
  {
    v :| v in Spellings(c[1..]) && (t == [c[0]] + v || t == Other(c[0]) + v);
  }

  /** A character in front that does not start a pair only folds. */
  lemma {:induction false} SameHead(c: scalar, v: Text)
    requires Fold(c) == c && !(c == VU && Canon(v) != [] && Canon(v)[0] == SMALL_A)
    ensures Canon([c] + v) == [c] + Canon(v)
  {
    hide Canon;
    var t := [c] + v;
    CanonUnfold(t);
    Sequences.ConcatParts([c], v);
    if v != [] && v[0] == SMALL_A { HeadStays(v); }
  }

  lemma {:induction false} OtherHead(c: scalar, v: Text)
    requires Fold(c) == c && !(c == VU && Canon(v) != [] && Canon(v)[0] == SMALL_A)
    ensures Canon(Other(c) + v) == [c] + Canon(v)
  {
    hide Canon;
    if c == BA {
      PairHead(v);
    } else if c == ZU {
      FoldedHead(DU, v);
    } else if c == JI {
      FoldedHead(DI, v);
    } else {
      SameHead(c, v);
    }
  }

  lemma {:induction false} PairHead(v: Text)
    ensures Canon([VU, SMALL_A] + v) == [BA] + Canon(v)
  {
    hide Canon;
    var t := [VU, SMALL_A] + v;
    CanonUnfold(t);
    Sequences.ConcatParts([VU, SMALL_A], v);
    assert t[0] == VU && t[1] == SMALL_A;
  }

  lemma {:induction false} FoldedHead(c: scalar, v: Text)
    requires c == DU || c == DI
    ensures Canon([c] + v) == [Fold(c)] + Canon(v)
  {
    hide Canon;
    var t := [c] + v;
    CanonUnfold(t);
    Sequences.ConcatParts([c], v);
    assert t[0] == c;
  }

  /** The tail of a canonical text is canonical. */
  lemma {:induction false} CanonTail(c: Text)
    requires c != [] && Canon(c) == c
    ensures Canon(c[1..]) == c[1..] && Fold(c[0]) == c[0] && !StartsWithVa(c)
  {
    if !StartsWithVa(c) {
      assert ([Fold(c[0])] + Canon(c[1..]))[1..] == Canon(c[1..]);
    }
  }

  /** A small a at the head is not part of any pair, so it heads the canonical form too. */
  lemma {:induction false} HeadStays(v: Text)
    requires v != [] && v[0] == SMALL_A
    ensures Canon(v) != [] && Canon(v)[0] == SMALL_A
  {
  }

  lemma {:induction false} CanonHasSpelling(t: Text)
    ensures t in Spellings(Canon(t))
    decreases |t|
  {
    if t != [] {
      var c := Canon(t);
      if StartsWithVa(t) {
        CanonHasSpelling(t[2..]);
        assert c[1..] == Canon(t[2..]) && t == Other(c[0]) + t[2..];
      } else {
        CanonHasSpelling(t[1..]);
        assert c[1..] == Canon(t[1..]);
        assert t == [t[0]] + t[1..];
        assert t[0] != c[0] ==> Other(c[0]) == [t[0]];
      }
    }
  }

  lemma {:induction false} CanonIdempotent(t: Text)
    ensures Canon(Canon(t)) == Canon(t)
    decreases |t|
  {
    if t != [] {
      var rest := if StartsWithVa(t) then t[2..] else t[1..];
      CanonIdempotent(rest);
      var c := Canon(t);
      assert c[1..] == Canon(rest);
    }
  }

  // ----- Counting -----

  /** Some rule's left side occurs at the head. */
  predicate RuleAtHead(t: Text)
  {
    StartsWithVa(t) || (t != [] && (t[0] == BA || t[0] == DU || t[0] == ZU || t[0] == DI || t[0] == JI))
  }

  /** Positions of a text at which some rule applies. */
  function Occurrences(t: Text): nat
  {
    if t == [] then 0 else (if RuleAtHead(t) then 1 else 0) + Occurrences(t[1..])
  }

  lemma {:induction false} SitesAreOccurrences(t: Text)
    ensures Sites(Canon(t)) == Occurrences(t)
    decreases |t|
  {
    if t != [] {
      var c := Canon(t);
      if StartsWithVa(t) {
        SitesAreOccurrences(t[2..]);
        assert c[1..] == Canon(t[2..]) && t[1..][1..] == t[2..] && t[1..][0] == SMALL_A;
      } else {
        SitesAreOccurrences(t[1..]);
        assert c[1..] == Canon(t[1..]);
      }
    }
  }

  /** Prefixing is injective, so it keeps the size of a set. */
  lemma {:induction false} PrefixSize(p: Text, s: set<Text>)
    ensures |Prefixed(p, s)| == |s|
    decreases |s|
  {
    if s != {} {
      var x :| x in s;
      PrefixSize(p, s - {x});
      var rest := Prefixed(p, s - {x});
      assert Prefixed(p, s) == rest + {p + x};
      forall v | v in s - {x} ensures p + v != p + x {
        assert v == (p + v)[|p|..] && x == (p + x)[|p|..];
      }
    }
  }

  lemma {:induction false} SpellingsCount(c: Text)
    ensures |Spellings(c)| == Pow2(Sites(c))
  {
    hide Spellings, Prefixed;
    SpellingsStep(c);
    if c != [] {
      SpellingsCount(c[1..]);
      var s := Spellings(c[1..]);
      PrefixSize([c[0]], s);
      PrefixSize(Other(c[0]), s);
      if IsSite(c[0]) {
        PrefixesApart([c[0]], Other(c[0]), s);
      } else {
        assert Other(c[0]) == [c[0]];
      }
    }
  }

  lemma {:induction false} SpellingsStep(c: Text)
    ensures c == [] ==> Spellings(c) == {[]}
    ensures c != [] ==> Spellings(c) == Prefixed([c[0]], Spellings(c[1..])) + Prefixed(Other(c[0]), Spellings(c[1..]))
  {
  }

  function Prefixed(p: Text, s: set<Text>): set<Text> { set v | v in s :: p + v }

  lemma {:induction false} PrefixesApart(p: Text, q: Text, s: set<Text>)
    requires p != [] && q != [] && p[0] != q[0]
    ensures Prefixed(p, s) !! Prefixed(q, s)
  {
    assert forall x :: x in Prefixed(p, s) ==> x != [] && x[0] == p[0];
    assert forall x :: x in Prefixed(q, s) ==> x != [] && x[0] == q[0];
  }

  // ----- One rewriting step -----

  predicate OccursAt(t: Text, left: Text, p: nat) { p + |left| <= |t| && t[p..p + |left|] == left }

  function Replace(t: Text, left: Text, right: Text, p: nat): Text
    requires OccursAt(t, left, p)
  {
    t[..p] + right + t[p + |left|..]
  }

  lemma {:induction false} CanonUnfold(t: Text)
    ensures Canon(t) ==
            if t == [] then []
            else if StartsWithVa(t) then [BA] + Canon(t[2..])
            else [Fold(t[0])] + Canon(t[1..])
  {
  }

  /** The canonical form is computed piecewise wherever the cut does not part a pair's two characters. */
  lemma {:induction false} CanonConcat(x: Text, y: Text)
    requires y == [] || y[0] != SMALL_A
    ensures Canon(x + y) == Canon(x) + Canon(y)
    decreases |x|
  {
    hide Fold, Canon;
    var z := x + y;
    CanonUnfold(x);
    CanonUnfold(z);
    if x == [] {
      assert z == y;
    } else if StartsWithVa(x) {
      CanonConcat(x[2..], y);
      Sequences.ConcatDrop(x, y, 2);
      Sequences.ConcatAssociates([BA], Canon(x[2..]), Canon(y));
    } else {
      CanonConcat(x[1..], y);
      Sequences.ConcatDrop(x, y, 1);
      assert !StartsWithVa(z) by { assert |x| >= 2 ==> z[1] == x[1]; }
      Sequences.ConcatAssociates([Fold(x[0])], Canon(x[1..]), Canon(y));
    }
  }

  lemma {:induction false} SidesAgree(r: (Text, Text), y: Text)
    requires r in Rules()
    ensures r.0 != [] && r.1 != [] && r.0[0] != SMALL_A && r.1[0] != SMALL_A && Canon(r.0 + y) == Canon(r.1 + y)
  {
    assert (r.0 + y)[|r.0|..] == y && (r.1 + y)[|r.1|..] == y;
  }

  /** A step does not change the canonical form. */
  lemma {:induction false} StepKeepsCanon(t: Text, r: (Text, Text), p: nat)
    requires r in Rules() && OccursAt(t, r.0, p)
    ensures Canon(Replace(t, r.0, r.1, p)) == Canon(t)
  {
    var x, y := t[..p], t[p + |r.0|..];
    assert t == x + (r.0 + y) && Replace(t, r.0, r.1, p) == x + (r.1 + y);
    SidesAgree(r, y);
    CanonConcat(x, r.0 + y);
    CanonConcat(x, r.1 + y);
  }

  /** No step leads out of the set. */
  ghost predicate Closed(s: set<Text>, t: Text)
  {
    forall r, p: nat :: r in Rules() && OccursAt(t, r.0, p) ==> Replace(t, r.0, r.1, p) in s
  }

  function Head(t: Text): Text requires t != [] { if StartsWithVa(t) then [VU, SMALL_A] else [t[0]] }

  function Tail(t: Text): Text requires t != [] { if StartsWithVa(t) then t[2..] else t[1..] }

  lemma {:induction false} HeadTail(t: Text)
    requires t != []
    ensures t == Head(t) + Tail(t) && |Tail(t)| < |t| && Canon(t)[1..] == Canon(Tail(t))
  {
  }

  /** Two different spellings of one canonical character are the sides of a rule. */
  lemma {:induction false} HeadRule(u: Text, v: Text)
    requires u != [] && v != [] && Canon(u)[0] == Canon(v)[0]
    ensures Head(u) == Head(v) || (Head(u), Head(v)) in Rules()
  {
    hide Canon, Rules, Head, Other;
    HeadSpells(u);
    HeadSpells(v);
    SidesAreRules(Canon(u)[0]);
  }

  /** A head is the canonical character it stands for or that character's other spelling. */
  lemma {:induction false} HeadSpells(u: Text)
    requires u != []
    ensures Canon(u) != [] && (Head(u) == [Canon(u)[0]] || Head(u) == Other(Canon(u)[0]))
  {
    CanonUnfold(u);
    hide Canon;
  }

  lemma {:induction false} SidesAreRules(c: scalar)
    ensures Other(c) == [c] || (([c], Other(c)) in Rules() && (Other(c), [c]) in Rules())
  {
    var R := Rules();
    assert R[0] in R && R[1] in R && R[2] in R && R[3] in R && R[4] in R && R[5] in R;
  }

  lemma {:induction false} OneStep(s: set<Text>, x: Text, a: Text, b: Text, y: Text)
    requires x + a + y in s && Closed(s, x + a + y) && (a, b) in Rules()
    ensures x + b + y in s
  {
    var t := x + a + y;
    assert OccursAt(t, (a, b).0, |x|);
    assert Replace(t, (a, b).0, (a, b).1, |x|) == x + b + y;
  }

  /** Steps connect all spellings: a closed set that has `x + u` has every `x + v`. */
  lemma {:induction false} Connected(s: set<Text>, x: Text, u: Text, v: Text)
    requires (forall t :: t in s ==> Closed(s, t)) && x + u in s && Canon(u) == Canon(v)
    ensures x + v in s
    decreases |u| + |v|
  {
    hide Closed, Head, Tail;
    if u == [] {
      assert v == [];
    } else {
      HeadTail(u);
      HeadTail(v);
      HeadRule(u, v);
      var a, b, y := Head(u), Head(v), Tail(u);
      assert x + u == x + a + y;
      if a != b { OneStep(s, x, a, b, y); }
      Connected(s, x + b, y, Tail(v));
      assert x + v == x + b + Tail(v);
    }
  }

  // ----- The search -----

  /** The aliases of a key: all its spellings when it has at most three sites, itself otherwise. */
  ghost function AliasSet(key: Text): set<Text>
  {
    if Occurrences(key) <= 3 then Spellings(Canon(key)) else {key}
  }

  /** `str.find`: the first occurrence at or after `start`, or -1. */
  function Find(t: Text, left: Text, start: nat): (r: int)
    ensures r == -1 || (start <= r && OccursAt(t, left, r))
    ensures forall p: nat {:trigger OccursAt(t, left, p)} :: start <= p && OccursAt(t, left, p) ==> r != -1 && r <= p
    decreases |t| - start
  {
    if start + |left| > |t| then -1 else if OccursAt(t, left, start) then start
    else if start == |t| then -1 else Find(t, left, start + 1)
  }

  /** Occurrences of one left side do not overlap, so the search misses none. */
  lemma {:induction false} NoOverlap(t: Text, r: (Text, Text), p: nat, q: nat)
    requires r in Rules() && OccursAt(t, r.0, p) && OccursAt(t, r.0, q) && p < q
    ensures p + |r.0| <= q
  {
    assert t[p..p + |r.0|][|r.0| - 1] == t[p + |r.0| - 1] && t[q..q + |r.0|][0] == t[q];
    assert |r.0| <= 2 && (|r.0| == 2 ==> r.0[0] != r.0[1]);
  }

  ghost predicate SameCanon(s: set<Text>, c: Text) { forall t :: t in s ==> Canon(t) == c }

  lemma {:induction false} ClassSize(s: set<Text>, key: Text)
    requires SameCanon(s, Canon(key))
    ensures s <= Spellings(Canon(key)) && |s| <= Pow2(Occurrences(key))
  {
    var c := Canon(key);
    forall t | t in s ensures t in Spellings(c) { CanonHasSpelling(t); }
    SpellingsCount(c);
    SitesAreOccurrences(key);
    SubsetSize(s, Spellings(c));
  }

  lemma {:induction false} SubsetSize(a: set<Text>, b: set<Text>)
    requires a <= b
    ensures |a| <= |b|
  {
    assert b == a + (b - a);
  }

  lemma {:induction false} Pow2Cap(n: nat)
    ensures Pow2(n) <= 8 <==> n <= 3
  {
    if n > 4 { Pow2Cap(n - 1); } else { assert Pow2(3) == 8 && Pow2(4) == 16 && Pow2(2) == 4 && Pow2(1) == 2; }
  }

  /** The results of applying a rule before `limit` have all been found. */
  ghost predicate Covered(t: Text, r: (Text, Text), found: set<Text>, limit: nat)
  {
    forall p: nat :: p < limit && OccursAt(t, r.0, p) ==> Replace(t, r.0, r.1, p) in found
  }

  lemma {:induction false} CoverNext(t: Text, r: (Text, Text), found: set<Text>, start: nat, more: set<Text>)
    requires r in Rules() && Covered(t, r, found, start) && found <= more
    ensures var pos := Find(t, r.0, start);
            if pos == -1 then Covered(t, r, more, |t| + 1)
            else Replace(t, r.0, r.1, pos) in more ==> Covered(t, r, more, pos + |r.0|)
  {
    var pos := Find(t, r.0, start);
    if pos != -1 {
      forall p: nat | p < pos + |r.0| && OccursAt(t, r.0, p)
        ensures Replace(t, r.0, r.1, pos) in more ==> Replace(t, r.0, r.1, p) in more
      {
        if p > pos { NoOverlap(t, r, pos, p); }
      }
    }
  }

  /** The search so far: at most eight texts of the class, the last ones in `added`. */
  ghost predicate Searched(key: Text, found0: set<Text>, found: set<Text>, added: seq<Text>)
  {
    && found0 <= found && |found| <= 8 && |found| == |found0| + |added| && SameCanon(found, Canon(key))
    && forall t :: t in found <==> t in found0 || t in added
  }

  /** Tries one rule at every place; `full` means a ninth spelling turned up. */
  method TryRule(key: Text, current: Text, r: (Text, Text), found0: set<Text>)
    returns (found: set<Text>, added: seq<Text>, full: bool)
    requires r in Rules() && SameCanon(found0, Canon(key)) && |found0| <= 8 && Canon(current) == Canon(key)
    ensures Searched(key, found0, found, added)
    ensures if full then Occurrences(key) > 3 else Covered(current, r, found, |current| + 1)
  {
    found, added, full := found0, [], false;
    var start := 0;
    var pos := Find(current, r.0, start);
    while pos >= 0
      invariant pos == Find(current, r.0, start)
      invariant Searched(key, found0, found, added) && Covered(current, r, found, start)
      decreases |current| - start
    {
      ghost var before := found;
      var candidate := Replace(current, r.0, r.1, pos);
      StepKeepsCanon(current, r, pos);
      if candidate !in found {
        if |found| == 8 {
          TooMany(found, candidate, key);
          return found, added, true;
        }
        found, added := found + {candidate}, added + [candidate];
      }
      CoverNext(current, r, before, start, found);
      SidesAgree(r, []);
      start := pos + |r.0|;
      pos := Find(current, r.0, start);
    }
    CoverNext(current, r, found, start, found);
  }

  lemma {:induction false} TooMany(found: set<Text>, candidate: Text, key: Text)
    requires |found| == 8 && candidate !in found && SameCanon(found, Canon(key)) && Canon(candidate) == Canon(key)
    ensures Occurrences(key) > 3
  {
    ClassSize(found + {candidate}, key);
    Pow2Cap(Occurrences(key));
  }

  /** A search that ran dry found exactly the spellings. */
  lemma {:induction false} SearchComplete(found: set<Text>, key: Text)
    requires key in found && |found| <= 8 && SameCanon(found, Canon(key)) && forall t :: t in found ==> Closed(found, t)
    ensures found == AliasSet(key)
  {
    var c := Canon(key);
    ClassSize(found, key);
    CanonIdempotent(key);
    forall t | t in Spellings(c) ensures t in found {
      SpellingHasCanon(c, t);
      assert [] + key == key && [] + t == t;
      Connected(found, [], key, t);
    }
    assert found == Spellings(c);
    SpellingsCount(c);
    SitesAreOccurrences(key);
    Pow2Cap(Occurrences(key));
  }

  /** Applies all six rules to one text. */
  method Expand(key: Text, current: Text, found0: set<Text>) returns (found: set<Text>, added: seq<Text>, full: bool)
    requires SameCanon(found0, Canon(key)) && |found0| <= 8 && Canon(current) == Canon(key)
    ensures Searched(key, found0, found, added)
    ensures if full then Occurrences(key) > 3 else Closed(found, current)
  {
    found, added, full := found0, [], false;
    var i := 0;
    while i < 6
      invariant 0 <= i <= 6 && Searched(key, found0, found, added)
      invariant forall j :: 0 <= j < i ==> Covered(current, Rules()[j], found, |current| + 1)
    {
      var more;
      ghost var before := found;
      found, more, full := TryRule(key, current, Rules()[i], found);
      added := added + more;
      if full { return; }
      forall j | 0 <= j < i ensures Covered(current, Rules()[j], found, |current| + 1) {
        assert Covered(current, Rules()[j], before, |current| + 1);
      }
      i := i + 1;
    }
    forall r, p: nat | r in Rules() && OccursAt(current, r.0, p) ensures Replace(current, r.0, r.1, p) in found {
      var j :| 0 <= j < 6 && Rules()[j] == r;
      assert Covered(current, Rules()[j], found, |current| + 1);
    }
  }

  /** Every text found is either still to be expanded or has all its rewritings among the found. */
  ghost predicate Frontier(found: set<Text>, pending: seq<Text>)
  {
    (forall t :: t in pending ==> t in found) && forall t :: t in found ==> t in pending || Closed(found, t)
  }

  lemma {:induction false} FrontierKept(found: set<Text>, pending: seq<Text>, more: set<Text>, added: seq<Text>)
    requires pending != [] && Frontier(found, pending) && found <= more && Closed(more, pending[0])
    requires forall t :: t in more <==> t in found || t in added
    ensures Frontier(more, pending[1..] + added)
  {
    forall t | t in more ensures t in pending[1..] + added || Closed(more, t) {
      if t in found && t !in pending { assert Closed(found, t); }
    }
  }

  method Aliases(key: Text) returns (r: seq<Text>)
    ensures SortedList(r, AliasSet(key))
  {
    var found := {key};
    var pending := [key];
    ghost var popped := 0;
    while pending != []
      invariant key in found && |found| <= 8 && SameCanon(found, Canon(key))
      invariant Frontier(found, pending) && popped + |pending| == |found|
      decreases 8 - popped
    {
      ghost var before, queue := found, pending;
      var current := pending[0];
      pending, popped := pending[1..], popped + 1;
      var added, full;
      found, added, full := Expand(key, current, found);
      if full {
        return [key];
      }
      FrontierKept(before, queue, found, added);
      pending := pending + added;
    }
    SearchComplete(found, key);
    r := SortTexts(found);
  }

  /** An alias of a key has the same aliases as the key. */
  lemma {:induction false} AliasesAgree(a: Text, b: Text)
    requires b in AliasSet(a)
    ensures AliasSet(b) == AliasSet(a) && a in AliasSet(b)
  {
    CanonIdempotent(a);
    CanonHasSpelling(a);
    SitesAreOccurrences(a);
    if Occurrences(a) <= 3 {
      SpellingHasCanon(Canon(a), b);
      SitesAreOccurrences(b);
    }
  }

  /** With at most three sites there are exactly two to the sites aliases. */
  lemma {:induction false} AliasCount(key: Text)
    ensures |AliasSet(key)| == if Occurrences(key) <= 3 then Pow2(Occurrences(key)) else 1
  {
    SpellingsCount(Canon(key));
    SitesAreOccurrences(key);
  }

  /** Being an alias means being spelled alike up to the pairs. */
  lemma {:induction false} AliasMeaning(a: Text, b: Text)
    requires Occurrences(a) <= 3
    ensures b in AliasSet(a) <==> Canon(b) == Canon(a)
  {
    CanonIdempotent(a);
    if b in AliasSet(a) { SpellingHasCanon(Canon(a), b); }
    if Canon(b) == Canon(a) { CanonHasSpelling(b); }
  }

  /** A key is one of its own aliases. */
  lemma {:induction false} SelfAlias(key: Text)
    ensures key in AliasSet(key)
  {
    CanonHasSpelling(key);
  }

  /** The pairs by their characters: ba and vu with a small a, zu and du, ji and di; others stand alone. */
  lemma {:induction false} PairsSpelled()
    ensures AliasSet([0x3070]) == {[0x3070], [0x3094, 0x3041]}
    ensures AliasSet([0x305A]) == {[0x305A], [0x3065]}
    ensures AliasSet([0x3058]) == {[0x3058], [0x3062]}
  {
    OneSite(0x3070);
    OneSite(0x305A);
    OneSite(0x3058);
  }

  lemma {:induction false} OneSite(c: scalar)
    requires IsSite(c)
    ensures AliasSet([c]) == {[c], Other(c)}
  {
    assert [c][1..] == [];
    assert Canon([]) == [] && Occurrences([]) == 0;
    assert Canon([c]) == [c] && Occurrences([c]) == 1 + Occurrences([]);
    SpellingsStep([c]);
    SpellingsStep([]);
    OnlyPrefix([c]);
    OnlyPrefix(Other(c));
  }

  lemma {:induction false} OnlyPrefix(p: Text)
    ensures Prefixed(p, {[]}) == {p}
  {
    assert p + [] == p;
    forall x | x in Prefixed(p, {[]}) ensures x == p {}
    var none: Text := [];
    assert none in {none} && p + none in Prefixed(p, {none});
  }

  lemma {:induction false} Unpaired(c: scalar)
    requires c !in {0x3070, 0x305A, 0x3065, 0x3058, 0x3062}
    ensures AliasSet([c]) == {[c]}
  {
    assert [c][1..] == [];
    assert Canon([]) == [] && Occurrences([]) == 0;
    assert Canon([c]) == [c] && Occurrences([c]) == Occurrences([]);
    SpellingsStep([c]);
    SpellingsStep([]);
    OnlyPrefix([c]);
  }
}
