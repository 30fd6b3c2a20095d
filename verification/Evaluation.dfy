/**
  The conversion-quality evaluation: how one case is judged, how the judgements are added up, and
  the laws the totals obey over every completed run. NFKC normalisation is a parameter, and so are
  the converter's answers and the measured latencies.
 */
module Evaluation {
  import opened Utf8
  import opened Levenshtein
  import Sequences

  type Bytes = seq<byte>

  const LIMIT: nat := 5

  datatype Case = Case(input: Bytes, expected: Bytes, acceptable: seq<Bytes>, categories: seq<string>, typo: bool,
                       typoType: Option<string>)

  datatype Candidate = Candidate(surface: Bytes, reading: Bytes)

  /** What the converter returned for a case, and the median time it took. */
  datatype Answer = Answer(candidates: seq<Candidate>, latency: real)

  datatype Match = Match(exact: bool, nfkcExact: bool, acceptable: bool, distance: nat, length: nat, nfkcDistance: nat,
                         nfkcLength: nat)

  datatype Evaluated = Evaluated(source: Case, candidates: seq<Candidate>, verdict: Match, rank: nat, fidelity: bool,
                                 corrected: bool, latency: real)

  /** What parsing a case guarantees: texts and categories that are there are not empty. */
  predicate CaseOk(c: Case)
  {
    c.expected != [] && (forall i :: 0 <= i < |c.acceptable| ==> c.acceptable[i] != []) && c.categories != [] &&
    (!c.typo ==> c.typoType.None?)
  }

  // ----- Judging one case -----

  predicate Accepts(c: Case, surface: Bytes) { surface == c.expected || surface in c.acceptable }

  /** `rank` is the place of the first accepted candidate, counted from one; none is 0. */
  ghost predicate FirstAccepted(candidates: seq<Candidate>, item: Case, rank: nat)
  {
    rank <= |candidates| && (rank > 0 ==> Accepts(item, candidates[rank - 1].surface)) &&
    forall i :: 0 <= i < (if rank > 0 then rank - 1 else |candidates|) ==> !Accepts(item, candidates[i].surface)
  }

  method AcceptedRank(candidates: seq<Candidate>, item: Case) returns (rank: nat)
    ensures FirstAccepted(candidates, item, rank)
  {
    hide Accepts;
    var index := 0;
    while index < |candidates|
      invariant index <= |candidates|
      invariant forall i :: 0 <= i < index ==> !Accepts(item, candidates[i].surface)
    {
      var surface := candidates[index].surface;
      AcceptsMeans(item, surface);
      if surface == item.expected || surface in item.acceptable { return index + 1; }
      index := index + 1;
    }
    return 0;
  }

  /** Texts are equal exactly when no edit separates the characters they decode to. */
  lemma {:induction false} DistanceOfTexts(a: Bytes, b: Bytes)
    requires WellFormed(a) && WellFormed(b)
    ensures Distance(Decode(a).value, Decode(b).value) == 0 <==> a == b
  {
    hide Encode, EncodeScalar, Distance, WellFormed;
    ZeroIffEqual(Decode(a).value, Decode(b).value);
  }

  /** A text that can be judged: UTF-8 before and after normalisation. */
  ghost predicate Readable(t: Bytes, normalize: Bytes -> Option<Bytes>)
  {
    WellFormed(t) && normalize(t).Some? && WellFormed(normalize(t).value)
  }

  /** What a first text is judged to be, against the expected one and the acceptable ones. */
  ghost predicate Judged(top1: Bytes, expected: Bytes, acceptable: seq<Bytes>, normalize: Bytes -> Option<Bytes>,
                         m: Match)
  {
    Readable(top1, normalize) && Readable(expected, normalize) &&
    m.exact == (top1 == expected) && m.acceptable == (top1 != expected && top1 in acceptable) &&
    m.distance == Distance(Decode(top1).value, Decode(expected).value) && m.length == |Decode(expected).value| &&
    m.nfkcExact == (normalize(top1) == normalize(expected)) &&
    m.nfkcDistance == Distance(Decode(normalize(top1).value).value, Decode(normalize(expected).value).value) &&
    m.nfkcLength == |Decode(normalize(expected).value).value|
  }

  /** No distance means the same text, as it is and normalised. */
  lemma {:induction false} NoDistanceMeansEqual(top1: Bytes, expected: Bytes, acceptable: seq<Bytes>,
                                                normalize: Bytes -> Option<Bytes>, m: Match)
    requires Judged(top1, expected, acceptable, normalize, m)
    ensures (m.distance == 0 <==> m.exact) && (m.nfkcDistance == 0 <==> m.nfkcExact) && (m.exact ==> m.nfkcExact)
  {
    hide Distance, WellFormed;
    DistanceOfTexts(top1, expected);
    DistanceOfTexts(normalize(top1).value, normalize(expected).value);
  }

  /** Fails, as the run then does, when a text is not UTF-8 or cannot be normalised. */
  method EvaluateCandidateMatch(top1: Bytes, expected: Bytes, acceptable: seq<Bytes>, normalize: Bytes -> Option<Bytes>)
    returns (r: Option<Match>)
    ensures r.Some? <==> Readable(top1, normalize) && Readable(expected, normalize)
    ensures r.Some? ==> Judged(top1, expected, acceptable, normalize, r.value)
  {
    hide Distance, WellFormed, Encode;
    var exact := top1 == expected;
    var hypothesis := DecodeUtf8CodePoints(top1);
    if hypothesis.None? { return None; }
    var reference := DecodeUtf8CodePoints(expected);
    if reference.None? { return None; }
    var distance := LevenshteinDistance(hypothesis.value, reference.value);
    var normalTop := normalize(top1);
    if normalTop.None? { return None; }
    var normalExpected := normalize(expected);
    if normalExpected.None? { return None; }
    var normalHypothesis := DecodeUtf8CodePoints(normalTop.value);
    if normalHypothesis.None? { return None; }
    var normalReference := DecodeUtf8CodePoints(normalExpected.value);
    if normalReference.None? { return None; }
    var normalDistance := LevenshteinDistance(normalHypothesis.value, normalReference.value);
    return Some(Match(exact, normalTop.value == normalExpected.value, !exact && top1 in acceptable,
                      distance, |reference.value|, normalDistance, |normalReference.value|));
  }

  function Top(candidates: seq<Candidate>): Bytes { if candidates == [] then [] else candidates[0].surface }

  /** What the totals rely on in each judged case. */
  predicate Sound(e: Evaluated)
  {
    CaseOk(e.source) && e.rank <= LIMIT && (e.rank == 1 <==> e.verdict.exact || e.verdict.acceptable) &&
    !(e.verdict.exact && e.verdict.acceptable) &&
    (e.verdict.distance == 0 <==> e.verdict.exact) && (e.verdict.nfkcDistance == 0 <==> e.verdict.nfkcExact) &&
    (e.verdict.exact ==> e.verdict.nfkcExact) && !e.corrected
  }

  /** The first place is taken by an accepted text exactly when the first text is judged a match. */
  lemma {:induction false} RankOneIsMatch(item: Case, candidates: seq<Candidate>, rank: nat)
    requires CaseOk(item) && FirstAccepted(candidates, item, rank)
    ensures rank == 1 <==> Accepts(item, Top(candidates))
  {
    assert !Accepts(item, []);
    hide Accepts;
    assert candidates != [] && rank != 1 ==> !Accepts(item, candidates[0].surface);
  }

  function Kept(answer: seq<Candidate>, nBest: nat): seq<Candidate>
  {
    if |answer| > nBest then answer[..nBest] else answer
  }

  /** How a case and the converter's answer to it become a judged case. */
  ghost predicate Evaluates(e: Evaluated, item: Case, answer: Answer, nBest: nat, normalize: Bytes -> Option<Bytes>)
  {
    e.source == item && e.candidates == Kept(answer.candidates, nBest) && e.candidates <= answer.candidates &&
    |e.candidates| <= nBest && (|e.candidates| == nBest || |e.candidates| == |answer.candidates|) &&
    FirstAccepted(e.candidates, item, e.rank) &&
    Judged(Top(e.candidates), item.expected, item.acceptable, normalize, e.verdict) &&
    e.fidelity == (e.candidates != [] && e.candidates[0].reading == item.input) && !e.corrected &&
    e.latency == answer.latency
  }

  method EvaluateCase(item: Case, answer: Answer, nBest: nat,
                      normalize: Bytes -> Option<Bytes>) returns (r: Option<Evaluated>)
    ensures r.Some? <==> Readable(Top(Kept(answer.candidates, nBest)), normalize) && Readable(item.expected, normalize)
    ensures r.Some? ==> Evaluates(r.value, item, answer, nBest, normalize)
  {
    hide Readable, FirstAccepted, Judged;
    var candidates := if |answer.candidates| > nBest then answer.candidates[..nBest] else answer.candidates;
    var rank := AcceptedRank(candidates, item);
    var top1 := if candidates == [] then [] else candidates[0].surface;
    var judged := EvaluateCandidateMatch(top1, item.expected, item.acceptable, normalize);
    if judged.None? { return None; }
    var fidelity := candidates != [] && candidates[0].reading == item.input;
    return Some(Evaluated(item, candidates, judged.value, rank, fidelity, false, answer.latency));
  }

  /** A judged case has everything the totals rely on. */
  lemma {:induction false} EvaluatedIsSound(e: Evaluated, item: Case, answer: Answer, nBest: nat,
                                            normalize: Bytes -> Option<Bytes>)
    requires CaseOk(item) && nBest <= LIMIT && Evaluates(e, item, answer, nBest, normalize)
    ensures Sound(e)
  {
    hide CaseOk, Accepts;
    RankOneIsMatch(item, e.candidates, e.rank);
    AcceptsMeans(item, Top(e.candidates));
    NoDistanceMeansEqual(Top(e.candidates), item.expected, item.acceptable, normalize, e.verdict);
  }

  lemma {:induction false} AcceptsMeans(item: Case, t: Bytes)
    ensures Accepts(item, t) <==> t == item.expected || t in item.acceptable
  {
  }

  // ----- Totals -----

  datatype Ranks = Ranks(count: nat, top1: nat, top3: nat, top5: nat, reciprocal: real)

  datatype Matches = Matches(exact: nat, nfkcExact: nat, acceptable: nat, distance: nat, length: nat, nfkcDistance: nat,
                             nfkcLength: nat)

  datatype Kinds = Kinds(readings: nat, fidelity: nat, typos: nat, typoTop1: nat, typoTop5: nat)

  datatype Cleans = Cleans(count: nat, falsePositive: nat, overcorrection: nat)

  datatype Metrics = Metrics(ranks: Ranks, matches: Matches, kinds: Kinds, cleans: Cleans, latencies: multiset<real>)

  const ZERO := Metrics(Ranks(0, 0, 0, 0, 0.0), Matches(0, 0, 0, 0, 0, 0, 0), Kinds(0, 0, 0, 0, 0), Cleans(0, 0, 0),
                        multiset{})

  function PlusRanks(a: Ranks, b: Ranks): Ranks
  {
    Ranks(a.count + b.count, a.top1 + b.top1, a.top3 + b.top3, a.top5 + b.top5, a.reciprocal + b.reciprocal)
  }

  function PlusMatches(a: Matches, b: Matches): Matches
  {
    Matches(a.exact + b.exact, a.nfkcExact + b.nfkcExact, a.acceptable + b.acceptable, a.distance + b.distance,
            a.length + b.length, a.nfkcDistance + b.nfkcDistance, a.nfkcLength + b.nfkcLength)
  }

  function PlusKinds(a: Kinds, b: Kinds): Kinds
  {
    Kinds(a.readings + b.readings, a.fidelity + b.fidelity, a.typos + b.typos, a.typoTop1 + b.typoTop1,
          a.typoTop5 + b.typoTop5)
  }

  function PlusCleans(a: Cleans, b: Cleans): Cleans
  {
    Cleans(a.count + b.count, a.falsePositive + b.falsePositive, a.overcorrection + b.overcorrection)
  }

  function Plus(a: Metrics, b: Metrics): Metrics
  {
    Metrics(PlusRanks(a.ranks, b.ranks), PlusMatches(a.matches, b.matches), PlusKinds(a.kinds, b.kinds),
            PlusCleans(a.cleans, b.cleans), a.latencies + b.latencies)
  }

  function One(b: bool): nat { if b then 1 else 0 }

  /** A typo case without a typo: it counts only among the clean ones. */
  predicate Clean(e: Evaluated) { e.source.typo && e.source.typoType.None? }

  function Reciprocal(rank: nat): real { if rank > 0 then 1.0 / (rank as real) else 0.0 }

  function RankShare(e: Evaluated): Ranks
  {
    Ranks(1, One(e.rank == 1), One(0 < e.rank <= 3), One(0 < e.rank <= LIMIT), Reciprocal(e.rank))
  }

  function MatchShare(e: Evaluated): Matches
  {
    Matches(One(e.verdict.exact), One(e.verdict.nfkcExact), One(e.verdict.acceptable), e.verdict.distance,
            e.verdict.length, e.verdict.nfkcDistance, e.verdict.nfkcLength)
  }

  function KindShare(e: Evaluated, primary: bool): Kinds
  {
    if !e.source.typo then (if primary then Kinds(1, One(e.fidelity), 0, 0, 0) else ZERO.kinds)
    else if e.source.typoType.Some? then Kinds(0, 0, 1, One(e.rank == 1), One(0 < e.rank <= LIMIT)) else ZERO.kinds
  }

  function CleanShare(e: Evaluated, typoMode: string): Cleans
  {
    if Clean(e) then Cleans(1, One(e.corrected), One(typoMode == "aggressive" && e.rank == 0)) else ZERO.cleans
  }

  /** What one case adds to a total; clean cases are left out of the primary metrics. */
  function Contribution(e: Evaluated, primary: bool, typoMode: string): Metrics
  {
    Metrics(if primary then RankShare(e) else ZERO.ranks, if primary then MatchShare(e) else ZERO.matches,
            KindShare(e, primary), CleanShare(e, typoMode), if primary then multiset{e.latency} else multiset{})
  }

  function Share(e: Evaluated, typoMode: string): Metrics { Contribution(e, !Clean(e), typoMode) }

  function Total(es: seq<Evaluated>, typoMode: string): Metrics
  {
    if es == [] then ZERO else Plus(Total(es[..|es| - 1], typoMode), Share(es[|es| - 1], typoMode))
  }

  // ----- The laws -----

  predicate LawfulRanks(m: Metrics)
  {
    m.matches.exact + m.matches.acceptable == m.ranks.top1 <= m.ranks.top3 <= m.ranks.top5 <= m.ranks.count &&
    m.matches.exact <= m.matches.nfkcExact <= m.ranks.count
  }

  predicate LawfulDistances(m: Metrics)
  {
    (m.matches.distance == 0 <==> m.matches.exact == m.ranks.count) &&
    (m.matches.nfkcDistance == 0 <==> m.matches.nfkcExact == m.ranks.count)
  }

  /** First places count whole in the reciprocal ranks, and later hits between a fifth and a half. */
  predicate LawfulReciprocal(m: Metrics)
  {
    var first, later := m.ranks.top1 as real, (m.ranks.top5 - m.ranks.top1) as real;
    5.0 * first + later <= 5.0 * m.ranks.reciprocal && 2.0 * m.ranks.reciprocal <= 2.0 * first + later
  }

  predicate LawfulKinds(m: Metrics)
  {
    m.ranks.count == m.kinds.readings + m.kinds.typos == |m.latencies| && m.kinds.fidelity <= m.kinds.readings &&
    m.kinds.typoTop1 <= m.kinds.typoTop5 <= m.kinds.typos && m.kinds.typoTop1 <= m.ranks.top1 &&
    m.kinds.typoTop5 <= m.ranks.top5 &&
    m.cleans.falsePositive == 0
  }

  predicate Lawful(m: Metrics) { LawfulRanks(m) && LawfulDistances(m) && LawfulReciprocal(m) && LawfulKinds(m) }

  lemma {:induction false} PlusLawful(a: Metrics, b: Metrics)
    requires Lawful(a) && Lawful(b)
    ensures Lawful(Plus(a, b))
  {
  }

  lemma {:induction false} ShareLawful(e: Evaluated, typoMode: string)
    requires Sound(e)
    ensures Lawful(Share(e, typoMode))
  {
    assert 0 < e.rank <= 5 ==> e.rank in {1, 2, 3, 4, 5};
  }

  lemma {:induction false} ZeroRanks()
    ensures LawfulRanks(ZERO) && LawfulDistances(ZERO)
  {
  }

  lemma {:induction false} ZeroReciprocal()
    ensures LawfulReciprocal(ZERO)
  {
  }

  lemma {:induction false} ZeroKinds()
    ensures LawfulKinds(ZERO)
  {
  }

  lemma {:induction false} ZeroLawful()
    ensures Lawful(ZERO)
  {
    hide LawfulRanks, LawfulDistances, LawfulReciprocal, LawfulKinds;
    ZeroRanks();
    ZeroReciprocal();
    ZeroKinds();
  }

  /** Each case is counted once, as a primary or as a clean one. */
  lemma {:induction false} PlusCounts(m: Metrics, e: Evaluated, typoMode: string)
    ensures Plus(m, Share(e, typoMode)).ranks.count + Plus(m, Share(e, typoMode)).cleans.count ==
            m.ranks.count + m.cleans.count + 1
    ensures typoMode != "aggressive" ==> Plus(m, Share(e, typoMode)).cleans.overcorrection == m.cleans.overcorrection
  {
  }

  ghost predicate AllSound(es: seq<Evaluated>) { forall i :: 0 <= i < |es| ==> Sound(es[i]) }

  /** The totals of every completed run are lawful. */
  lemma {:induction false} TotalLawful(es: seq<Evaluated>, typoMode: string)
    requires AllSound(es)
    ensures Lawful(Total(es, typoMode))
    ensures Total(es, typoMode).ranks.count + Total(es, typoMode).cleans.count == |es|
    ensures typoMode != "aggressive" ==> Total(es, typoMode).cleans.overcorrection == 0
  {
    hide Lawful, Sound, Plus, Share;
    if es == [] {
      assert Lawful(ZERO) by { ZeroLawful(); }
    } else {
      var front, last := es[..|es| - 1], es[|es| - 1];
      TotalLawful(front, typoMode);
      ShareLawful(last, typoMode);
      PlusLawful(Total(front, typoMode), Share(last, typoMode));
      PlusCounts(Total(front, typoMode), last, typoMode);
    }
  }

  // ----- The totals by category -----

  function Category(e: Evaluated): string { if e.source.categories == [] then "" else e.source.categories[0] }

  predicate Counts(e: Evaluated, category: string) { !Clean(e) && Category(e) == category }

  /** The cases counted under one category. */
  function Of(es: seq<Evaluated>, category: string): seq<Evaluated>
  {
    if es == [] then []
    else Of(es[..|es| - 1], category) + if Counts(es[|es| - 1], category) then [es[|es| - 1]] else []
  }

  lemma {:induction false} OfAppend(es: seq<Evaluated>, e: Evaluated, category: string)
    ensures Of(es + [e], category) == Of(es, category) + if Counts(e, category) then [e] else []
  {
    assert (es + [e])[..|es|] == es;
  }

  lemma {:induction false} TotalAppend(es: seq<Evaluated>, e: Evaluated, typoMode: string)
    ensures Total(es + [e], typoMode) == Plus(Total(es, typoMode), Share(e, typoMode))
  {
    assert (es + [e])[..|es|] == es;
  }

  lemma {:induction false} OfSound(es: seq<Evaluated>, category: string)
    requires AllSound(es)
    ensures AllSound(Of(es, category))
  {
    if es != [] { OfSound(es[..|es| - 1], category); }
  }

  lemma {:induction false} PlusAssociates(a: Metrics, b: Metrics, c: Metrics)
    ensures Plus(Plus(a, b), c) == Plus(a, Plus(b, c)) && Plus(Plus(a, b), c) == Plus(Plus(a, c), b)
  {
  }

  predicate Distinct(order: seq<string>) { forall i, j :: 0 <= i < j < |order| ==> order[i] != order[j] }

  function SumBy(order: seq<string>, es: seq<Evaluated>, typoMode: string): Metrics
  {
    if order == [] then ZERO else Plus(Total(Of(es, order[0]), typoMode), SumBy(order[1..], es, typoMode))
  }

  /** One more case adds its share to the sum once, under its own category. */
  lemma {:induction false} SumByAppend(order: seq<string>, es: seq<Evaluated>, e: Evaluated, typoMode: string)
    requires Distinct(order)
    ensures SumBy(order, es + [e], typoMode) ==
            if !Clean(e) && Category(e) in order then Plus(SumBy(order, es, typoMode), Share(e, typoMode))
            else SumBy(order, es, typoMode)
  {
    hide Plus, Share, Total, Of, Category, Clean;
    if order != [] {
      var c, rest := order[0], order[1..];
      assert order == [c] + rest;
      OfAppend(es, e, c);
      SumByAppend(rest, es, e, typoMode);
      assert Of(es, c) + [] == Of(es, c);
      if Counts(e, c) {
        assert c !in rest;
        TotalAppend(Of(es, c), e, typoMode);
      }
      PlusAssociates(Total(Of(es, c), typoMode), SumBy(rest, es, typoMode), Share(e, typoMode));
    }
  }

  /** Adding nothing, part by part. */
  lemma {:induction false} PlusNothing(m: Metrics)
    ensures PlusRanks(m.ranks, ZERO.ranks) == m.ranks && PlusMatches(m.matches, ZERO.matches) == m.matches
    ensures PlusKinds(m.kinds, ZERO.kinds) == m.kinds && PlusCleans(m.cleans, ZERO.cleans) == m.cleans
    ensures m.latencies + multiset{} == m.latencies
  {
  }

  lemma {:induction false} PlusZero(m: Metrics)
    ensures Plus(m, ZERO) == m
  {
    hide PlusRanks, PlusMatches, PlusKinds, PlusCleans;
    PlusNothing(m);
  }

  lemma {:induction false} SumOfNone(order: seq<string>, typoMode: string)
    ensures SumBy(order, [], typoMode) == ZERO
  {
    if order != [] {
      hide Plus;
      SumOfNone(order[1..], typoMode);
      assert Total(Of([], order[0]), typoMode) == ZERO;
      PlusZero(ZERO);
    }
  }

  function WithoutCleans(m: Metrics): Metrics { m.(cleans := ZERO.cleans) }

  lemma {:induction false} WithoutCleansPlus(m: Metrics, e: Evaluated, typoMode: string)
    ensures WithoutCleans(Plus(m, Share(e, typoMode))) ==
            if Clean(e) then WithoutCleans(m) else Plus(WithoutCleans(m), Share(e, typoMode))
  {
    hide RankShare, MatchShare, PlusRanks, PlusMatches, PlusKinds, PlusCleans;
    PlusNothing(m);
    PlusNothing(ZERO);
  }

  ghost predicate Covers(order: seq<string>, es: seq<Evaluated>)
  {
    forall i :: 0 <= i < |es| && !Clean(es[i]) ==> Category(es[i]) in order
  }

  /** Apart from the clean cases, the summary is the sum of the categories, in whatever order. */
  lemma {:induction false} CategoriesSumUp(order: seq<string>, es: seq<Evaluated>, typoMode: string)
    requires Distinct(order) && Covers(order, es)
    ensures WithoutCleans(Total(es, typoMode)) == SumBy(order, es, typoMode)
    decreases |es|
  {
    hide Plus, Share, SumBy, WithoutCleans, Clean, Category;
    if es == [] {
      SumOfNone(order, typoMode);
      assert WithoutCleans(ZERO) == ZERO by { ZeroHasNoCleans(); }
    } else {
      var front, last := es[..|es| - 1], es[|es| - 1];
      assert es == front + [last];
      CategoriesSumUp(order, front, typoMode);
      SumByAppend(order, front, last, typoMode);
      WithoutCleansPlus(Total(front, typoMode), last, typoMode);
    }
  }

  lemma {:induction false} ZeroHasNoCleans()
    ensures WithoutCleans(ZERO) == ZERO
  {
  }

  // ----- What the counters count -----

  /** The numbers of a total that count cases. */
  datatype Counter = Cases | First | TopThree | TopFive | Exact | NfkcExact | Acceptable | Readings | Faithful
                   | Typos | TypoFirst | TypoTopFive | CleanCases | FalsePositives | Overcorrections | Latency(ms: real)

  function Value(m: Metrics, c: Counter): nat
  {
    match c
    case Cases => m.ranks.count
    case First => m.ranks.top1
    case TopThree => m.ranks.top3
    case TopFive => m.ranks.top5
    case Exact => m.matches.exact
    case NfkcExact => m.matches.nfkcExact
    case Acceptable => m.matches.acceptable
    case Readings => m.kinds.readings
    case Faithful => m.kinds.fidelity
    case Typos => m.kinds.typos
    case TypoFirst => m.kinds.typoTop1
    case TypoTopFive => m.kinds.typoTop5
    case CleanCases => m.cleans.count
    case FalsePositives => m.cleans.falsePositive
    case Overcorrections => m.cleans.overcorrection
    case Latency(x) => m.latencies[x]
  }

  /** A case the counter counts. Typo cases without a typo count only among the clean ones. */
  predicate Hit(c: Counter, e: Evaluated, typoMode: string)
  {
    var typo, clean := e.source.typo, e.source.typo && e.source.typoType.None?;
    match c
    case Cases => !clean
    case First => !clean && e.rank == 1
    case TopThree => !clean && 1 <= e.rank <= 3
    case TopFive => !clean && 1 <= e.rank <= 5
    case Exact => !clean && e.verdict.exact
    case NfkcExact => !clean && e.verdict.nfkcExact
    case Acceptable => !clean && e.verdict.acceptable
    case Readings => !typo
    case Faithful => !typo && e.fidelity
    case Typos => typo && !clean
    case TypoFirst => typo && !clean && e.rank == 1
    case TypoTopFive => typo && !clean && 1 <= e.rank <= 5
    case CleanCases => clean
    case FalsePositives => clean && e.corrected
    case Overcorrections => clean && typoMode == "aggressive" && e.rank == 0
    case Latency(x) => !clean && e.latency == x
  }

  /** The numbers of a total that add up amounts. */
  datatype Measure = Distances | Lengths | NfkcDistances | NfkcLengths

  function Sum(m: Metrics, x: Measure): nat
  {
    match x
    case Distances => m.matches.distance
    case Lengths => m.matches.length
    case NfkcDistances => m.matches.nfkcDistance
    case NfkcLengths => m.matches.nfkcLength
  }

  function Amount(e: Evaluated, x: Measure): nat
  {
    if e.source.typo && e.source.typoType.None? then 0
    else match x
      case Distances => e.verdict.distance
      case Lengths => e.verdict.length
      case NfkcDistances => e.verdict.nfkcDistance
      case NfkcLengths => e.verdict.nfkcLength
  }

  /** One over the rank of a case that has one. */
  function RankPart(e: Evaluated): real
  {
    if (e.source.typo && e.source.typoType.None?) || e.rank == 0 then 0.0 else 1.0 / (e.rank as real)
  }

  /** All cases, or those whose first category is the given one, clean ones apart. */
  datatype Scope = Everything | Under(category: string)

  predicate InScope(e: Evaluated, scope: Scope)
  {
    scope.Everything? || (!(e.source.typo && e.source.typoType.None?) && |e.source.categories| > 0 &&
                          e.source.categories[0] == scope.category)
  }

  ghost function Hits(es: seq<Evaluated>, scope: Scope, c: Counter, typoMode: string): set<nat>
  {
    set i | 0 <= i < |es| && InScope(es[i], scope) && Hit(c, es[i], typoMode)
  }

  function Amounts(es: seq<Evaluated>, scope: Scope, x: Measure): nat
  {
    if es == [] then 0
    else Amounts(es[..|es| - 1], scope, x) + if InScope(es[|es| - 1], scope) then Amount(es[|es| - 1], x) else 0
  }

  function RankParts(es: seq<Evaluated>, scope: Scope): real
  {
    if es == [] then 0.0
    else RankParts(es[..|es| - 1], scope) + if InScope(es[|es| - 1], scope) then RankPart(es[|es| - 1]) else 0.0
  }

  /** The total counts exactly the cases each counter is for, and adds up exactly their amounts. */
  ghost predicate Tallies(m: Metrics, es: seq<Evaluated>, scope: Scope, typoMode: string)
  {
    (forall c :: Value(m, c) == |Hits(es, scope, c, typoMode)|) &&
    (forall x :: Sum(m, x) == Amounts(es, scope, x)) && m.ranks.reciprocal == RankParts(es, scope)
  }

  lemma {:induction false} ShareCounts(e: Evaluated, typoMode: string, c: Counter)
    ensures Value(Share(e, typoMode), c) == One(Hit(c, e, typoMode))
  {
  }

  lemma {:induction false} ShareSums(e: Evaluated, typoMode: string, x: Measure)
    ensures Sum(Share(e, typoMode), x) == Amount(e, x) && Share(e, typoMode).ranks.reciprocal == RankPart(e)
  {
  }

  lemma {:induction false} PlusCounters(a: Metrics, b: Metrics, c: Counter, x: Measure)
    ensures Value(Plus(a, b), c) == Value(a, c) + Value(b, c) && Sum(Plus(a, b), x) == Sum(a, x) + Sum(b, x)
    ensures Plus(a, b).ranks.reciprocal == a.ranks.reciprocal + b.ranks.reciprocal
  {
  }

  lemma {:induction false} HitsAppend(es: seq<Evaluated>, e: Evaluated, scope: Scope, c: Counter, typoMode: string)
    ensures |Hits(es + [e], scope, c, typoMode)| ==
            |Hits(es, scope, c, typoMode)| + One(InScope(e, scope) && Hit(c, e, typoMode))
  {
    hide InScope, Hit;
    var all, hits := es + [e], Hits(es, scope, c, typoMode);
    var more := Hits(all, scope, c, typoMode);
    var counted := InScope(all[|es|], scope) && Hit(c, all[|es|], typoMode);
    forall i | 0 <= i < |es| ensures i in more <==> i in hits { assert all[i] == es[i]; }
    assert |es| in more <==> counted;
    OneMore(hits, more, |es|, counted);
  }

  lemma {:induction false} OneMore(hits: set<nat>, more: set<nat>, n: nat, counted: bool)
    requires (forall i :: i in hits ==> i < n) && (forall i :: i in more ==> i <= n)
    requires (forall i :: 0 <= i < n ==> (i in more <==> i in hits)) && (n in more <==> counted)
    ensures |more| == |hits| + One(counted)
  {
    assert more == hits + if counted then {n} else {};
  }

  lemma {:induction false} SumsAppend(es: seq<Evaluated>, e: Evaluated, scope: Scope, x: Measure)
    ensures Amounts(es + [e], scope, x) == Amounts(es, scope, x) + if InScope(e, scope) then Amount(e, x) else 0
    ensures RankParts(es + [e], scope) == RankParts(es, scope) + if InScope(e, scope) then RankPart(e) else 0.0
  {
    hide InScope, Amount, RankPart;
    Sequences.ConcatParts(es, [e]);
  }

  lemma {:induction false} NothingTallied(scope: Scope, typoMode: string)
    ensures Tallies(ZERO, [], scope, typoMode)
  {
    forall c ensures Value(ZERO, c) == |Hits([], scope, c, typoMode)| {
      assert Hits([], scope, c, typoMode) == {};
    }
  }

  /** One more case is tallied by adding its share, or left alone outside the scope. */
  lemma {:induction false} TallyMore(m: Metrics, es: seq<Evaluated>, e: Evaluated, scope: Scope, typoMode: string)
    requires Tallies(m, es, scope, typoMode)
    ensures Tallies(if InScope(e, scope) then Plus(m, Share(e, typoMode)) else m, es + [e], scope, typoMode)
  {
    hide InScope, Hit, Plus, Share, Hits, Value, Sum, Amount, RankPart;
    var n := if InScope(e, scope) then Plus(m, Share(e, typoMode)) else m;
    forall c ensures Value(n, c) == |Hits(es + [e], scope, c, typoMode)| {
      HitsAppend(es, e, scope, c, typoMode);
      PlusCounters(m, Share(e, typoMode), c, Distances);
      ShareCounts(e, typoMode, c);
    }
    forall x ensures Sum(n, x) == Amounts(es + [e], scope, x) {
      SumsAppend(es, e, scope, x);
      PlusCounters(m, Share(e, typoMode), Cases, x);
      ShareSums(e, typoMode, x);
    }
    SumsAppend(es, e, scope, Distances);
    PlusCounters(m, Share(e, typoMode), Cases, Distances);
    ShareSums(e, typoMode, Distances);
  }

  lemma {:induction false} ScopeMeans(e: Evaluated, category: string)
    requires e.source.categories != []
    ensures InScope(e, Everything) && (InScope(e, Under(category)) <==> Counts(e, category))
  {
  }

  /** Every total of a run tallies the judged cases: the summary all of them, a category its own. */
  lemma {:induction false} TotalsTally(es: seq<Evaluated>, category: string, typoMode: string)
    requires AllSound(es)
    ensures Tallies(Total(es, typoMode), es, Everything, typoMode)
    ensures Tallies(Total(Of(es, category), typoMode), es, Under(category), typoMode)
    decreases |es|
  {
    hide Tallies, InScope, Counts, Plus, Share;
    if es == [] {
      NothingTallied(Everything, typoMode);
      NothingTallied(Under(category), typoMode);
    } else {
      var front, last := es[..|es| - 1], es[|es| - 1];
      Sequences.SliceSnoc(es, 0, |es| - 1);
      Sequences.WholeSlice(es);
      TotalsTally(front, category, typoMode);
      assert last.source.categories != [] by { assert Sound(last); }
      ScopeMeans(last, category);
      TallyMore(Total(front, typoMode), front, last, Everything, typoMode);
      TallyMore(Total(Of(front, category), typoMode), front, last, Under(category), typoMode);
      TotalAppend(Of(front, category), last, typoMode);
      assert Of(es, category) == Of(front, category) + if Counts(last, category) then [last] else [];
      assert Of(front, category) + [] == Of(front, category);
    }
  }

  // ----- The run -----

  class Aggregate {
    var count: nat
    var top1: nat
    var top3: nat
    var top5: nat
    var reciprocal: real
    var exact: nat
    var nfkcExact: nat
    var acceptable: nat
    var distance: nat
    var length: nat
    var nfkcDistance: nat
    var nfkcLength: nat
    var fidelity: nat
    var readings: nat
    var typos: nat
    var typoTop1: nat
    var typoTop5: nat
    var cleanCount: nat
    var falsePositive: nat
    var overcorrection: nat
    var latencies: seq<real>

    function RanksView(): Ranks
      reads this`count, this`top1, this`top3, this`top5, this`reciprocal
    {
      Ranks(count, top1, top3, top5, reciprocal)
    }

    function MatchesView(): Matches
      reads this`exact, this`nfkcExact, this`acceptable, this`distance, this`length, this`nfkcDistance, this`nfkcLength
    {
      Matches(exact, nfkcExact, acceptable, distance, length, nfkcDistance, nfkcLength)
    }

    function KindsView(): Kinds
      reads this`readings, this`fidelity, this`typos, this`typoTop1, this`typoTop5
    {
      Kinds(readings, fidelity, typos, typoTop1, typoTop5)
    }

    function CleansView(): Cleans
      reads this`cleanCount, this`falsePositive, this`overcorrection
    {
      Cleans(cleanCount, falsePositive, overcorrection)
    }

    function View(): Metrics
      reads this
    {
      Metrics(RanksView(), MatchesView(), KindsView(), CleansView(), multiset(latencies))
    }

    constructor ()
      ensures View() == ZERO && latencies == []
    {
      count, top1, top3, top5, reciprocal := 0, 0, 0, 0, 0.0;
      exact, nfkcExact, acceptable, distance, length, nfkcDistance, nfkcLength := 0, 0, 0, 0, 0, 0, 0;
      fidelity, readings, typos, typoTop1, typoTop5 := 0, 0, 0, 0, 0;
      cleanCount, falsePositive, overcorrection := 0, 0, 0;
      latencies := [];
    }

    method AddRank(e: Evaluated)
      modifies this`count, this`top1, this`top3, this`top5, this`reciprocal
      ensures RanksView() == PlusRanks(old(RanksView()), RankShare(e))
    {
      hide Reciprocal;
      count := count + 1;
      if e.rank == 1 { top1 := top1 + 1; }
      if e.rank > 0 && e.rank <= 3 { top3 := top3 + 1; }
      if e.rank > 0 && e.rank <= LIMIT { top5 := top5 + 1; }
      reciprocal := reciprocal + Reciprocal(e.rank);
    }

    method AddMatch(e: Evaluated)
      modifies this`exact, this`nfkcExact, this`acceptable, this`distance, this`length, this`nfkcDistance,
               this`nfkcLength
      ensures MatchesView() == PlusMatches(old(MatchesView()), MatchShare(e))
    {
      var m := e.verdict;
      exact := exact + One(m.exact);
      nfkcExact := nfkcExact + One(m.nfkcExact);
      acceptable := acceptable + One(m.acceptable);
      distance := distance + m.distance;
      length := length + m.length;
      nfkcDistance := nfkcDistance + m.nfkcDistance;
      nfkcLength := nfkcLength + m.nfkcLength;
    }

    method AddKind(e: Evaluated, primary: bool, typoMode: string)
      modifies this`readings, this`fidelity, this`typos, this`typoTop1, this`typoTop5, this`cleanCount,
               this`falsePositive, this`overcorrection
      ensures KindsView() == PlusKinds(old(KindsView()), KindShare(e, primary))
      ensures CleansView() == PlusCleans(old(CleansView()), CleanShare(e, typoMode))
    {
      if !e.source.typo {
        if primary {
          readings := readings + 1;
          fidelity := fidelity + One(e.fidelity);
        }
      } else if e.source.typoType.Some? {
        typos := typos + 1;
        typoTop1 := typoTop1 + One(e.rank == 1);
        typoTop5 := typoTop5 + One(e.rank > 0 && e.rank <= LIMIT);
      } else {
        cleanCount := cleanCount + 1;
        falsePositive := falsePositive + One(e.corrected);
        overcorrection := overcorrection + One(typoMode == "aggressive" && e.rank == 0);
      }
    }

    method AddPrimary(e: Evaluated)
      modifies this`count, this`top1, this`top3, this`top5, this`reciprocal, this`exact, this`nfkcExact,
               this`acceptable, this`distance, this`length, this`nfkcDistance, this`nfkcLength, this`latencies
      ensures RanksView() == PlusRanks(old(RanksView()), RankShare(e))
      ensures MatchesView() == PlusMatches(old(MatchesView()), MatchShare(e))
      ensures latencies == old(latencies) + [e.latency]
    {
      hide RankShare, MatchShare, PlusRanks, PlusMatches;
      AddRank(e);
      AddMatch(e);
      latencies := latencies + [e.latency];
    }

    method Add(e: Evaluated, primary: bool, typoMode: string)
      modifies this
      ensures View() == Plus(old(View()), Contribution(e, primary, typoMode))
      ensures latencies == old(latencies) + if primary then [e.latency] else []
    {
      hide RankShare, MatchShare, KindShare, CleanShare, PlusRanks, PlusMatches, PlusKinds, PlusCleans;
      hide Plus, Contribution;
      PlusNothing(View());
      ContributionParts(e, primary, typoMode);
      PushLatency(latencies, e.latency);
      if primary { AddPrimary(e); }
      AddKind(e, primary, typoMode);
      PlusParts(old(View()), Contribution(e, primary, typoMode), View());
    }
  }

  lemma {:induction false} ContributionParts(e: Evaluated, primary: bool, typoMode: string)
    ensures var c := Contribution(e, primary, typoMode);
            c.kinds == KindShare(e, primary) && c.cleans == CleanShare(e, typoMode) &&
            (primary ==> c.ranks == RankShare(e) && c.matches == MatchShare(e) && c.latencies == multiset{e.latency}) &&
            (!primary ==> c.ranks == ZERO.ranks && c.matches == ZERO.matches && c.latencies == multiset{})
  {
    hide RankShare, MatchShare, KindShare, CleanShare;
  }

  lemma {:induction false} PlusParts(a: Metrics, b: Metrics, m: Metrics)
    requires m.ranks == PlusRanks(a.ranks, b.ranks) && m.matches == PlusMatches(a.matches, b.matches)
    requires m.kinds == PlusKinds(a.kinds, b.kinds) && m.cleans == PlusCleans(a.cleans, b.cleans)
    requires m.latencies == a.latencies + b.latencies
    ensures m == Plus(a, b)
  {
    hide PlusRanks, PlusMatches, PlusKinds, PlusCleans;
  }

  lemma {:induction false} PushLatency(s: seq<real>, x: real)
    ensures multiset(s + [x]) == multiset(s) + multiset{x}
  {
  }

  // ----- The whole run -----

  datatype Report = Report(summary: Metrics, byCategory: map<string, Metrics>)

  function SumOf(order: seq<string>, groups: map<string, Metrics>): Metrics
    requires forall i :: 0 <= i < |order| ==> order[i] in groups
  {
    if order == [] then ZERO else Plus(groups[order[0]], SumOf(order[1..], groups))
  }

  /** `order` names every key once. */
  predicate Lists(order: seq<string>, keys: set<string>) { Distinct(order) && Named(order) == keys }

  function Named(order: seq<string>): set<string> { set i | 0 <= i < |order| :: order[i] }

  lemma {:induction false} SumOfIsSumBy(order: seq<string>, groups: map<string, Metrics>, es: seq<Evaluated>,
                                        typoMode: string)
    requires forall i :: 0 <= i < |order| ==> order[i] in groups
    requires forall c :: c in groups ==> groups[c] == Total(Of(es, c), typoMode)
    ensures SumOf(order, groups) == SumBy(order, es, typoMode)
  {
    hide Plus, Total, Of;
    if order != [] { SumOfIsSumBy(order[1..], groups, es, typoMode); }
  }

  /** The map holds the totals of exactly the categories that count some case. */
  ghost predicate Totals(groups: map<string, Metrics>, es: seq<Evaluated>, typoMode: string)
  {
    (forall c :: c in groups ==> groups[c] == Total(Of(es, c), typoMode) && Of(es, c) != []) &&
    (forall c :: c !in groups ==> Of(es, c) == [])
  }

  lemma {:induction false} CountedSomewhere(es: seq<Evaluated>, i: nat)
    requires i < |es| && !Clean(es[i])
    ensures Of(es, Category(es[i])) != []
    decreases |es|
  {
    hide Clean, Category;
    if i < |es| - 1 { CountedSomewhere(es[..|es| - 1], i); }
  }

  /** The summary's primary counters are the sums of the categories'. */
  lemma {:induction false} ReportSumsUp(report: Report, es: seq<Evaluated>, order: seq<string>, typoMode: string)
    requires report.summary == Total(es, typoMode) && Totals(report.byCategory, es, typoMode)
    requires Lists(order, report.byCategory.Keys)
    ensures forall i :: 0 <= i < |order| ==> order[i] in report.byCategory
    ensures WithoutCleans(report.summary) == SumOf(order, report.byCategory)
  {
    hide Plus, Total, Of, SumBy, SumOf, Clean, Category, WithoutCleans;
    forall i | 0 <= i < |order| ensures order[i] in report.byCategory { assert order[i] in Named(order); }
    forall i | 0 <= i < |es| && !Clean(es[i]) ensures Category(es[i]) in order {
      CountedSomewhere(es, i);
      assert Category(es[i]) in Named(order);
    }
    CategoriesSumUp(order, es, typoMode);
    SumOfIsSumBy(order, report.byCategory, es, typoMode);
  }

  lemma {:induction false} OfEmpty(es: seq<Evaluated>, category: string)
    requires AllSound(es)
    ensures Of(es, category) != [] <==> exists i :: 0 <= i < |es| && InScope(es[i], Under(category))
    decreases |es|
  {
    if es != [] {
      var front, last := es[..|es| - 1], es[|es| - 1];
      OfEmpty(front, category);
      assert Sound(last);
      ScopeMeans(last, category);
      hide InScope, Counts, Sound;
      if Counts(last, category) { assert InScope(es[|es| - 1], Under(category)); }
      if i :| 0 <= i < |front| && InScope(front[i], Under(category)) { assert es[i] == front[i]; }
      if i :| 0 <= i < |es| && InScope(es[i], Under(category)) && !InScope(last, Under(category)) {
        assert front[i] == es[i];
      }
    }
  }

  lemma {:induction false} ReportLaws(report: Report, es: seq<Evaluated>, typoMode: string)
    requires report.summary == Total(es, typoMode) && Totals(report.byCategory, es, typoMode) && AllSound(es)
    ensures Lawful(report.summary) && forall c :: c in report.byCategory ==> Lawful(report.byCategory[c])
    ensures Tallies(report.summary, es, Everything, typoMode)
    ensures forall c :: c in report.byCategory ==> Tallies(report.byCategory[c], es, Under(c), typoMode)
    ensures forall c :: c in report.byCategory <==> exists i :: 0 <= i < |es| && InScope(es[i], Under(c))
    ensures report.summary.ranks.count + report.summary.cleans.count == |es|
    ensures forall order :: Lists(order, report.byCategory.Keys) ==>
      (forall i :: 0 <= i < |order| ==> order[i] in report.byCategory) &&
      WithoutCleans(report.summary) == SumOf(order, report.byCategory)
  {
    hide Total, Of, Lawful, Lists, SumOf, WithoutCleans, AllSound, Tallies;
    TotalLawful(es, typoMode);
    TotalsTally(es, "", typoMode);
    forall c | c in report.byCategory ensures Tallies(report.byCategory[c], es, Under(c), typoMode) {
      TotalsTally(es, c, typoMode);
    }
    forall c ensures c in report.byCategory <==> exists i :: 0 <= i < |es| && InScope(es[i], Under(c)) {
      OfEmpty(es, c);
    }
    forall c | c in report.byCategory ensures Lawful(report.byCategory[c]) {
      OfSound(es, c);
      TotalLawful(Of(es, c), typoMode);
    }
    forall order | Lists(order, report.byCategory.Keys)
      ensures (forall i :: 0 <= i < |order| ==> order[i] in report.byCategory) &&
              WithoutCleans(report.summary) == SumOf(order, report.byCategory)
    {
      ReportSumsUp(report, es, order, typoMode);
    }
  }

  /** One aggregate object per category. */
  ghost predicate Separate(groups: map<string, Aggregate>)
  {
    forall c, d :: c in groups && d in groups && c != d ==> groups[c] != groups[d]
  }

  ghost predicate Hold(groups: map<string, Aggregate>, es: seq<Evaluated>, typoMode: string)
    reads groups.Values
  {
    (forall c :: c in groups ==> groups[c].View() == Total(Of(es, c), typoMode) && Of(es, c) != []) &&
    (forall c :: c !in groups ==> Of(es, c) == [])
  }

  lemma {:induction false} NextOf(es: seq<Evaluated>, e: Evaluated, typoMode: string)
    requires !Clean(e)
    ensures forall c :: c != Category(e) ==> Of(es + [e], c) == Of(es, c)
    ensures Of(es + [e], Category(e)) != []
    ensures Total(Of(es + [e], Category(e)), typoMode) ==
            Plus(Total(Of(es, Category(e)), typoMode), Contribution(e, true, typoMode))
    ensures Total([], typoMode) == ZERO
  {
    hide Plus, Contribution, Of, Category, Clean;
    forall c | c != Category(e) ensures Of(es + [e], c) == Of(es, c) { OfAppend(es, e, c); }
    OfAppend(es, e, Category(e));
    TotalAppend(Of(es, Category(e)), e, typoMode);
  }

  /** Adds a case to its category's aggregate, which is made when it is the first of its kind. */
  method AddToCategory(groups: map<string, Aggregate>, e: Evaluated, typoMode: string, ghost es: seq<Evaluated>)
    returns (r: map<string, Aggregate>)
    requires !Clean(e) && Separate(groups) && Hold(groups, es, typoMode)
    modifies groups.Values
    ensures Separate(r) && Hold(r, es + [e], typoMode)
    ensures forall c :: c in r ==> (c in groups && r[c] == groups[c]) || fresh(r[c])
  {
    hide Plus, Total, Of, Category, Clean, Contribution, Aggregate.View;
    NextOf(es, e, typoMode);
    r := groups;
    var c := Category(e);
    if c !in r {
      var empty := new Aggregate();
      r := r[c := empty];
    }
    assert Separate(r);
    r[c].Add(e, true, typoMode);
    assert forall d :: d in r && d != c ==> r[d].View() == Total(Of(es + [e], d), typoMode) && Of(es + [e], d) != [];
  }

  lemma {:induction false} CleanAddsNowhere(es: seq<Evaluated>, e: Evaluated)
    requires Clean(e)
    ensures forall c :: Of(es + [e], c) == Of(es, c)
  {
    forall c ensures Of(es + [e], c) == Of(es, c) { OfAppend(es, e, c); }
  }

  /** Adds a case to the summary and, unless it is clean, to its category. */
  method AddCase(summary: Aggregate, groups: map<string, Aggregate>, e: Evaluated, typoMode: string,
                 ghost es: seq<Evaluated>)
    returns (r: map<string, Aggregate>)
    requires summary !in groups.Values && Separate(groups) && Hold(groups, es, typoMode)
    requires summary.View() == Total(es, typoMode)
    modifies summary, groups.Values
    ensures summary.View() == Total(es + [e], typoMode) && Separate(r) && Hold(r, es + [e], typoMode)
    ensures forall c :: c in r ==> (c in groups && r[c] == groups[c]) || fresh(r[c])
  {
    hide Plus, Total, Of, Clean, Contribution, Separate, Aggregate.View;
    TotalAppend(es, e, typoMode);
    summary.Add(e, !Clean(e), typoMode);
    r := groups;
    if Clean(e) {
      CleanAddsNowhere(es, e);
    } else {
      r := AddToCategory(groups, e, typoMode, es);
    }
  }

  ghost predicate CanJudge(item: Case, answer: Answer, nBest: nat, normalize: Bytes -> Option<Bytes>)
  {
    Readable(Top(Kept(answer.candidates, nBest)), normalize) && Readable(item.expected, normalize)
  }

  method RunConversionQualityEvaluation(cases: seq<Case>, answers: seq<Answer>, nBest: nat, typoMode: string,
                                        normalize: Bytes -> Option<Bytes>)
    returns (r: Option<Report>, ghost es: seq<Evaluated>)
    requires |answers| == |cases| && forall i :: 0 <= i < |cases| ==> CaseOk(cases[i])
    ensures r.Some? <==> 1 <= nBest <= LIMIT && typoMode == "off" && cases != [] &&
                         forall i :: 0 <= i < |cases| ==> CanJudge(cases[i], answers[i], nBest, normalize)
    ensures r.Some? ==> |es| == |cases| && forall i :: 0 <= i < |cases| ==>
      Evaluates(es[i], cases[i], answers[i], nBest, normalize)
    ensures r.Some? ==> r.value.summary == Total(es, typoMode) && Totals(r.value.byCategory, es, typoMode)
    ensures r.Some? ==> Tallies(r.value.summary, es, Everything, typoMode)
    ensures r.Some? ==> forall c :: c in r.value.byCategory ==> Tallies(r.value.byCategory[c], es, Under(c), typoMode)
    ensures r.Some? ==> forall c :: c in r.value.byCategory <==> exists i :: 0 <= i < |es| && InScope(es[i], Under(c))
    ensures r.Some? ==> Lawful(r.value.summary) && forall c :: c in r.value.byCategory ==> Lawful(r.value.byCategory[c])
    ensures r.Some? ==> r.value.summary.ranks.count + r.value.summary.cleans.count == |cases|
    ensures r.Some? ==> forall order :: Lists(order, r.value.byCategory.Keys) ==>
      (forall i :: 0 <= i < |order| ==> order[i] in r.value.byCategory) &&
      WithoutCleans(r.value.summary) == SumOf(order, r.value.byCategory)
  {
    hide Plus, Total, Of, Category, Clean, Sound, CaseOk, Evaluates, Readable, Contribution, Lawful, Lists;
    hide SumOf, WithoutCleans, Separate, Aggregate.View;
    hide Hold, Totals, CanJudge, Tallies, InScope;
    es := [];
    if nBest == 0 || nBest > LIMIT || typoMode != "off" || cases == [] { return None, es; }
    var summary := new Aggregate();
    var groups: map<string, Aggregate> := map[];
    NothingYet(groups, typoMode);
    var k := 0;
    while k < |cases|
      invariant k <= |cases| && |es| == k && AllSound(es)
      invariant forall i :: 0 <= i < k ==> Evaluates(es[i], cases[i], answers[i], nBest, normalize)
      invariant forall i :: 0 <= i < k ==> CanJudge(cases[i], answers[i], nBest, normalize)
      invariant fresh(summary) && forall c :: c in groups ==> fresh(groups[c]) && groups[c] != summary
      invariant summary.View() == Total(es, typoMode)
      invariant Separate(groups) && Hold(groups, es, typoMode)
    {
      var one := EvaluateCase(cases[k], answers[k], nBest, normalize);
      if one.None? {
        assert !CanJudge(cases[k], answers[k], nBest, normalize) by {
          JudgedMeans(cases[k], answers[k], nBest, normalize);
        }
        return None, es;
      }
      JudgedMeans(cases[k], answers[k], nBest, normalize);
      EvaluatedIsSound(one.value, cases[k], answers[k], nBest, normalize);
      groups := AddCase(summary, groups, one.value, typoMode, es);
      es := es + [one.value];
      k := k + 1;
    }
    var report := Report(summary.View(), map c | c in groups :: groups[c].View());
    HoldMeansTotals(groups, es, typoMode);
    ReportLaws(report, es, typoMode);
    return Some(report), es;
  }

  lemma {:induction false} JudgedMeans(item: Case, answer: Answer, nBest: nat, normalize: Bytes -> Option<Bytes>)
    ensures CanJudge(item, answer, nBest, normalize) <==>
            Readable(Top(Kept(answer.candidates, nBest)), normalize) && Readable(item.expected, normalize)
  {
  }

  lemma {:induction false} HoldMeansTotals(groups: map<string, Aggregate>, es: seq<Evaluated>, typoMode: string)
    requires Hold(groups, es, typoMode)
    ensures Totals(map c | c in groups :: groups[c].View(), es, typoMode)
  {
    hide Total, Of, Aggregate.View;
  }

  lemma {:induction false} NothingYet(groups: map<string, Aggregate>, typoMode: string)
    requires groups == map[]
    ensures Separate(groups) && Total([], typoMode) == ZERO && Hold(groups, [], typoMode)
  {
  }
}
