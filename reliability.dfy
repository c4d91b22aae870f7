/**
 * The Espresso reliability scorer: instance reliability `r_i`, pattern
 * reliability `r_p` and instance confidence `S`, computed from discounted
 * PMI and the past scores held in the candidate store.
 */
module Reliability {
  import opened Wrappers
  import opened CandidateStore
  import opened Sums

  type PositiveReal = r: real | r > 0.0 witness 1.0

  /**
   * The co-occurrence oracle: the discounted PMI of an instance with a
   * pattern, and the largest PMI of the corpus, used as the normaliser.
   */
  datatype Pmi = Pmi(dpmi: (Instance, Pattern) -> real, maxPmi: PositiveReal)

  /** The divisions by zero the scorer runs into. */
  datatype Error =
    | EmptyPromotedSet  // r_i or r_p over an empty promoted set divides by its length 0
    | ZeroTotalScore    // S over patterns whose past scores sum to 0 divides by that sum

  /** `_r_i` as a function over instances: the past score of each instance. */
  function InstanceWeight(store: Store): Instance -> real
  {
    i => PastScore(store.instances, i)
  }

  /** `_r_p` as a function over patterns: the past score of each pattern. */
  function PatternWeight(store: Store): Pattern -> real
  {
    p => PastScore(store.patterns, p)
  }

  /** The summand of `r_i(i, P)` for pattern `p`: `dpmi(i, p) * past(p) / max_pmi`. */
  function InstanceTerm(pmi: Pmi, past: Pattern -> real, i: Instance): Pattern -> real
  {
    p => pmi.dpmi(i, p) * past(p) / pmi.maxPmi
  }

  /** The summand of `r_p(I, p)` for instance `i`: `dpmi(i, p) * past(i) / max_pmi`. */
  function PatternTerm(pmi: Pmi, past: Instance -> real, p: Pattern): Instance -> real
  {
    i => pmi.dpmi(i, p) * past(i) / pmi.maxPmi
  }

  /** `r_i(i, P)`: the mean of the instance terms over the promoted patterns `P`. */
  function InstanceReliability(store: Store, pmi: Pmi, i: Instance, P: seq<Pattern>): (r: Result<real, Error>)
    ensures r.Failure? <==> |P| == 0
    ensures r.Failure? ==> r.error == EmptyPromotedSet
  {
    var total := SumOf(P, InstanceTerm(pmi, PatternWeight(store), i));
    if |P| == 0 then Failure(EmptyPromotedSet) else Success(total / |P| as real)
  }

  /** `r_p(I, p)`: the mean of the pattern terms over the promoted instances `I`. */
  function PatternReliability(store: Store, pmi: Pmi, I: seq<Instance>, p: Pattern): (r: Result<real, Error>)
    ensures r.Failure? <==> |I| == 0
    ensures r.Failure? ==> r.error == EmptyPromotedSet
  {
    var total := SumOf(I, PatternTerm(pmi, InstanceWeight(store), p));
    if |I| == 0 then Failure(EmptyPromotedSet) else Success(total / |I| as real)
  }

  /** `T` of `S(i, P)`: the sum of the past scores of the patterns in `P`. */
  function TotalPatternScore(store: Store, P: seq<Pattern>): (t: real)
    ensures |P| == 0 ==> t == 0.0
    ensures (forall p :: p in P ==> 0.0 <= PastScore(store.patterns, p)) ==> 0.0 <= t
  {
    SumOfNonNegative(P, PatternWeight(store));
    SumOf(P, PatternWeight(store))
  }

  /** The past-score weighted dpmi of `i` with `p`: `dpmi(i, p) * past(p)`. */
  function SupportTerm(pmi: Pmi, past: Pattern -> real, i: Instance): Pattern -> real
  {
    p => pmi.dpmi(i, p) * past(p)
  }

  /** The summand of `S(i, P)` for pattern `p`: `dpmi(i, p) * past(p) / T`. */
  function ConfidenceTerm(pmi: Pmi, past: Pattern -> real, i: Instance, total: real): Pattern -> real
    requires total != 0.0
  {
    p => pmi.dpmi(i, p) * past(p) / total
  }

  /**
   * `S(i, P)`: the confidence in instance `i`. It fails exactly when `P` is
   * non-empty and the past scores of its patterns sum to 0; for an empty `P`
   * nothing is divided and the result is 0.
   */
  function Confidence(store: Store, pmi: Pmi, i: Instance, P: seq<Pattern>): (r: Result<real, Error>)
    ensures r.Failure? <==> |P| > 0 && TotalPatternScore(store, P) == 0.0
    ensures r.Failure? ==> r.error == ZeroTotalScore
    ensures |P| == 0 ==> r == Success(0.0)
  {
    var total := TotalPatternScore(store, P);
    if total == 0.0 then
      if |P| == 0 then Success(0.0) else Failure(ZeroTotalScore)
    else
      Success(SumOf(P, ConfidenceTerm(pmi, PatternWeight(store), i, total)))
  }

  /** One summand of `r_i(i, P)` lies in [0, 1] when `dpmi` and the past score of `p` are in range. */
  lemma InstanceTermInUnitRange(pmi: Pmi, past: Pattern -> real, i: Instance, p: Pattern)
    requires 0.0 <= pmi.dpmi(i, p) <= pmi.maxPmi && 0.0 <= past(p) <= 1.0
    ensures 0.0 <= InstanceTerm(pmi, past, i)(p) <= 1.0
  {
    var d, w, m := pmi.dpmi(i, p), past(p), pmi.maxPmi;
    NormalisedProductInUnitRange(d, w, m);
    assert InstanceTerm(pmi, past, i)(p) == d * w / m;
  }

  /** One summand of `r_p(I, p)` lies in [0, 1] when `dpmi` and the past score of `i` are in range. */
  lemma PatternTermInUnitRange(pmi: Pmi, past: Instance -> real, p: Pattern, i: Instance)
    requires 0.0 <= pmi.dpmi(i, p) <= pmi.maxPmi && 0.0 <= past(i) <= 1.0
    ensures 0.0 <= PatternTerm(pmi, past, p)(i) <= 1.0
  {
    var d, w, m := pmi.dpmi(i, p), past(i), pmi.maxPmi;
    NormalisedProductInUnitRange(d, w, m);
    assert PatternTerm(pmi, past, p)(i) == d * w / m;
  }

  /** Each summand of `r_i(i, P)` lies in [0, 1] when `dpmi` and the past scores are in range. */
  lemma InstanceTermsInUnitRange(pmi: Pmi, past: Pattern -> real, i: Instance, P: seq<Pattern>)
    requires forall p :: p in P ==> 0.0 <= pmi.dpmi(i, p) <= pmi.maxPmi && 0.0 <= past(p) <= 1.0
    ensures forall p :: p in P ==> 0.0 <= InstanceTerm(pmi, past, i)(p) <= 1.0
  {
    forall p | p in P
      ensures 0.0 <= InstanceTerm(pmi, past, i)(p) <= 1.0
    {
      InstanceTermInUnitRange(pmi, past, i, p);
    }
  }

  /** Each summand of `r_p(I, p)` lies in [0, 1] when `dpmi` and the past scores are in range. */
  lemma PatternTermsInUnitRange(pmi: Pmi, past: Instance -> real, I: seq<Instance>, p: Pattern)
    requires forall i :: i in I ==> 0.0 <= pmi.dpmi(i, p) <= pmi.maxPmi && 0.0 <= past(i) <= 1.0
    ensures forall i :: i in I ==> 0.0 <= PatternTerm(pmi, past, p)(i) <= 1.0
  {
    forall i | i in I
      ensures 0.0 <= PatternTerm(pmi, past, p)(i) <= 1.0
    {
      PatternTermInUnitRange(pmi, past, p, i);
    }
  }

  /**
   * With `dpmi` in [0, max_pmi] on `P` and the past score of every pattern
   * of `P` in [0, 1], `r_i(i, P)` lies in [0, 1].
   */
  lemma InstanceReliabilityInUnitRange(store: Store, pmi: Pmi, i: Instance, P: seq<Pattern>)
    requires |P| > 0
    requires forall p :: p in P ==> 0.0 <= pmi.dpmi(i, p) <= pmi.maxPmi
    requires forall p :: p in P ==> 0.0 <= PastScore(store.patterns, p) <= 1.0
    ensures 0.0 <= InstanceReliability(store, pmi, i, P).value <= 1.0
  {
    var term := InstanceTerm(pmi, PatternWeight(store), i);
    InstanceTermsInUnitRange(pmi, PatternWeight(store), i, P);
    SumOfBounded(P, term, 0.0, 1.0);
    MeanInUnitRange(SumOf(P, term), |P|);
  }

  /**
   * With `dpmi` in [0, max_pmi] on `I` and the past score of every instance
   * of `I` in [0, 1], `r_p(I, p)` lies in [0, 1].
   */
  lemma PatternReliabilityInUnitRange(store: Store, pmi: Pmi, I: seq<Instance>, p: Pattern)
    requires |I| > 0
    requires forall i :: i in I ==> 0.0 <= pmi.dpmi(i, p) <= pmi.maxPmi
    requires forall i :: i in I ==> 0.0 <= PastScore(store.instances, i) <= 1.0
    ensures 0.0 <= PatternReliability(store, pmi, I, p).value <= 1.0
  {
    var term := PatternTerm(pmi, InstanceWeight(store), p);
    PatternTermsInUnitRange(pmi, InstanceWeight(store), I, p);
    SumOfBounded(I, term, 0.0, 1.0);
    MeanInUnitRange(SumOf(I, term), |I|);
  }

  /** `r_i(i, P)` does not depend on the order of the promoted patterns. */
  lemma InstanceReliabilityPermutation(store: Store, pmi: Pmi, i: Instance, P: seq<Pattern>, Q: seq<Pattern>)
    requires multiset(P) == multiset(Q)
    ensures InstanceReliability(store, pmi, i, P) == InstanceReliability(store, pmi, i, Q)
  {
    assert |P| == |multiset(P)| == |multiset(Q)| == |Q|;
    SumOfPermutation(P, Q, InstanceTerm(pmi, PatternWeight(store), i));
  }

  /** `r_p(I, p)` does not depend on the order of the promoted instances. */
  lemma PatternReliabilityPermutation(store: Store, pmi: Pmi, I: seq<Instance>, J: seq<Instance>, p: Pattern)
    requires multiset(I) == multiset(J)
    ensures PatternReliability(store, pmi, I, p) == PatternReliability(store, pmi, J, p)
  {
    assert |I| == |multiset(I)| == |multiset(J)| == |J|;
    SumOfPermutation(I, J, PatternTerm(pmi, InstanceWeight(store), p));
  }

  /**
   * `r_i(i, P)` reads the store only through the past scores of the
   * patterns in `P`: two stores that agree on those give the same result.
   */
  lemma InstanceReliabilityReadsPastScores(store: Store, other: Store, pmi: Pmi, i: Instance, P: seq<Pattern>)
    requires forall p :: p in P ==> PastScore(store.patterns, p) == PastScore(other.patterns, p)
    ensures InstanceReliability(store, pmi, i, P) == InstanceReliability(other, pmi, i, P)
  {
    var past, otherPast := PatternWeight(store), PatternWeight(other);
    assert forall p :: p in P ==> past(p) == otherPast(p);
    TermsAgree(pmi, past, otherPast, i, P);
    SumOfCongruent(P, InstanceTerm(pmi, past, i), InstanceTerm(pmi, otherPast, i));
  }

  /** Instance terms over past scores that agree on `P` agree on `P`. */
  lemma TermsAgree(pmi: Pmi, past: Pattern -> real, otherPast: Pattern -> real, i: Instance, P: seq<Pattern>)
    requires forall p :: p in P ==> past(p) == otherPast(p)
    ensures forall p :: p in P ==> InstanceTerm(pmi, past, i)(p) == InstanceTerm(pmi, otherPast, i)(p)
  {
  }

  /**
   * `r_p(I, p)` reads the store only through the past scores of the
   * instances in `I`: two stores that agree on those give the same result.
   */
  lemma PatternReliabilityReadsPastScores(store: Store, other: Store, pmi: Pmi, I: seq<Instance>, p: Pattern)
    requires forall i :: i in I ==> PastScore(store.instances, i) == PastScore(other.instances, i)
    ensures PatternReliability(store, pmi, I, p) == PatternReliability(other, pmi, I, p)
  {
    var past, otherPast := InstanceWeight(store), InstanceWeight(other);
    assert forall i :: i in I ==> past(i) == otherPast(i);
    PatternTermsAgree(pmi, past, otherPast, I, p);
    SumOfCongruent(I, PatternTerm(pmi, past, p), PatternTerm(pmi, otherPast, p));
  }

  /** Pattern terms over past scores that agree on `I` agree on `I`. */
  lemma PatternTermsAgree(pmi: Pmi, past: Instance -> real, otherPast: Instance -> real, I: seq<Instance>, p: Pattern)
    requires forall i :: i in I ==> past(i) == otherPast(i)
    ensures forall i :: i in I ==> PatternTerm(pmi, past, p)(i) == PatternTerm(pmi, otherPast, p)(i)
  {
  }

  /**
   * The doc-comment formula (1) with the normaliser taken out:
   * `r_i(i, P) = (sum of dpmi(i, p) * _r_p(p)) / (max_pmi * |P|)`.
   */
  lemma InstanceReliabilityFactored(store: Store, pmi: Pmi, i: Instance, P: seq<Pattern>)
    requires |P| > 0
    ensures InstanceReliability(store, pmi, i, P).value
         == SumOf(P, SupportTerm(pmi, PatternWeight(store), i)) / (pmi.maxPmi * |P| as real)
  {
    FactoredSum(pmi, PatternWeight(store), i, P);
  }

  /** The sum of the instance terms is the support divided by `max_pmi`. */
  lemma FactoredSum(pmi: Pmi, past: Pattern -> real, i: Instance, P: seq<Pattern>)
    requires |P| > 0
    ensures SumOf(P, InstanceTerm(pmi, past, i)) / |P| as real
         == SumOf(P, SupportTerm(pmi, past, i)) / (pmi.maxPmi * |P| as real)
  {
    var m, n := pmi.maxPmi, |P| as real;
    var term, support := InstanceTerm(pmi, past, i), SupportTerm(pmi, past, i);
    forall p | p in P
      ensures term(p) == support(p) / m
    {
    }
    SumOfDivided(P, support, term, m);
    var terms, supports := SumOf(P, term), SumOf(P, support);
    DivisionTwice(terms, supports, m, n);
  }

  /**
   * `S(i, P)` is the support of `i` normalised by `T`: the sum of
   * `dpmi(i, p) * _r_p(p)` divided by the sum of `_r_p(p)`.
   */
  lemma ConfidenceNormalised(store: Store, pmi: Pmi, i: Instance, P: seq<Pattern>)
    requires TotalPatternScore(store, P) != 0.0
    ensures Confidence(store, pmi, i, P)
         == Success(SumOf(P, SupportTerm(pmi, PatternWeight(store), i)) / TotalPatternScore(store, P))
  {
    var total := TotalPatternScore(store, P);
    var past := PatternWeight(store);
    SumOfDivided(P, SupportTerm(pmi, past, i), ConfidenceTerm(pmi, past, i, total), total);
  }

  /** `S(i, P)` fails when every pattern of a non-empty `P` has past score 0. */
  lemma ConfidenceWithoutHistoryFails(store: Store, pmi: Pmi, i: Instance, P: seq<Pattern>)
    requires |P| > 0
    requires forall p :: p in P ==> PastScore(store.patterns, p) == 0.0
    ensures Confidence(store, pmi, i, P) == Failure(ZeroTotalScore)
  {
    var past := PatternWeight(store);
    assert forall p :: p in P ==> past(p) == 0.0;
    SumOfBounded(P, past, 0.0, 0.0);
  }

  /**
   * With non-negative past pattern scores, `S(i, P)` is a weighted average
   * of the `dpmi(i, p)`: it lies between any bounds of those values.
   */
  lemma ConfidenceBetween(store: Store, pmi: Pmi, i: Instance, P: seq<Pattern>, lo: real, hi: real)
    requires forall p :: p in P ==> 0.0 <= PastScore(store.patterns, p)
    requires TotalPatternScore(store, P) != 0.0
    requires forall p :: p in P ==> lo <= pmi.dpmi(i, p) <= hi
    ensures lo <= Confidence(store, pmi, i, P).value <= hi
  {
    var past := PatternWeight(store);
    assert forall p :: p in P ==> past(p) == PastScore(store.patterns, p);
    ConfidenceNormalised(store, pmi, i, P);
    NormalisedSupportBetween(pmi, past, i, P, lo, hi);
  }

  /**
   * With non-negative past scores of non-zero sum and `dpmi(i, p)` in
   * [lo, hi] on `P`, the support divided by that sum lies in [lo, hi].
   */
  lemma NormalisedSupportBetween(pmi: Pmi, past: Pattern -> real, i: Instance, P: seq<Pattern>, lo: real, hi: real)
    requires forall p :: p in P ==> 0.0 <= past(p) && lo <= pmi.dpmi(i, p) <= hi
    requires SumOf(P, past) != 0.0
    ensures lo <= SumOf(P, SupportTerm(pmi, past, i)) / SumOf(P, past) <= hi
  {
    SupportBetween(pmi, past, i, P, lo, hi);
    var support, total := SumOf(P, SupportTerm(pmi, past, i)), SumOf(P, past);
    assert total > 0.0;
    QuotientBetween(support, total, lo, hi);
  }

  /**
   * With non-negative past scores and `dpmi(i, p)` in [lo, hi] on `P`, the
   * sum of the past scores is non-negative and the support lies between
   * `lo` and `hi` times it.
   */
  lemma SupportBetween(pmi: Pmi, past: Pattern -> real, i: Instance, P: seq<Pattern>, lo: real, hi: real)
    requires forall p :: p in P ==> 0.0 <= past(p) && lo <= pmi.dpmi(i, p) <= hi
    ensures 0.0 <= SumOf(P, past)
    ensures lo * SumOf(P, past) <= SumOf(P, SupportTerm(pmi, past, i)) <= hi * SumOf(P, past)
  {
    forall p | p in P
      ensures lo * past(p) <= SupportTerm(pmi, past, i)(p) <= hi * past(p)
    {
      SupportTermBetween(pmi, past, i, p, lo, hi);
    }
    SumOfWeightedBetween(P, past, SupportTerm(pmi, past, i), lo, hi);
  }

  /** `lo * past(p) <= dpmi(i, p) * past(p) <= hi * past(p)` for `dpmi(i, p)` in [lo, hi]. */
  lemma SupportTermBetween(pmi: Pmi, past: Pattern -> real, i: Instance, p: Pattern, lo: real, hi: real)
    requires 0.0 <= past(p) && lo <= pmi.dpmi(i, p) <= hi
    ensures lo * past(p) <= SupportTerm(pmi, past, i)(p) <= hi * past(p)
  {
    var d, w := pmi.dpmi(i, p), past(p);
    WeightedBetween(d, w, lo, hi);
    assert SupportTerm(pmi, past, i)(p) == d * w;
  }

  /**
   * The first-iteration pattern score of a one-seed run: seed
   * ("paris", "france") stored with score 1.0, `dpmi` 2.0 and `max_pmi`
   * 4.0 give the candidate pattern reliability (2.0 * 1.0 / 4.0) / 1 = 0.5.
   */
  lemma CapitalOfExample(pmi: Pmi)
    requires pmi.maxPmi == 4.0
    requires pmi.dpmi(["paris", "france"], "X is the capital of Y") == 2.0
    ensures PatternReliability(
              Store(Records([Stored(["paris", "france"], 0, Some(1.0))]), Records([])),
              pmi, [["paris", "france"]], "X is the capital of Y")
         == Success(0.5)
  {
    var store := Store(Records([Stored(["paris", "france"], 0, Some(1.0))]), Records([]));
    assert PastScore(store.instances, ["paris", "france"]) == 1.0;
  }
}
