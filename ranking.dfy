/**
 * The two rankers: `rank_patterns` and `rank_instances` build one record per
 * candidate, tagged with the iteration number and the candidate's
 * reliability, and sort the records in place, highest score first, ties in
 * candidate order. The promotion step keeps the first `n` of a ranked list.
 */
module Ranking {
  import opened Wrappers
  import opened CandidateStore
  import opened Reliability
  import opened Records
  import opened ScoreSort

  /**
   * The records `rank_patterns` builds before sorting: `{rel: p, it: it,
   * score: r_p(I, p)}` for each candidate pattern `p` of `P`, in order.
   */
  function PatternRecords(store: Store, pmi: Pmi, I: seq<Instance>, P: seq<Pattern>, it: int): (rs: seq<RankedPattern>)
    requires |I| > 0 || |P| == 0
    ensures |rs| == |P|
    ensures forall k :: 0 <= k < |P| ==>
      rs[k].rel == P[k] && rs[k].it == it && PatternReliability(store, pmi, I, P[k]) == Success(rs[k].score)
  {
    seq(|P|, k requires 0 <= k < |P| => RankedPattern(P[k], it, PatternReliability(store, pmi, I, P[k]).value))
  }

  /**
   * The records `rank_instances` appends before sorting: the flattened
   * tuple of each candidate instance `i` of `I`, `it` and `r_i(i, P)`, in order.
   */
  function InstanceRecords(store: Store, pmi: Pmi, I: seq<Instance>, P: seq<Pattern>, it: int): (rs: seq<RankedInstance>)
    requires |P| > 0 || |I| == 0
    ensures |rs| == |I|
    ensures forall k :: 0 <= k < |I| ==>
      rs[k].args == Flatten(I[k]) && Unflatten(rs[k].args, |I[k]|) == Some(I[k]) &&
      rs[k].it == it && InstanceReliability(store, pmi, I[k], P) == Success(rs[k].score)
  {
    var rs := seq(|I|, k requires 0 <= k < |I| => RankedInstance(Flatten(I[k]), it, InstanceReliability(store, pmi, I[k], P).value));
    assert forall k :: 0 <= k < |I| ==> Unflatten(rs[k].args, |I[k]|) == Some(I[k]) by {
      forall k | 0 <= k < |I| ensures Unflatten(rs[k].args, |I[k]|) == Some(I[k]) {
        FlattenRoundTrip(I[k]);
      }
    }
    rs
  }

  /** The instance records one candidate further on. */
  lemma InstanceRecordsStep(store: Store, pmi: Pmi, I: seq<Instance>, P: seq<Pattern>, it: int, k: nat)
    requires |P| > 0 && k < |I|
    ensures InstanceRecords(store, pmi, I, P, it)[..k + 1]
         == InstanceRecords(store, pmi, I, P, it)[..k] + [RankedInstance(Flatten(I[k]), it, InstanceReliability(store, pmi, I[k], P).value)]
  {
    var rs := InstanceRecords(store, pmi, I, P, it);
    var x := RankedInstance(Flatten(I[k]), it, InstanceReliability(store, pmi, I[k], P).value);
    assert rs[k] == x;
    assert rs[..k + 1] == rs[..k] + [x];
  }

  /** A copy of `s` in a fresh array, for the in-place sort. */
  method ToArray<T>(s: seq<T>) returns (a: array<T>)
    ensures fresh(a) && a[..] == s
  {
    a := new T[|s|](k requires 0 <= k < |s| => s[k]);
  }

  /**
   * `rank_patterns(I, P, it)`: the candidate patterns `P` ranked by their
   * reliability against the promoted instances `I`. Fails exactly when a
   * reliability is computed over an empty `I`; otherwise holds one record
   * per candidate, each tagged `it` and scored `r_p(I, p)`, as a stable
   * sort of the records into non-increasing score order.
   */
  method RankPatterns(store: Store, pmi: Pmi, I: seq<Instance>, P: seq<Pattern>, it: int)
    returns (r: Result<seq<RankedPattern>, Error>)
    ensures r.Failure? <==> |I| == 0 && |P| > 0
    ensures r.Failure? ==> r.error == EmptyPromotedSet
    ensures r.Success? ==> r.value == SortDesc(PatternRecords(store, pmi, I, P, it), PatternScore)
    ensures r.Success? ==> |r.value| == |P| && SortedDesc(r.value, PatternScore)
    ensures r.Success? ==> multiset(r.value) == multiset(PatternRecords(store, pmi, I, P, it))
    ensures r.Success? ==> forall v :: Tied(r.value, PatternScore, v) == Tied(PatternRecords(store, pmi, I, P, it), PatternScore, v)
  {
    if |I| == 0 && |P| > 0 {
      return Failure(EmptyPromotedSet);
    }
    var rs := PatternRecords(store, pmi, I, P, it);
    var a := ToArray(rs);
    SortByScore(a, PatternScore);
    r := Success(a[..]);
    SortDescSorted(rs, PatternScore);
    SortDescPermutation(rs, PatternScore);
    forall v {
      SortDescStable(rs, PatternScore, v);
    }
  }

  /**
   * `rank_instances(I, P, it)`: the candidate instances `I` ranked by their
   * reliability against the promoted patterns `P`. Fails exactly when a
   * reliability is computed over an empty `P`; otherwise holds one record
   * per candidate, each with the tuple's `argN` fields, tagged `it` and
   * scored `r_i(i, P)`, as a stable sort of the records into non-increasing
   * score order.
   */
  method RankInstances(store: Store, pmi: Pmi, I: seq<Instance>, P: seq<Pattern>, it: int)
    returns (r: Result<seq<RankedInstance>, Error>)
    ensures r.Failure? <==> |P| == 0 && |I| > 0
    ensures r.Failure? ==> r.error == EmptyPromotedSet
    ensures r.Success? ==> r.value == SortDesc(InstanceRecords(store, pmi, I, P, it), InstanceScore)
    ensures r.Success? ==> |r.value| == |I| && SortedDesc(r.value, InstanceScore)
    ensures r.Success? ==> multiset(r.value) == multiset(InstanceRecords(store, pmi, I, P, it))
    ensures r.Success? ==> forall v :: Tied(r.value, InstanceScore, v) == Tied(InstanceRecords(store, pmi, I, P, it), InstanceScore, v)
  {
    var rs: seq<RankedInstance> := [];
    var k := 0;
    while k < |I|
      invariant 0 <= k <= |I|
      invariant |P| == 0 ==> k == 0 && rs == []
      invariant |P| > 0 ==> rs == InstanceRecords(store, pmi, I, P, it)[..k]
    {
      var score := InstanceReliability(store, pmi, I[k], P);
      if score.Failure? {
        return Failure(score.error);
      }
      InstanceRecordsStep(store, pmi, I, P, it, k);
      rs := rs + [RankedInstance(Flatten(I[k]), it, score.value)];
      k := k + 1;
    }
    ghost var want := InstanceRecords(store, pmi, I, P, it);
    assert want[..|I|] == want;
    assert rs == want;
    var a := ToArray(rs);
    SortByScore(a, InstanceScore);
    r := Success(a[..]);
    SortDescSorted(rs, InstanceScore);
    SortDescPermutation(rs, InstanceScore);
    forall v {
      SortDescStable(rs, InstanceScore, v);
    }
  }

  /**
   * Each pattern record carries its candidate, the iteration and the
   * candidate's reliability, and the ranked list holds exactly these
   * records.
   */
  lemma RankedPatternRecord(store: Store, pmi: Pmi, I: seq<Instance>, P: seq<Pattern>, it: int, rec: RankedPattern)
    requires |I| > 0
    requires rec in SortDesc(PatternRecords(store, pmi, I, P, it), PatternScore)
    ensures rec.rel in P && rec.it == it
    ensures PatternReliability(store, pmi, I, rec.rel) == Success(rec.score)
  {
    var rs := PatternRecords(store, pmi, I, P, it);
    SortDescPermutation(rs, PatternScore);
    assert rec in multiset(rs);
  }

  /**
   * Each instance record carries the `argN` fields of its candidate, the
   * iteration and the candidate's reliability.
   */
  lemma RankedInstanceRecord(store: Store, pmi: Pmi, I: seq<Instance>, P: seq<Pattern>, it: int, rec: RankedInstance)
    requires |P| > 0
    requires rec in SortDesc(InstanceRecords(store, pmi, I, P, it), InstanceScore)
    ensures exists i :: i in I && rec.args == Flatten(i) && InstanceReliability(store, pmi, i, P) == Success(rec.score)
    ensures rec.it == it
  {
    var rs := InstanceRecords(store, pmi, I, P, it);
    SortDescPermutation(rs, InstanceScore);
    assert rec in multiset(rs);
    var k :| 0 <= k < |rs| && rs[k] == rec;
    assert I[k] in I;
  }

  /**
   * Ranking reads the store only through the past scores of the promoted
   * set: two stores that agree on the past scores of `I` give the same
   * pattern records, so what ranking returns is fixed by the scores held
   * before it runs.
   */
  lemma PatternRecordsReadPastScores(store: Store, other: Store, pmi: Pmi, I: seq<Instance>, P: seq<Pattern>, it: int)
    requires |I| > 0 || |P| == 0
    requires forall i :: i in I ==> PastScore(store.instances, i) == PastScore(other.instances, i)
    ensures PatternRecords(store, pmi, I, P, it) == PatternRecords(other, pmi, I, P, it)
  {
    forall p | p in P
      ensures PatternReliability(store, pmi, I, p) == PatternReliability(other, pmi, I, p)
    {
      PatternReliabilityReadsPastScores(store, other, pmi, I, p);
    }
  }

  /**
   * Two stores that agree on the past scores of the promoted patterns `P`
   * give the same instance records.
   */
  lemma InstanceRecordsReadPastScores(store: Store, other: Store, pmi: Pmi, I: seq<Instance>, P: seq<Pattern>, it: int)
    requires |P| > 0 || |I| == 0
    requires forall p :: p in P ==> PastScore(store.patterns, p) == PastScore(other.patterns, p)
    ensures InstanceRecords(store, pmi, I, P, it) == InstanceRecords(other, pmi, I, P, it)
  {
    forall i | i in I
      ensures InstanceReliability(store, pmi, i, P) == InstanceReliability(other, pmi, i, P)
    {
      InstanceReliabilityReadsPastScores(store, other, pmi, i, P);
    }
  }

  /** The first `n` records of a ranked list, the ones promoted. */
  function TakeTop<T>(ranked: seq<T>, n: nat): seq<T>
  {
    if n <= |ranked| then ranked[..n] else ranked
  }

  /**
   * Keeping the first `n` of a list sorted by `key` keeps `min(n, |ranked|)`
   * records, in ranked order, and none of those dropped scores higher than
   * one kept.
   */
  lemma TakeTopKeepsBest<T>(ranked: seq<T>, n: nat, key: T -> real)
    requires SortedDesc(ranked, key)
    ensures |TakeTop(ranked, n)| == if n <= |ranked| then n else |ranked|
    ensures TakeTop(ranked, n) <= ranked
    ensures forall j, k :: 0 <= j < |TakeTop(ranked, n)| <= k < |ranked| ==> key(ranked[j]) >= key(ranked[k])
  {
  }

  /**
   * The first pattern ranking of a one-seed run: seed ("paris", "france")
   * held with score 1.0, one candidate "X is the capital of Y" with `dpmi`
   * 2.0 and `max_pmi` 4.0 rank in iteration 1 as the single record
   * `{rel: "X is the capital of Y", it: 1, score: 0.5}`.
   */
  lemma CapitalOfRanking(pmi: Pmi)
    requires pmi.maxPmi == 4.0
    requires pmi.dpmi(["paris", "france"], "X is the capital of Y") == 2.0
    ensures SortDesc(PatternRecords(Store(Records([Stored(["paris", "france"], 0, Some(1.0))]), Records([])),
                                    pmi, [["paris", "france"]], ["X is the capital of Y"], 1), PatternScore)
         == [RankedPattern("X is the capital of Y", 1, 0.5)]
  {
    var store := Store(Records([Stored(["paris", "france"], 0, Some(1.0))]), Records([]));
    CapitalOfExample(pmi);
    var rs := PatternRecords(store, pmi, [["paris", "france"]], ["X is the capital of Y"], 1);
    assert rs == [RankedPattern("X is the capital of Y", 1, 0.5)];
    assert rs[..0] == [];
  }
}
