# Espresso reliability scoring and ranking, in Dafny

This project models the scoring and ranking engine of the Espresso
bootstrapper (`espresso.py`, class `Espresso`). The engine alternately
promotes patterns and instances of one relation. It has three parts:

- **Past-score lookups** (`_r_i`, `_r_p`). These read the score an instance
  or a pattern received in an earlier iteration from the relation's two
  candidate collections. The result is `0.0` when the collection cannot be
  reached, when there is no record for the key, or when the record has no
  `score`. In the model the store is a value (`CandidateStore.Store`) that
  holds the two collections as sequences of `Stored(key, it, score)`
  records in insertion order.
- **Reliability formulas**. `r_i(i, P)` is the mean over the promoted
  patterns `P` of `dpmi(i, p) * _r_p(p) / max_pmi`. `r_p(I, p)` is the mean
  over the promoted instances `I` of `dpmi(i, p) * _r_i(i) / max_pmi`.
  `S(i, P)` is the sum of `dpmi(i, p) * _r_p(p) / T`, where `T` is the sum
  of `_r_p(p)` over `P`. `dpmi` and `max_pmi` come from a PMI oracle,
  modelled as a `Pmi` value: a function from (instance, pattern) to a real,
  and a positive real maximum. All arithmetic is on `real`.
- **Rankers** (`rank_patterns`, `rank_instances`). Each builds one record
  per candidate and sorts the records in place, highest score first.
  Python's `list.sort` is stable, so records with equal scores keep their
  candidate order. Pattern records are `{rel, it, score}`. Instance
  records flatten the tuple into the fields `arg1`, `arg2`, …, followed by
  `it` and `score`. The sort is an in-place insertion sort on an array
  (`ScoreSort.SortByScore`). It is proved equal to `SortDesc`, a stable
  sort on sequences. That function is proved sorted, a permutation of its
  input and stable. It is also proved to be the only sequence with those
  properties.

Python raises `ZeroDivisionError` in three places. The model returns
`Failure` in each:
- `r_i` over an empty `P` or `r_p` over an empty `I` gives
  `EmptyPromotedSet`.
- `S` over a non-empty `P` whose past scores sum to 0 gives
  `ZeroTotalScore`.
- A ranker fails when it computes such a reliability. This happens only
  when there is at least one candidate and the promoted set is empty.

With no candidates, a ranker returns `[]`. With an empty `P`, `S` divides
nothing and returns `0`.

Modules: `Wrappers` (Option, Result), `CandidateStore`, `Sums` (the sum
over a list and its algebra), `Reliability`, `Records`, `ScoreSort` and
`Ranking`.

## Model

| member | source | states |
|---|---|---|
| `CandidateStore.PastScore` | espresso.py:85-103 | a non-zero past score is the `score` of a record stored for that key |
| `CandidateStore.LatestIndex` | espresso.py:88-89 | picks a record for the key exactly when one exists, with the greatest iteration, and the last one inserted among equal iterations |
| `CandidateStore.LookupDefault` | espresso.py:85-103 | an unreachable collection, a key with no record, or records without `score` all give exactly 0.0 |
| `CandidateStore.LookupLatestWins` | espresso.py:95-101 | the lookup returns the score of the key's record with the greatest iteration, the last inserted on ties |
| `CandidateStore.LookupAfterInsert` | espresso.py:85-103 | after a record is appended with an iteration no smaller than the key's earlier ones, the lookup returns that record's score |
| `CandidateStore.PastScoreInUnitRange` | espresso.py:85-103 | if every stored score is in [0, 1], so is every past score |
| `CandidateStore.FirstMatchScore` | espresso.py:99-101 | the lookup as written: a non-zero result is the score of the key's first stored record |
| `CandidateStore.FirstIndex` | espresso.py:99 | the position of the first record stored for the key: `None` exactly when there is none, otherwise a matching record with no match before it |
| `CandidateStore.FirstMatchFirstWins` | espresso.py:95-103 | when the key's first stored record has a score, the as-written lookup returns exactly that score |
| `CandidateStore.FirstMatchReturnsStale` | espresso.py:95-103 | a key promoted in iteration 1 with 0.2 and in iteration 2 with 0.7: the as-written lookup gives 0.2, the latest-wins lookup gives 0.7 |
| `Reliability.InstanceReliability` | espresso.py:105-110 | `r_i` fails exactly when `P` is empty, with `EmptyPromotedSet` |
| `Reliability.PatternReliability` | espresso.py:112-117 | `r_p` fails exactly when `I` is empty, with `EmptyPromotedSet` |
| `Reliability.TotalPatternScore` | espresso.py:121 | `T` is 0 for an empty `P`, and non-negative when every past score of `P` is |
| `Reliability.Confidence` | espresso.py:119-122 | `S` fails exactly when `P` is non-empty and `T` is 0, with `ZeroTotalScore`; it is 0 for an empty `P` |
| `Reliability.InstanceReliabilityInUnitRange` | espresso.py:105-108 | `0 <= dpmi <= max_pmi` on `P` and past scores of the patterns of `P` in [0, 1] put `r_i(i, P)` in [0, 1] |
| `Reliability.PatternReliabilityInUnitRange` | espresso.py:112-115 | `0 <= dpmi <= max_pmi` on `I` and past scores of the instances of `I` in [0, 1] put `r_p(I, p)` in [0, 1] |
| `Reliability.InstanceReliabilityPermutation` | espresso.py:107-108 | `r_i(i, P)` is unchanged by reordering `P` |
| `Reliability.PatternReliabilityPermutation` | espresso.py:114-115 | `r_p(I, p)` is unchanged by reordering `I` |
| `Reliability.InstanceReliabilityReadsPastScores` | espresso.py:105-108 | stores that agree on the past scores of `P` give the same `r_i(i, P)` |
| `Reliability.PatternReliabilityReadsPastScores` | espresso.py:112-115 | stores that agree on the past scores of `I` give the same `r_p(I, p)` |
| `Reliability.InstanceReliabilityFactored` | espresso.py:45-46 | `r_i(i, P)` is the sum of `dpmi(i, p) * _r_p(p)` over `P`, divided by `max_pmi * len(P)` |
| `Reliability.ConfidenceNormalised` | espresso.py:119-122 | when `T != 0`, `S(i, P)` is the sum of `dpmi(i, p) * _r_p(p)` divided by `T` |
| `Reliability.ConfidenceWithoutHistoryFails` | espresso.py:119-122 | `S` fails when every pattern of a non-empty `P` has past score 0 |
| `Reliability.ConfidenceBetween` | espresso.py:119-122 | with non-negative past scores of the patterns of `P`, `S(i, P)` is a weighted mean of `dpmi(i, p)`, so it lies between any bounds of those values |
| `Reliability.CapitalOfExample` | espresso.py:48-49 | seed ("paris", "france") at 1.0, `dpmi` 2.0 and `max_pmi` 4.0 give pattern reliability 0.5 |
| `Records.DecimalRoundTrip` | espresso.py:135 | reading back the decimal numeral of `n` gives `n` |
| `Records.ArgFieldInjective` | espresso.py:135 | distinct positions get distinct field names `argN` |
| `Records.Flatten` | espresso.py:135-136 | field `argN` of a flattened tuple holds the tuple's `N`-th component, for every `N` from 1 to its length |
| `Records.FlattenOnlyArgs` | espresso.py:135-136 | a flattened tuple has no field besides `arg1` .. `argk` |
| `Records.FlattenRoundTrip` | espresso.py:135-136 | reading fields `arg1` .. `argk` back gives the tuple, in order |
| `ScoreSort.SortByScore` | espresso.py:128 | the in-place sort leaves the array equal to `SortDesc` of its old contents |
| `ScoreSort.InsertAt` | espresso.py:140 | one insertion step: the element moves left past strictly smaller scores only, and the rest of the array is unchanged |
| `ScoreSort.SortDesc` | espresso.py:128 | sorting keeps the number of records |
| `ScoreSort.SortDescSorted` | espresso.py:128 | the sort output is in non-increasing score order |
| `ScoreSort.SortDescPermutation` | espresso.py:128 | the sort output is a permutation of its input |
| `ScoreSort.SortDescStable` | espresso.py:140 | for every score, the records with that score keep their input order |
| `ScoreSort.SortedTiedUnique` | espresso.py:140 | two sorted sequences with the same records in every tie group are equal, so any stable descending sort gives `SortDesc`'s output |
| `ScoreSort.TieExample` | espresso.py:140 | scores 0.5, 0.8, 0.5 sort to the 0.8 record first, then the two 0.5 records in input order |
| `Ranking.RankPatterns` | espresso.py:124-129 | fails exactly when `P` is non-empty and `I` is empty; otherwise gives one record per candidate, as the stable descending sort of the `{rel, it, score}` records: sorted, a permutation of them, ties in candidate order |
| `Ranking.RankInstances` | espresso.py:131-141 | fails exactly when `I` is non-empty and `P` is empty; otherwise gives one record per candidate, as the stable descending sort of the flattened records: sorted, a permutation of them, ties in candidate order |
| `Ranking.PatternRecords` | espresso.py:126-127 | one record per candidate pattern, in candidate order, holding the pattern, `it` and a successful `r_p(I, p)` as its score |
| `Ranking.InstanceRecords` | espresso.py:133-139 | one record per candidate instance, in candidate order, whose fields are exactly the flattened tuple (and read back as it), with `it` and a successful `r_i(i, P)` as its score |
| `Ranking.RankedPatternRecord` | espresso.py:126-127 | every ranked pattern record has `rel` in `P`, `it == it` and `score == r_p(I, rel)` |
| `Ranking.RankedInstanceRecord` | espresso.py:134-139 | every ranked instance record holds the `argN` fields of some candidate, `it == it`, and that candidate's `r_i` as its score |
| `Ranking.PatternRecordsReadPastScores` | espresso.py:124-127 | pattern ranking depends on the store only through the past scores of `I` |
| `Ranking.InstanceRecordsReadPastScores` | espresso.py:131-139 | instance ranking depends on the store only through the past scores of `P` |
| `Ranking.TakeTopKeepsBest` | espresso.py:36 | keeping the first `n` ranked records keeps `min(n, len)` of them, in ranked order, and each kept record scores at least as high as each dropped one |
| `Ranking.CapitalOfRanking` | espresso.py:124-129 | one seed and one candidate pattern rank as the single record `{rel: "X is the capital of Y", it: 1, score: 0.5}` |

## Left out

- `main` (espresso.py:143-176) is command-line and I/O glue and is not modelled: option parsing, the database connection, reading seeds and the usage exit.
- The constructor (espresso.py:71-83) is not modelled. The collection names (espresso.py:77-78) are not modelled: the store holds the two collections directly. `reset`, `add_seeds` and `get_args` belong to the `Bootstrapper` base class, which is not part of this model. The PMI oracle and `max_pmi` become the `Pmi` parameter.
- The bootstrap loop, seed handling and persistence of ranked records are in `Bootstrapper` and are not part of this model. Seed scores of 1.0 appear only as records already held in the store. The promotion cut to the top `n` is modelled by `TakeTop` alone.
- How `dpmi` and `max_pmi` are computed is not modelled. They are an arbitrary function and a positive real, so `max_pmi = 0` is excluded.
- Floating-point rounding is not modelled; scores are exact reals.
- The `print` diagnostics (espresso.py:109, 116) are not modelled.
- The database query mechanics (`make_query`, field projection, the caught exception) are collapsed into the `Unreachable` collection and the 0.0 default.
- Ranking cannot write to the store: the store is an immutable value passed to the rankers. "Nothing else changes" therefore holds by construction. The lemmas state only that the results depend on the past scores of the promoted set alone.
- `CandidateStore.PastScore`: the lookup is modelled with "greatest iteration wins, last inserted on ties". The source uses whatever record `find_one` returns first (see Findings).
- The instance tuple is a sequence of strings of any length. A Python string passed as an instance would be enumerated character by character; that case is not modelled.

## Findings

| source | as written | input that shows it | evidently intended | confidence | as-written member | corrected member |
|---|---|---|---|---|---|---|
| espresso.py:89, espresso.py:99 | the past-score lookup takes the first record `find_one` returns for the key, with no ordering on `it` | a pattern stored with `it` 1, score 0.2, then again with `it` 2, score 0.7, in a store that returns matches in insertion order: the lookup gives 0.2 | the score of the latest iteration, 0.7 | medium, not executed: the outcome depends on the store's default order | `CandidateStore.FirstMatchReturnsStale` | `CandidateStore.LookupLatestWins` |
