/**
 * The candidate store as the ranking engine reads it: for one relation, a
 * collection of scored instances and a collection of scored patterns, and the
 * past-score lookups (`_r_i`, `_r_p`) that default to 0.0.
 */
module CandidateStore {
  import opened Wrappers

  /** An instance: the ordered tuple of the argument terms of one relation instance. */
  type Instance = seq<string>

  /** A pattern: the identifier of a textual context. */
  type Pattern = string

  /**
   * One record of a collection: the key it scores, the iteration that wrote
   * it, and its `score` field, which a record may lack.
   */
  datatype Stored<K> = Stored(key: K, it: int, score: Option<real>)

  /**
   * One collection as a lookup sees it: its records in insertion order, or
   * `Unreachable` when the query fails for any reason.
   */
  datatype Collection<K> = Records(records: seq<Stored<K>>) | Unreachable

  /** The two collections the engine keeps for one relation. */
  datatype Store = Store(instances: Collection<Instance>, patterns: Collection<Pattern>)

  /**
   * The position of the authoritative record for `key`: among the records
   * for `key`, one of greatest iteration, and among those the one inserted
   * last. `None` exactly when no record is about `key`.
   */
  function LatestIndex<K(==)>(recs: seq<Stored<K>>, key: K): (r: Option<nat>)
    ensures r.None? <==> forall j :: 0 <= j < |recs| ==> recs[j].key != key
    ensures r.Some? ==> r.value < |recs| && recs[r.value].key == key
    ensures r.Some? ==> forall j :: 0 <= j < |recs| && recs[j].key == key ==> recs[j].it <= recs[r.value].it
    ensures r.Some? ==> forall j :: r.value < j < |recs| && recs[j].key == key ==> recs[j].it < recs[r.value].it
  {
    if |recs| == 0 then None
    else
      var last := |recs| - 1;
      var earlier := LatestIndex(recs[..last], key);
      if recs[last].key != key then earlier
      else if earlier.Some? && recs[earlier.value].it > recs[last].it then earlier
      else Some(last)
  }

  /**
   * The past score of `key` in collection `c` (`_r_i` on the instance
   * collection, `_r_p` on the pattern collection): the `score` of the
   * authoritative record, and 0.0 when the collection cannot be reached, no
   * record is about `key`, or that record has no `score`. A non-zero result
   * is always a score stored for `key`.
   */
  function PastScore<K(==)>(c: Collection<K>, key: K): (r: real)
    ensures r != 0.0 ==> c.Records? && exists j :: 0 <= j < |c.records| && c.records[j].key == key && c.records[j].score == Some(r)
  {
    match c
    case Unreachable => 0.0
    case Records(recs) =>
      match LatestIndex(recs, key)
      case None => 0.0
      case Some(k) => recs[k].score.GetOr(0.0)
  }

  /** Every score held in `c` lies in [0, 1]. */
  ghost predicate ScoresInUnitRange<K>(c: Collection<K>) {
    c.Records? ==> forall j :: 0 <= j < |c.records| && c.records[j].score.Some? ==>
      0.0 <= c.records[j].score.value <= 1.0
  }

  /** Missing history, an unreachable store or a record without `score` all read as exactly 0.0. */
  lemma LookupDefault<K>(c: Collection<K>, key: K)
    requires || c.Unreachable?
             || (forall j :: 0 <= j < |c.records| ==> c.records[j].key != key)
             || (forall j :: 0 <= j < |c.records| && c.records[j].key == key ==> c.records[j].score.None?)
    ensures PastScore(c, key) == 0.0
  {
  }

  /**
   * The lookup returns the score of the record for `key` that has the
   * greatest iteration, the last-inserted one when several share it.
   */
  lemma LookupLatestWins<K>(recs: seq<Stored<K>>, key: K, j: nat, s: real)
    requires j < |recs| && recs[j].key == key && recs[j].score == Some(s)
    requires forall m :: 0 <= m < |recs| && recs[m].key == key ==> recs[m].it <= recs[j].it
    requires forall m :: j < m < |recs| && recs[m].key == key ==> recs[m].it < recs[j].it
    ensures PastScore(Records(recs), key) == s
  {
    assert LatestIndex(recs, key) == Some(j);
  }

  /**
   * Writing a record whose iteration is at least that of every earlier
   * record for the same key makes its score the one the lookup returns.
   */
  lemma {:induction false} LookupAfterInsert<K>(recs: seq<Stored<K>>, rec: Stored<K>)
    requires forall m :: 0 <= m < |recs| && recs[m].key == rec.key ==> recs[m].it <= rec.it
    ensures PastScore(Records(recs + [rec]), rec.key) == rec.score.GetOr(0.0)
  {
    var all := recs + [rec];
    assert all[..|recs|] == recs;
    var earlier := LatestIndex(recs, rec.key);
    assert earlier.Some? ==> all[earlier.value].it <= rec.it;
    assert LatestIndex(all, rec.key) == Some(|recs|);
  }

  /** Past scores stay inside [0, 1] when every stored score does. */
  lemma PastScoreInUnitRange<K>(c: Collection<K>, key: K)
    requires ScoresInUnitRange(c)
    ensures 0.0 <= PastScore(c, key) <= 1.0
  {
  }

  /**
   * The position of the first record about `key`: the record `find_one`
   * returns when the store hands back matches in insertion order, as the
   * lookup is written (a match query with no sort on `it`).
   */
  function FirstIndex<K(==)>(recs: seq<Stored<K>>, key: K): (r: Option<nat>)
    ensures r.None? <==> forall j :: 0 <= j < |recs| ==> recs[j].key != key
    ensures r.Some? ==> r.value < |recs| && recs[r.value].key == key
    ensures r.Some? ==> forall j :: 0 <= j < r.value ==> recs[j].key != key
    decreases |recs|
  {
    if |recs| == 0 then None
    else if recs[0].key == key then Some(0)
    else match FirstIndex(recs[1..], key)
      case None => None
      case Some(k) => Some(k + 1)
  }

  /** The past-score lookup as written: the `score` of the first record about `key`, 0.0 otherwise. */
  function FirstMatchScore<K(==)>(c: Collection<K>, key: K): (r: real)
    ensures r != 0.0 ==> c.Records? && exists j :: 0 <= j < |c.records| && c.records[j].key == key && c.records[j].score == Some(r)
                                                   && forall m :: 0 <= m < j ==> c.records[m].key != key
  {
    match c
    case Unreachable => 0.0
    case Records(recs) =>
      match FirstIndex(recs, key)
      case None => 0.0
      case Some(k) => recs[k].score.GetOr(0.0)
  }

  /**
   * The lookup as written returns the score of the first record about
   * `key`, whatever the iterations of the records after it.
   */
  lemma FirstMatchFirstWins<K>(recs: seq<Stored<K>>, key: K, j: nat, s: real)
    requires j < |recs| && recs[j].key == key && recs[j].score == Some(s)
    requires forall m :: 0 <= m < j ==> recs[m].key != key
    ensures FirstMatchScore(Records(recs), key) == s
  {
    assert FirstIndex(recs, key) == Some(j);
  }

  /**
   * A pattern promoted in iteration 1 with score 0.2 and again in
   * iteration 2 with score 0.7: the lookup as written returns the stale
   * 0.2, the latest-iteration lookup returns 0.7.
   */
  lemma FirstMatchReturnsStale()
    ensures FirstMatchScore(Records([Stored("p", 1, Some(0.2)), Stored("p", 2, Some(0.7))]), "p") == 0.2
    ensures PastScore(Records([Stored("p", 1, Some(0.2)), Stored("p", 2, Some(0.7))]), "p") == 0.7
  {
    var recs := [Stored("p", 1, Some(0.2)), Stored("p", 2, Some(0.7))];
    assert recs[..1] == [recs[0]] && recs[..1][..0] == [];
    assert LatestIndex(recs[..1], "p") == Some(0);
  }
}
