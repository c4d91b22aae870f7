/**
 * The records the rankers produce: a pattern record `{rel, it, score}` and
 * an instance record whose tuple is flattened into the fields `arg1`,
 * `arg2`, ... beside `it` and `score`.
 */
module Records {
  import opened Wrappers
  import opened CandidateStore

  /** A ranked pattern: the pattern, the iteration that ranked it and its score. */
  datatype RankedPattern = RankedPattern(rel: Pattern, it: int, score: real)

  /** A ranked instance: the `argN` fields of its tuple, then `it` and `score`. */
  datatype RankedInstance = RankedInstance(args: map<string, string>, it: int, score: real)

  /**
   * The sort key of a pattern record: its score. The source falls back to
   * 0.0 for a record without one, which the rankers never build.
   */
  function PatternScore(r: RankedPattern): real
  {
    r.score
  }

  /** The sort key of an instance record: its score, as for patterns. */
  function InstanceScore(r: RankedInstance): real
  {
    r.score
  }

  /** The character of a decimal digit. */
  function DigitChar(d: nat): char
    requires d < 10
  {
    ('0' as int + d) as char
  }

  /** The value of a decimal digit character. */
  function DigitValue(c: char): int
  {
    c as int - '0' as int
  }

  /** The decimal numeral of `n`, without sign or leading zeros. */
  function Decimal(n: nat): string
    decreases n
  {
    if n < 10 then [DigitChar(n)] else Decimal(n / 10) + [DigitChar(n % 10)]
  }

  /** The number a string of decimal digits denotes. */
  function DecimalValue(s: string): int
    decreases |s|
  {
    if |s| == 0 then 0 else DecimalValue(s[..|s| - 1]) * 10 + DigitValue(s[|s| - 1])
  }

  /** Reading back a numeral gives the number written. */
  lemma {:induction false} DecimalRoundTrip(n: nat)
    ensures DecimalValue(Decimal(n)) == n
    decreases n
  {
    if n < 10 {
      assert [DigitChar(n)][..0] == [];
    } else {
      var s := Decimal(n);
      assert s[..|s| - 1] == Decimal(n / 10);
      DecimalRoundTrip(n / 10);
    }
  }

  /** The name of the `n`-th argument field: "arg" followed by the numeral of `n`. */
  function ArgField(n: nat): string
  {
    "arg" + Decimal(n)
  }

  /** Distinct positions have distinct field names. */
  lemma ArgFieldInjective(n: nat, m: nat)
    requires ArgField(n) == ArgField(m)
    ensures n == m
  {
    assert Decimal(n) == ArgField(n)[3..];
    assert Decimal(m) == ArgField(m)[3..];
    DecimalRoundTrip(n);
    DecimalRoundTrip(m);
  }

  /** No two positions share a field name. */
  lemma ArgFieldsDistinct()
    ensures forall n: nat, m: nat :: ArgField(n) == ArgField(m) ==> n == m
  {
    forall n: nat, m: nat | ArgField(n) == ArgField(m)
      ensures n == m
    {
      ArgFieldInjective(n, m);
    }
  }

  /**
   * The argument fields of instance `i`: field `argN` holds the `N`-th
   * component, counting from 1.
   */
  function Flatten(i: Instance): (r: map<string, string>)
    ensures forall n :: 1 <= n <= |i| ==> ArgField(n) in r && r[ArgField(n)] == i[n - 1]
  {
    ArgFieldsDistinct();
    map n: nat | 1 <= n <= |i| :: ArgField(n) := i[n - 1]
  }

  /**
   * The tuple stored in the first `k` argument fields of `fields`, or
   * `None` when one of `arg1` .. `argk` is missing.
   */
  function Unflatten(fields: map<string, string>, k: nat): Option<Instance>
    decreases k
  {
    if k == 0 then Some([])
    else match Unflatten(fields, k - 1)
      case None => None
      case Some(prefix) =>
        if ArgField(k) in fields then Some(prefix + [fields[ArgField(k)]]) else None
  }

  /** A flattened tuple has no field besides `arg1` .. `arg|i|`. */
  lemma FlattenOnlyArgs(i: Instance, f: string)
    requires f in Flatten(i)
    ensures exists n: nat :: 1 <= n <= |i| && f == ArgField(n)
  {
  }

  /**
   * Flattening keeps the arguments and their order: reading `arg1` ..
   * `arg|i|` back gives the tuple.
   */
  lemma FlattenRoundTrip(i: Instance)
    ensures Unflatten(Flatten(i), |i|) == Some(i)
  {
    UnflattenPrefix(i, |i|);
    assert i[..|i|] == i;
  }

  /** Reading back the first `k` fields of a flattened tuple gives its first `k` components. */
  lemma {:induction false} UnflattenPrefix(i: Instance, k: nat)
    requires k <= |i|
    ensures Unflatten(Flatten(i), k) == Some(i[..k])
    decreases k
  {
    if k > 0 {
      UnflattenPrefix(i, k - 1);
      assert i[..k] == i[..k - 1] + [i[k - 1]];
    }
  }
}
