/**
 * The in-place sort both rankers apply to their records: Python's
 * `list.sort(key=..., reverse=True)`, a stable sort into non-increasing
 * order of the key. It is specified by `SortDesc`, a stable insertion sort
 * on sequences, and the facts that make it the sort the rankers need
 * (sorted, a permutation, equal keys in input order, and unique with those
 * three properties) are proved about that function.
 */
module ScoreSort {

  /** `s` is in non-increasing order of `key`. */
  predicate SortedDesc<T>(s: seq<T>, key: T -> real)
  {
    forall j, k :: 0 <= j < k < |s| ==> key(s[j]) >= key(s[k])
  }

  /** The elements of `s` whose key is `v`, in their order in `s`. */
  function Tied<T>(s: seq<T>, key: T -> real, v: real): seq<T>
    decreases |s|
  {
    if |s| == 0 then []
    else Tied(s[..|s| - 1], key, v) + (if key(s[|s| - 1]) == v then [s[|s| - 1]] else [])
  }

  /**
   * `x` placed into `s` right after the last element whose key is at least
   * `key(x)`: it moves in front of a run of strictly smaller keys only.
   */
  function Insert<T>(s: seq<T>, x: T, key: T -> real): seq<T>
    decreases |s|
  {
    if |s| == 0 || key(s[|s| - 1]) >= key(x) then s + [x]
    else Insert(s[..|s| - 1], x, key) + [s[|s| - 1]]
  }

  /**
   * The stable sort of `s` into non-increasing order of `key`; it keeps
   * the number of elements.
   */
  function SortDesc<T>(s: seq<T>, key: T -> real): (r: seq<T>)
    ensures |r| == |s|
    decreases |s|
  {
    if |s| == 0 then []
    else
      InsertLength(SortDesc(s[..|s| - 1], key), s[|s| - 1], key);
      Insert(SortDesc(s[..|s| - 1], key), s[|s| - 1], key)
  }

  /** Insertion adds exactly one element. */
  lemma {:induction false} InsertLength<T>(s: seq<T>, x: T, key: T -> real)
    ensures |Insert(s, x, key)| == |s| + 1
    decreases |s|
  {
    if |s| != 0 && key(s[|s| - 1]) < key(x) {
      InsertLength(s[..|s| - 1], x, key);
    }
  }

  /** Selecting the tied elements of a concatenation selects from each part. */
  lemma {:induction false} TiedAppend<T>(s: seq<T>, t: seq<T>, key: T -> real, v: real)
    ensures Tied(s + t, key, v) == Tied(s, key, v) + Tied(t, key, v)
    decreases |t|
  {
    if |t| == 0 {
      assert s + t == s;
    } else {
      var u := t[..|t| - 1];
      assert (s + t)[..|s + t| - 1] == s + u;
      assert (s + t)[|s + t| - 1] == t[|t| - 1];
      TiedAppend(s, u, key, v);
    }
  }

  /** An element of `Tied(s, key, v)` is an element of `s` with key `v`. */
  lemma {:induction false} TiedMember<T>(s: seq<T>, key: T -> real, v: real, x: T)
    requires x in Tied(s, key, v)
    ensures x in s && key(x) == v
    decreases |s|
  {
    var u, y := s[..|s| - 1], s[|s| - 1];
    if x in Tied(u, key, v) {
      TiedMember(u, key, v, x);
      assert s == u + [y];
    } else {
      assert x == y;
    }
  }

  /** Insertion adds `x` to the multiset of `s`. */
  lemma {:induction false} InsertPermutation<T>(s: seq<T>, x: T, key: T -> real)
    ensures multiset(Insert(s, x, key)) == multiset(s) + multiset{x}
    decreases |s|
  {
    if |s| != 0 && key(s[|s| - 1]) < key(x) {
      var u := s[..|s| - 1];
      InsertPermutation(u, x, key);
      assert s == u + [s[|s| - 1]];
    }
  }

  /** Insertion into a sorted sequence keeps it sorted. */
  lemma {:induction false} InsertSorted<T>(s: seq<T>, x: T, key: T -> real)
    requires SortedDesc(s, key)
    ensures SortedDesc(Insert(s, x, key), key)
    decreases |s|
  {
    if |s| != 0 && key(s[|s| - 1]) < key(x) {
      var u, y := s[..|s| - 1], s[|s| - 1];
      InsertSorted(u, x, key);
      var w := Insert(u, x, key);
      InsertPermutation(u, x, key);
      forall z | z in w
        ensures key(z) >= key(y)
      {
        assert z in multiset(w);
        if z != x {
          assert z in multiset(u);
          var j :| 0 <= j < |u| && u[j] == z;
          assert s[j] == z;
        }
      }
      var r := w + [y];
      forall j, k | 0 <= j < k < |r|
        ensures key(r[j]) >= key(r[k])
      {
        if k == |w| {
          assert r[j] in w;
        }
      }
    } else if |s| != 0 {
      var r := s + [x];
      forall j, k | 0 <= j < k < |r|
        ensures key(r[j]) >= key(r[k])
      {
        if k == |s| && j < |s| - 1 {
          assert key(s[j]) >= key(s[|s| - 1]);
        }
      }
    }
  }

  /**
   * Insertion keeps equal keys in order: `x` only moves in front of
   * elements of strictly smaller key, so for every key the tied elements
   * are those of `s + [x]`, in the same order.
   */
  lemma {:induction false} InsertStable<T>(s: seq<T>, x: T, key: T -> real, v: real)
    ensures Tied(Insert(s, x, key), key, v) == Tied(s + [x], key, v)
    decreases |s|
  {
    if |s| != 0 && key(s[|s| - 1]) < key(x) {
      var u, y := s[..|s| - 1], s[|s| - 1];
      InsertStable(u, x, key, v);
      TiedAppend(Insert(u, x, key), [y], key, v);
      TiedAppend(u, [x], key, v);
      TiedAppend(u, [y], key, v);
      TiedAppend(s, [x], key, v);
      assert s == u + [y];
      assert [x][..0] == [] && [y][..0] == [];
    }
  }

  /** The sort outputs a permutation of its input. */
  lemma {:induction false} SortDescPermutation<T>(s: seq<T>, key: T -> real)
    ensures multiset(SortDesc(s, key)) == multiset(s)
    decreases |s|
  {
    if |s| != 0 {
      var u := s[..|s| - 1];
      SortDescPermutation(u, key);
      InsertPermutation(SortDesc(u, key), s[|s| - 1], key);
      assert s == u + [s[|s| - 1]];
    }
  }

  /** The sort outputs a sequence in non-increasing key order. */
  lemma {:induction false} SortDescSorted<T>(s: seq<T>, key: T -> real)
    ensures SortedDesc(SortDesc(s, key), key)
    decreases |s|
  {
    if |s| != 0 {
      SortDescSorted(s[..|s| - 1], key);
      InsertSorted(SortDesc(s[..|s| - 1], key), s[|s| - 1], key);
    }
  }

  /** The sort is stable: for every key, the tied elements keep their input order. */
  lemma {:induction false} SortDescStable<T>(s: seq<T>, key: T -> real, v: real)
    ensures Tied(SortDesc(s, key), key, v) == Tied(s, key, v)
    decreases |s|
  {
    if |s| != 0 {
      var u, y := s[..|s| - 1], s[|s| - 1];
      SortDescStable(u, key, v);
      InsertStable(SortDesc(u, key), y, key, v);
      TiedAppend(SortDesc(u, key), [y], key, v);
      assert [y][..0] == [];
    }
  }

  /** The last element of a non-empty sorted sequence has the least key. */
  lemma LastIsLeast<T>(s: seq<T>, key: T -> real, x: T)
    requires SortedDesc(s, key) && x in s
    ensures key(x) >= key(s[|s| - 1])
  {
    var j :| 0 <= j < |s| && s[j] == x;
    if j < |s| - 1 {
      assert key(s[j]) >= key(s[|s| - 1]);
    }
  }

  /** A non-empty sequence has a non-empty tie group at the key of its last element. */
  lemma LastKeyTied<T>(s: seq<T>, key: T -> real)
    requires |s| > 0
    ensures Tied(s, key, key(s[|s| - 1])) == Tied(s[..|s| - 1], key, key(s[|s| - 1])) + [s[|s| - 1]]
  {
  }

  /**
   * If `q` is sorted and holds the tie group of `r`'s last key, then `r`'s
   * last key is at least `q`'s last key.
   */
  lemma LastKeyNotBelow<T>(r: seq<T>, q: seq<T>, key: T -> real)
    requires |r| > 0 && |q| > 0 && SortedDesc(q, key)
    requires Tied(r, key, key(r[|r| - 1])) == Tied(q, key, key(r[|r| - 1]))
    ensures key(r[|r| - 1]) >= key(q[|q| - 1])
  {
    var x := r[|r| - 1];
    LastKeyTied(r, key);
    assert x in Tied(q, key, key(x));
    TiedMember(q, key, key(x), x);
    LastIsLeast(q, key, x);
  }

  /**
   * Two sorted sequences that agree on every tie group end in the same
   * element: both last elements carry the least key, and each is the last
   * member of that key's tie group.
   */
  lemma SameLast<T>(r: seq<T>, q: seq<T>, key: T -> real)
    requires |r| > 0 && |q| > 0
    requires SortedDesc(r, key) && SortedDesc(q, key)
    requires forall v :: Tied(r, key, v) == Tied(q, key, v)
    ensures r[|r| - 1] == q[|q| - 1]
  {
    var x, y := r[|r| - 1], q[|q| - 1];
    assert Tied(r, key, key(x)) == Tied(q, key, key(x));
    assert Tied(q, key, key(y)) == Tied(r, key, key(y));
    LastKeyNotBelow(r, q, key);
    LastKeyNotBelow(q, r, key);
    LastKeyTied(r, key);
    LastKeyTied(q, key);
  }

  /** Dropping a common last element keeps every tie group equal. */
  lemma TiedWithoutLast<T>(r: seq<T>, q: seq<T>, key: T -> real, w: real)
    requires |r| > 0 && |q| > 0 && r[|r| - 1] == q[|q| - 1]
    requires Tied(r, key, w) == Tied(q, key, w)
    ensures Tied(r[..|r| - 1], key, w) == Tied(q[..|q| - 1], key, w)
  {
    var x := r[|r| - 1];
    var tr, tq := Tied(r[..|r| - 1], key, w), Tied(q[..|q| - 1], key, w);
    if key(x) == w {
      assert tr + [x] == tq + [x];
      assert tr == (tr + [x])[..|tr|];
    } else {
      assert tr + [] == tq + [];
      assert tr == tr + [] && tq == tq + [];
    }
  }

  /** A sequence with an element of key `v` has a non-empty tie group at `v`. */
  lemma NonEmptyTied<T>(s: seq<T>, key: T -> real)
    requires |s| > 0
    ensures Tied(s, key, key(s[|s| - 1])) != []
  {
    LastKeyTied(s, key);
  }

  /**
   * Sortedness and stability determine the output: two sequences in
   * non-increasing key order that agree on the tied elements of every key
   * are equal. So any stable descending sort returns `SortDesc`'s output.
   */
  lemma {:induction false} SortedTiedUnique<T>(r: seq<T>, q: seq<T>, key: T -> real)
    requires SortedDesc(r, key) && SortedDesc(q, key)
    requires forall v :: Tied(r, key, v) == Tied(q, key, v)
    ensures r == q
    decreases |r| + |q|
  {
    if |r| == 0 && |q| == 0 {
    } else if |r| == 0 {
      NonEmptyTied(q, key);
      assert false;
    } else if |q| == 0 {
      NonEmptyTied(r, key);
      assert false;
    } else {
      SameLast(r, q, key);
      var r', q' := r[..|r| - 1], q[..|q| - 1];
      forall w
        ensures Tied(r', key, w) == Tied(q', key, w)
      {
        TiedWithoutLast(r, q, key, w);
      }
      SortedTiedUnique(r', q', key);
      assert r == r' + [r[|r| - 1]] && q == q' + [q[|q| - 1]];
    }
  }

  /**
   * Sorting records keyed 0.5, 0.8, 0.5 in that order puts the 0.8 record
   * first and keeps the two 0.5 records in their input order.
   */
  lemma TieExample<T>(a: T, b: T, c: T, key: T -> real)
    requires key(a) == 0.5 && key(b) == 0.8 && key(c) == 0.5
    ensures SortDesc([a, b, c], key) == [b, a, c]
  {
    assert [a, b, c][..2] == [a, b] && [a, b][..1] == [a] && [a][..0] == [];
    assert SortDesc([a], key) == [a];
    assert SortDesc([a, b], key) == [b, a] by {
      assert Insert([a], b, key) == Insert([], b, key) + [a];
    }
    assert Insert([b, a], c, key) == [b, a, c];
  }

  /** One step of the shift: `x` passes an element of strictly smaller key. */
  lemma InsertStep<T>(sorted: seq<T>, j: nat, x: T, key: T -> real)
    requires 0 < j <= |sorted| && key(sorted[j - 1]) < key(x)
    ensures Insert(sorted[..j], x, key) + sorted[j..] == Insert(sorted[..j - 1], x, key) + sorted[j - 1..]
  {
    var u, y := sorted[..j], sorted[j - 1];
    assert u[..|u| - 1] == sorted[..j - 1] && u[|u| - 1] == y;
    var w := Insert(sorted[..j - 1], x, key);
    assert Insert(u, x, key) == w + [y];
    assert sorted[j - 1..] == [y] + sorted[j..];
  }

  /** Where the shift stops, `x` goes right after the elements before it. */
  lemma InsertStop<T>(sorted: seq<T>, j: nat, x: T, key: T -> real)
    requires j <= |sorted| && (j == 0 || key(sorted[j - 1]) >= key(x))
    ensures Insert(sorted[..j], x, key) == sorted[..j] + [x]
  {
  }

  /** A sequence that agrees with `sorted` around a gap at `j` holding `x` is `sorted` with `x` at `j`. */
  lemma Assemble<T>(s: seq<T>, sorted: seq<T>, j: nat, x: T)
    requires j <= |sorted| && |s| == |sorted| + 1
    requires forall k :: 0 <= k < j ==> s[k] == sorted[k]
    requires s[j] == x
    requires forall k :: j < k < |s| ==> s[k] == sorted[k - 1]
    ensures s == sorted[..j] + [x] + sorted[j..]
  {
  }

  /**
   * Moves `a[i]` left past the strictly smaller keys before it: the prefix
   * `a[..i]` becomes `Insert(a[..i], a[i])` over `a[..i + 1]`, and the rest
   * of the array is unchanged.
   */
  method InsertAt<T>(a: array<T>, i: nat, key: T -> real)
    requires i < a.Length
    modifies a
    ensures a[..i + 1] == Insert(old(a[..i]), old(a[i]), key)
    ensures a[i + 1..] == old(a[i + 1..])
  {
    ghost var sorted := a[..i];
    var x := a[i];
    var j := i;
    assert sorted[..j] == sorted && sorted[j..] == [];
    while j > 0 && key(a[j - 1]) < key(x)
      invariant 0 <= j <= i
      invariant forall k :: 0 <= k < j ==> a[k] == sorted[k]
      invariant forall k :: j < k <= i ==> a[k] == sorted[k - 1]
      invariant forall k :: i < k < a.Length ==> a[k] == old(a[k])
      invariant Insert(sorted, x, key) == Insert(sorted[..j], x, key) + sorted[j..]
    {
      InsertStep(sorted, j, x, key);
      a[j] := a[j - 1];
      j := j - 1;
    }
    a[j] := x;
    InsertStop(sorted, j, x, key);
    Assemble(a[..i + 1], sorted, j, x);
    assert a[i + 1..] == old(a[i + 1..]);
  }

  /**
   * Sorts `a` in place into non-increasing order of `key`, keeping elements
   * with equal keys in their original order: insertion sort, each element
   * shifted left past the strictly smaller keys before it.
   */
  method SortByScore<T>(a: array<T>, key: T -> real)
    modifies a
    ensures a[..] == SortDesc(old(a[..]), key)
  {
    var i := 0;
    while i < a.Length
      invariant 0 <= i <= a.Length
      invariant a[..i] == SortDesc(old(a[..])[..i], key)
      invariant a[i..] == old(a[..])[i..]
    {
      InsertAt(a, i, key);
      assert old(a[..])[..i + 1][..i] == old(a[..])[..i];
      i := i + 1;
    }
    assert a[..] == a[..a.Length];
    assert old(a[..]) == old(a[..])[..a.Length];
  }
}
