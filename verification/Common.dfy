/** Shared vocabulary: option and result types, machine-integer bounds, and sums over finite maps. */
module Common {
  datatype Option<+T> = None | Some(value: T)

  datatype Result<+T, +E> = Ok(value: T) | Err(error: E)

  /** What a call promises: the new state of its specification, or its error and no change. */
  ghost predicate Follows<S, E>(o: Result<S, E>, before: S, after: S, error: Option<E>) {
    match o
    case Ok(s) => error == None && after == s
    case Err(e) => error == Some(e) && after == before
  }

  const U32_MAX := 0xFFFF_FFFF
  const U64_MAX := 0xFFFF_FFFF_FFFF_FFFF
  const U128_MAX := 0xFFFF_FFFF_FFFF_FFFF_FFFF_FFFF_FFFF_FFFF

  type byte = b: int | 0 <= b < 256
  type u32 = n: nat | n <= U32_MAX
  type u64 = n: nat | n <= U64_MAX

  type Bytes = seq<byte>
  type Hash = Bytes

  type AccountId = nat

  /** A 20-byte EVM address. */
  type Address = nat

  /** The key of a block author. */
  type NimbusId = nat

  function Min(a: int, b: int): int {
    if a <= b then a else b
  }

  function Max(a: int, b: int): int {
    if a <= b then b else a
  }

  /** `saturating_add` on an unsigned type whose largest value is `limit`. */
  function SaturatingAdd(a: nat, b: nat, limit: nat): nat {
    Min(a + b, limit)
  }

  lemma SubsetSize<T>(a: set<T>, b: set<T>)
    requires a <= b
    ensures |a| <= |b|
  {
    assert b == a + (b - a);
  }

  /** A set of naturals below `n` has at most `n` members. */
  lemma {:induction false} BoundedSetSize(s: set<nat>, n: nat)
    requires forall x :: x in s ==> x < n
    ensures |s| <= n
  {
    if n == 0 {
      assert s == {};
    } else {
      var rest := s - {n - 1};
      BoundedSetSize(rest, n - 1);
      assert |s| <= |rest| + 1;
    }
  }
}

/** Properties that hold all along a run: after every prefix, or at every step. */
module Prefixes {

  ghost predicate AfterEvery<E>(run: seq<E>, p: seq<E> -> bool) {
    forall i :: 0 <= i <= |run| ==> p(run[..i])
  }

  /** The step comes with the prefix before it. */
  ghost predicate AtEvery<E>(run: seq<E>, q: (seq<E>, E) -> bool) {
    forall i :: 0 <= i < |run| ==> q(run[..i], run[i])
  }

  lemma AfterEverySplits<E>(run: seq<E>, p: seq<E> -> bool)
    requires run != []
    ensures AfterEvery(run, p) <==> AfterEvery(run[..|run| - 1], p) && p(run)
  {
    var init := run[..|run| - 1];
    assert forall i :: 0 <= i <= |init| ==> init[..i] == run[..i];
    assert run[..|run|] == run;
  }

  lemma AtEverySplits<E>(run: seq<E>, q: (seq<E>, E) -> bool)
    requires run != []
    ensures AtEvery(run, q) <==> AtEvery(run[..|run| - 1], q) && q(run[..|run| - 1], run[|run| - 1])
  {
    var init := run[..|run| - 1];
    assert forall i :: 0 <= i < |init| ==> init[..i] == run[..i] && init[i] == run[i];
  }

  /** If, after prefixes that have `p`, exactly the steps with `q` keep it, a run has `p` throughout exactly
      when all its steps have `q`. */
  lemma {:induction false} ThroughoutIff<E(!new)>(run: seq<E>, p: seq<E> -> bool, q: (seq<E>, E) -> bool)
    requires p([])
    requires forall prefix, e :: p(prefix) ==> (p(prefix + [e]) <==> q(prefix, e))
    ensures AfterEvery(run, p) <==> AtEvery(run, q)
  {
    if run == [] {
      assert run[..0] == [];
    } else {
      var init, e := run[..|run| - 1], run[|run| - 1];
      ThroughoutIff(init, p, q);
      AfterEverySplits(run, p);
      AtEverySplits(run, q);
      assert init + [e] == run;
      if AfterEvery(init, p) {
        assert init[..|init|] == init;
        assert p(init);
      }
    }
  }
}

/** Products and quotients of naturals. */
module Arithmetic {

  lemma MulMonotone(a: nat, b: nat, c: nat)
    requires a <= b
    ensures c * a <= c * b
  {
    assert c * b == c * a + c * (b - a);
  }

  lemma PositiveFactor(d: nat, x: int)
    requires d * x > 0
    ensures x > 0
  {
  }

  lemma QuotientBound(a: nat, b: nat)
    requires b > 0
    ensures 0 <= a / b <= a
  {
    MulMonotone(1, b, a / b);
    assert a == b * (a / b) + a % b;
  }

  lemma QuotientMonotone(a: nat, b: nat, d: nat)
    requires a <= b && d > 0
    ensures a / d <= b / d
  {
    var qa, qb := a / d, b / d;
    assert d * (qb + 1 - qa) == d * qb + d - d * qa;
    PositiveFactor(d, qb + 1 - qa);
  }
}

/** Sums over the values of a finite map, independent of any iteration order. */
module MapSums {

  ghost function Sum<K(!new)>(m: map<K, int>): int
    decreases |m|
  {
    if m == map[] then 0
    else
      var k :| k in m;
      m[k] + Sum(m - {k})
  }

  /** Any key can be the one taken out first. */
  lemma {:induction false} SumRemove<K(!new)>(m: map<K, int>, k: K)
    requires k in m
    ensures Sum(m) == m[k] + Sum(m - {k})
    decreases |m|
  {
    var p :| p in m && Sum(m) == m[p] + Sum(m - {p});
    if p != k {
      SumRemove(m - {p}, k);
      SumRemove(m - {k}, p);
      assert m - {p} - {k} == m - {k} - {p};
    }
  }

  lemma SumInsert<K(!new)>(m: map<K, int>, k: K, v: int)
    requires k !in m
    ensures Sum(m[k := v]) == Sum(m) + v
  {
    SumRemove(m[k := v], k);
    assert m[k := v] - {k} == m;
  }

  lemma SumUpdate<K(!new)>(m: map<K, int>, k: K, v: int)
    requires k in m
    ensures Sum(m[k := v]) == Sum(m) - m[k] + v
  {
    SumRemove(m, k);
    SumRemove(m[k := v], k);
    assert m[k := v] - {k} == m - {k};
  }

  lemma {:induction false} SumNonNegative<K(!new)>(m: map<K, int>)
    requires forall k :: k in m ==> m[k] >= 0
    ensures Sum(m) >= 0
    decreases |m|
  {
    if m == map[] {
    } else {
      var k :| k in m;
      SumRemove(m, k);
      SumNonNegative(m - {k});
    }
  }

  /** With no negative value, every single value is at most the sum. */
  lemma SumAtLeast<K(!new)>(m: map<K, int>, k: K)
    requires k in m
    requires forall x :: x in m ==> m[x] >= 0
    ensures m[k] <= Sum(m)
  {
    SumRemove(m, k);
    SumNonNegative(m - {k});
  }
}
