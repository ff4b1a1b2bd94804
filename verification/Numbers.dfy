/** Arithmetic on natural numbers that several models share. */
module Numbers {

  function Min(x: nat, y: nat): nat {
    if x < y then x else y
  }

  function Max(x: nat, y: nat): nat {
    if x < y then y else x
  }

  function CeilDiv(n: nat, d: nat): nat
    requires d > 0
  {
    (n + d - 1) / d
  }

  lemma Times(x: nat, y: nat, d: nat)
    requires x <= y
    ensures x * d <= y * d
  {
  }

  lemma QuotientAndRemainder(m: nat, d: nat)
    requires d > 0
    ensures m / d * d <= m < m / d * d + d
  {
    assert m == m / d * d + m % d;
  }

  /** The least number of parts of size `d` that hold `n`. */
  lemma CeilDivIsLeast(n: nat, d: nat, k: nat)
    requires d > 0
    ensures n <= k * d <==> CeilDiv(n, d) <= k
  {
    var q := CeilDiv(n, d);
    QuotientAndRemainder(n + d - 1, d);
    if k < q {
      Times(k + 1, q, d);
      assert (k + 1) * d == k * d + d;
    } else {
      Times(q, k, d);
    }
  }

  lemma MinusMin(n: nat, k: nat, d: nat)
    ensures var left := n - Min(n, k * d); left - Min(left, d) == n - Min(n, (k + 1) * d)
  {
    assert (k + 1) * d == k * d + d;
  }

  // ---- Along a sequence ----

  /** What does not hold at first and holds at last came to hold in between. */
  lemma {:induction false} FirstTime(holds: seq<bool>) returns (n: nat)
    requires holds != [] && !holds[0] && holds[|holds| - 1]
    ensures n + 1 < |holds| && !holds[n] && holds[n + 1]
  {
    if holds[|holds| - 2] {
      n := FirstTime(holds[..|holds| - 1]);
    } else {
      n := |holds| - 2;
    }
  }

  predicate GrowsAt<T(==)>(values: seq<seq<T>>, j: nat)
    requires j + 1 < |values|
  {
    values[j] <= values[j + 1]
  }

  lemma {:induction false} GrowsAlong<T>(values: seq<seq<T>>, i: nat, n: nat)
    requires i <= n < |values| && forall j :: 0 <= j < |values| - 1 ==> GrowsAt(values, j)
    ensures values[i] <= values[n]
    decreases n
  {
    if i < n {
      GrowsAlong(values, i, n - 1);
      assert GrowsAt(values, n - 1);
    }
  }

  // ---- Sums ----

  function Sum(values: seq<real>): real {
    if values == [] then 0.0 else Sum(values[..|values| - 1]) + values[|values| - 1]
  }

  /** What makes it the sum: nothing for nothing, the value of a single one, and adding up over parts. */
  lemma {:induction false} SumLaws(values: seq<real>, more: seq<real>)
    ensures Sum([]) == 0.0
    ensures |values| == 1 ==> Sum(values) == values[0]
    ensures Sum(values + more) == Sum(values) + Sum(more)
    decreases |more|
  {
    if |values| == 1 {
      assert values[..0] == [];
    }
    if more == [] {
      assert values + more == values;
    } else {
      var n := |more| - 1;
      SumLaws(values, more[..n]);
      assert (values + more)[..|values + more| - 1] == values + more[..n];
    }
  }
}
