/** The table computation of the longest common subsequence of two frame lists, against the definition
    of a subsequence by an increasing choice of positions. */
module CommonSubsequence {
  import opened Numbers

  /** The recurrence of the table; `Lcs(a[..i], b[..j])` is its cell (i, j). */
  function Lcs<T(==)>(a: seq<T>, b: seq<T>): nat
    decreases |a| + |b|
  {
    if a == [] || b == [] then 0
    else
      var a', b' := a[..|a| - 1], b[..|b| - 1];
      if a[|a| - 1] == b[|b| - 1] then Lcs(a', b') + 1 else Max(Lcs(a', b), Lcs(a, b'))
  }

  /** `places` lists, in increasing order, where in `s` the elements of `w` are found. */
  ghost predicate Places<T>(places: seq<nat>, w: seq<T>, s: seq<T>) {
    && |places| == |w|
    && (forall i :: 0 <= i < |w| ==> places[i] < |s| && s[places[i]] == w[i])
    && (forall i, j :: 0 <= i < j < |w| ==> places[i] < places[j])
  }

  ghost predicate IsSubsequence<T>(w: seq<T>, s: seq<T>) {
    exists places :: Places(places, w, s)
  }

  ghost predicate IsCommonSubsequence<T>(w: seq<T>, a: seq<T>, b: seq<T>) {
    IsSubsequence(w, a) && IsSubsequence(w, b)
  }

  lemma PrefixIsSubsequence<T>(w: seq<T>, n: nat, s: seq<T>)
    requires IsSubsequence(w, s) && n <= |w|
    ensures IsSubsequence(w[..n], s)
  {
    var places :| Places(places, w, s);
    assert Places(places[..n], w[..n], s);
  }

  lemma DropLastPlace<T>(places: seq<nat>, w: seq<T>, s: seq<T>)
    requires Places(places, w, s) && w != [] && s != []
    ensures Places(places[..|w| - 1], w[..|w| - 1], s[..|s| - 1])
    ensures places[|w| - 1] != |s| - 1 ==> Places(places, w, s[..|s| - 1])
  {
    assert forall i :: 0 <= i < |w| - 1 ==> places[i] < places[|w| - 1];
  }

  lemma {:induction false} NoLongerCommonSubsequence<T>(w: seq<T>, a: seq<T>, b: seq<T>)
    requires IsCommonSubsequence(w, a, b)
    ensures |w| <= Lcs(a, b)
    decreases |a| + |b|
  {
    var f :| Places(f, w, a);
    var g :| Places(g, w, b);
    if w != [] {
      var n := |w| - 1;
      assert f[n] < |a| && g[n] < |b|;
      DropLastPlace(f, w, a);
      DropLastPlace(g, w, b);
      if a[|a| - 1] == b[|b| - 1] {
        NoLongerCommonSubsequence(w[..n], a[..|a| - 1], b[..|b| - 1]);
      } else if f[n] != |a| - 1 {
        NoLongerCommonSubsequence(w, a[..|a| - 1], b);
      } else {
        NoLongerCommonSubsequence(w, a, b[..|b| - 1]);
      }
    }
  }

  lemma {:induction false} SomeLongestCommonSubsequence<T>(a: seq<T>, b: seq<T>)
    returns (w: seq<T>, f: seq<nat>, g: seq<nat>)
    ensures Places(f, w, a) && Places(g, w, b) && |w| == Lcs(a, b)
    decreases |a| + |b|
  {
    if a == [] || b == [] {
      w, f, g := [], [], [];
    } else if a[|a| - 1] == b[|b| - 1] {
      w, f, g := SomeLongestCommonSubsequence(a[..|a| - 1], b[..|b| - 1]);
      w, f, g := w + [a[|a| - 1]], f + [|a| - 1], g + [|b| - 1];
    } else if Lcs(a[..|a| - 1], b) == Lcs(a, b) {
      w, f, g := SomeLongestCommonSubsequence(a[..|a| - 1], b);
    } else {
      w, f, g := SomeLongestCommonSubsequence(a, b[..|b| - 1]);
    }
  }

  /** The computed length is exactly the greatest length of a common subsequence. */
  lemma LcsIsMaximal<T>(a: seq<T>, b: seq<T>)
    ensures exists w :: IsCommonSubsequence(w, a, b) && |w| == Lcs(a, b)
    ensures forall w :: IsCommonSubsequence(w, a, b) ==> |w| <= Lcs(a, b)
  {
    var w, f, g := SomeLongestCommonSubsequence(a, b);
    assert IsCommonSubsequence(w, a, b);
    forall w | IsCommonSubsequence(w, a, b)
      ensures |w| <= Lcs(a, b)
    {
      NoLongerCommonSubsequence(w, a, b);
    }
  }

  /** A length is reached by a common subsequence exactly if the computed length is no smaller. */
  lemma LcsAtLeastIff<T>(a: seq<T>, b: seq<T>, n: nat)
    ensures Lcs(a, b) >= n <==> exists w :: |w| == n && IsCommonSubsequence(w, a, b)
  {
    LcsIsMaximal(a, b);
    if Lcs(a, b) >= n {
      var w :| IsCommonSubsequence(w, a, b) && |w| == Lcs(a, b);
      PrefixIsSubsequence(w, n, a);
      PrefixIsSubsequence(w, n, b);
      assert |w[..n]| == n && IsCommonSubsequence(w[..n], a, b);
    }
  }

  lemma {:induction false} LcsSymmetric<T>(a: seq<T>, b: seq<T>)
    ensures Lcs(a, b) == Lcs(b, a)
    decreases |a| + |b|
  {
    if a != [] && b != [] {
      LcsSymmetric(a[..|a| - 1], b[..|b| - 1]);
      LcsSymmetric(a[..|a| - 1], b);
      LcsSymmetric(a, b[..|b| - 1]);
    }
  }

  // ---- The loop ----

  ghost function Cell<T>(a: seq<T>, b: seq<T>, i: nat, j: nat): nat
    requires i <= |a| && j <= |b|
  {
    Lcs(a[..i], b[..j])
  }

  lemma CellRecurrence<T>(a: seq<T>, b: seq<T>, i: nat, j: nat)
    requires 1 <= i <= |a| && 1 <= j <= |b|
    ensures Cell(a, b, i, j) == if a[i - 1] == b[j - 1] then Cell(a, b, i - 1, j - 1) + 1
                                else Max(Cell(a, b, i - 1, j), Cell(a, b, i, j - 1))
  {
    assert a[..i][..i - 1] == a[..i - 1] && b[..j][..j - 1] == b[..j - 1];
  }

  /** `longest_common_subsequence`: the whole table, row by row. */
  method LongestCommonSubsequence<T(==)>(first: seq<T>, second: seq<T>) returns (length: nat)
    ensures length == Lcs(first, second)
  {
    var solution := new nat[|first| + 1, |second| + 1]((i, j) => 0);
    for i := 1 to |first| + 1
      invariant forall k, j :: 0 <= k < i && 0 <= j <= |second| ==> solution[k, j] == Cell(first, second, k, j)
      invariant forall k :: 0 <= k <= |first| ==> solution[k, 0] == 0
    {
      for j := 1 to |second| + 1
        invariant forall k, l :: 0 <= k < i && 0 <= l <= |second| ==> solution[k, l] == Cell(first, second, k, l)
        invariant forall l :: 0 <= l < j ==> solution[i, l] == Cell(first, second, i, l)
        invariant forall k :: 0 <= k <= |first| ==> solution[k, 0] == 0
      {
        CellRecurrence(first, second, i, j);
        if first[i - 1] == second[j - 1] {
          solution[i, j] := solution[i - 1, j - 1] + 1;
        } else {
          solution[i, j] := Max(solution[i - 1, j], solution[i, j - 1]);
        }
      }
    }
    assert first[..|first|] == first && second[..|second|] == second;
    return solution[|first|, |second|];
  }
}
