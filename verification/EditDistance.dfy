/** The two-row Levenshtein computation of the crash comparer, against an independent notion of edit
    distance: the length of the shortest chain of strings in which neighbours differ by one inserted,
    deleted or substituted character. */
module EditDistance {
  import opened Numbers

  function Cost(x: char, y: char): nat {
    if x == y then 0 else 1
  }

  /** The recurrence of the full distance matrix; `Levenshtein(a[..i], b[..j])` is its cell (i, j). */
  function Levenshtein(a: string, b: string): nat
    decreases |a| + |b|
  {
    if a == "" then |b|
    else if b == "" then |a|
    else
      var a', b' := a[..|a| - 1], b[..|b| - 1];
      Min(Min(Levenshtein(a, b') + 1, Levenshtein(a', b) + 1),
          Levenshtein(a', b') + Cost(a[|a| - 1], b[|b| - 1]))
  }

  // ---- The metric laws ----

  lemma {:induction false} LevenshteinSymmetric(a: string, b: string)
    ensures Levenshtein(a, b) == Levenshtein(b, a)
    decreases |a| + |b|
  {
    if a != "" && b != "" {
      LevenshteinSymmetric(a, b[..|b| - 1]);
      LevenshteinSymmetric(a[..|a| - 1], b);
      LevenshteinSymmetric(a[..|a| - 1], b[..|b| - 1]);
    }
  }

  lemma {:induction false} LevenshteinBounds(a: string, b: string)
    ensures |a| - |b| <= Levenshtein(a, b)
    ensures |b| - |a| <= Levenshtein(a, b)
    ensures Levenshtein(a, b) <= if |a| < |b| then |b| else |a|
    decreases |a| + |b|
  {
    if a != "" && b != "" {
      LevenshteinBounds(a, b[..|b| - 1]);
      LevenshteinBounds(a[..|a| - 1], b);
      LevenshteinBounds(a[..|a| - 1], b[..|b| - 1]);
    }
  }

  lemma {:induction false} LevenshteinZeroIffEqual(a: string, b: string)
    ensures Levenshtein(a, b) == 0 <==> a == b
    decreases |a| + |b|
  {
    if a != "" && b != "" {
      LevenshteinZeroIffEqual(a[..|a| - 1], b[..|b| - 1]);
      assert a == a[..|a| - 1] + [a[|a| - 1]] && b == b[..|b| - 1] + [b[|b| - 1]];
    }
  }

  lemma {:induction false} LevenshteinTriangle(a: string, b: string, c: string)
    ensures Levenshtein(a, c) <= Levenshtein(a, b) + Levenshtein(b, c)
    decreases |a| + |b| + |c|
  {
    LevenshteinBounds(a, b);
    LevenshteinBounds(b, c);
    LevenshteinBounds(a, c);
    if a != "" && b != "" && c != "" {
      var a', b', c' := a[..|a| - 1], b[..|b| - 1], c[..|c| - 1];
      if Levenshtein(a, b) == Levenshtein(a', b) + 1 {
        LevenshteinTriangle(a', b, c);
      } else if Levenshtein(b, c) == Levenshtein(b, c') + 1 {
        LevenshteinTriangle(a, b, c');
      } else if Levenshtein(a, b) == Levenshtein(a, b') + 1 {
        LevenshteinTriangle(a, b', c);
        LevenshteinTriangle(a, b', c');
      } else {
        LevenshteinTriangle(a', b', c);
        LevenshteinTriangle(a', b', c');
      }
    }
  }

  // ---- Edits, one character at a time ----

  ghost predicate DeletesOne(s: string, t: string) {
    exists i :: 0 <= i < |s| && t == s[..i] + s[i + 1..]
  }

  ghost predicate SubstitutesOne(s: string, t: string) {
    |s| == |t| && exists i :: 0 <= i < |s| && t == s[i := t[i]]
  }

  /** `t` comes from `s` by inserting, deleting or substituting one character. */
  ghost predicate OneEdit(s: string, t: string) {
    DeletesOne(s, t) || DeletesOne(t, s) || SubstitutesOne(s, t)
  }

  /** A chain of strings from `a` to `b` in which every step is one edit. */
  ghost predicate EditChain(chain: seq<string>, a: string, b: string) {
    && chain != []
    && chain[0] == a
    && chain[|chain| - 1] == b
    && forall i :: 0 <= i < |chain| - 1 ==> OneEdit(chain[i], chain[i + 1])
  }

  lemma {:induction false} CommonSuffixDoesNotCost(s: string, t: string, suffix: string)
    ensures Levenshtein(s + suffix, t + suffix) <= Levenshtein(s, t)
    decreases |suffix|
  {
    if suffix == "" {
      assert s + suffix == s && t + suffix == t;
    } else {
      var n := |suffix| - 1;
      var s1, t1 := s + suffix, t + suffix;
      assert s1[..|s1| - 1] == s + suffix[..n] && t1[..|t1| - 1] == t + suffix[..n];
      CommonSuffixDoesNotCost(s, t, suffix[..n]);
    }
  }

  lemma DeleteCostsAtMostOne(s: string, t: string)
    requires DeletesOne(s, t)
    ensures Levenshtein(s, t) <= 1
  {
    var i :| 0 <= i < |s| && t == s[..i] + s[i + 1..];
    var longer := s[..i] + [s[i]];
    assert s == longer + s[i + 1..];
    assert longer[..|longer| - 1] == s[..i];
    LevenshteinZeroIffEqual(s[..i], s[..i]);
    CommonSuffixDoesNotCost(longer, s[..i], s[i + 1..]);
  }

  lemma LastCharacterCostsAtMostOne(front: string, x: char, y: char)
    ensures Levenshtein(front + [x], front + [y]) <= 1
  {
    assert (front + [x])[..|front|] == front && (front + [y])[..|front|] == front;
    LevenshteinZeroIffEqual(front, front);
  }

  lemma SplitAtSubstitution(s: string, t: string) returns (front: string, x: char, y: char, suffix: string)
    requires SubstitutesOne(s, t)
    ensures s == (front + [x]) + suffix && t == (front + [y]) + suffix
  {
    var i :| 0 <= i < |s| && t == s[i := t[i]];
    front, x, y, suffix := s[..i], s[i], t[i], s[i + 1..];
  }

  lemma SubstituteCostsAtMostOne(s: string, t: string)
    requires SubstitutesOne(s, t)
    ensures Levenshtein(s, t) <= 1
  {
    var front, x, y, suffix := SplitAtSubstitution(s, t);
    LastCharacterCostsAtMostOne(front, x, y);
    CommonSuffixDoesNotCost(front + [x], front + [y], suffix);
  }

  lemma OneEditCostsAtMostOne(s: string, t: string)
    requires OneEdit(s, t)
    ensures Levenshtein(s, t) <= 1
  {
    if DeletesOne(s, t) {
      DeleteCostsAtMostOne(s, t);
    } else if DeletesOne(t, s) {
      DeleteCostsAtMostOne(t, s);
      LevenshteinSymmetric(s, t);
    } else {
      SubstituteCostsAtMostOne(s, t);
    }
  }

  /** No chain of edits is shorter than the computed distance. */
  lemma {:induction false} NoShorterEditChain(chain: seq<string>, a: string, b: string)
    requires EditChain(chain, a, b)
    ensures Levenshtein(a, b) <= |chain| - 1
    decreases |chain|
  {
    if |chain| == 1 {
      LevenshteinZeroIffEqual(a, b);
    } else {
      var before := chain[..|chain| - 1];
      NoShorterEditChain(before, a, before[|before| - 1]);
      OneEditCostsAtMostOne(before[|before| - 1], b);
      LevenshteinTriangle(a, before[|before| - 1], b);
    }
  }

  lemma AppendKeepsOneEdit(s: string, t: string, x: char)
    requires OneEdit(s, t)
    ensures OneEdit(s + [x], t + [x])
  {
    if DeletesOne(s, t) {
      AppendKeepsDelete(s, t, x);
    } else if DeletesOne(t, s) {
      AppendKeepsDelete(t, s, x);
    } else {
      var i :| 0 <= i < |s| && t == s[i := t[i]];
      assert t + [x] == (s + [x])[i := (t + [x])[i]];
    }
  }

  lemma AppendKeepsDelete(s: string, t: string, x: char)
    requires DeletesOne(s, t)
    ensures DeletesOne(s + [x], t + [x])
  {
    var i :| 0 <= i < |s| && t == s[..i] + s[i + 1..];
    assert t + [x] == (s + [x])[..i] + (s + [x])[i + 1..];
  }

  /** The chain with `x` written at the end of every string. */
  ghost function AppendToAll(chain: seq<string>, x: char): seq<string> {
    seq(|chain|, i requires 0 <= i < |chain| => chain[i] + [x])
  }

  lemma AppendKeepsChain(chain: seq<string>, a: string, b: string, x: char)
    requires EditChain(chain, a, b)
    ensures EditChain(AppendToAll(chain, x), a + [x], b + [x])
  {
    forall i | 0 <= i < |chain| - 1
      ensures OneEdit(AppendToAll(chain, x)[i], AppendToAll(chain, x)[i + 1])
    {
      AppendKeepsOneEdit(chain[i], chain[i + 1], x);
    }
  }

  lemma LastDeleted(s: string)
    requires s != ""
    ensures OneEdit(s, s[..|s| - 1]) && OneEdit(s[..|s| - 1], s)
  {
    var n := |s| - 1;
    assert s[..n] == s[..n] + s[n + 1..];
    assert DeletesOne(s, s[..n]);
  }

  /** A chain for the prefixes gives one for both strings, one step longer if the last characters differ. */
  lemma AppendLast(rest: seq<string>, a: string, b: string, x: char, y: char) returns (chain: seq<string>)
    requires EditChain(rest, a, b)
    ensures EditChain(chain, a + [x], b + [y]) && |chain| == |rest| + Cost(x, y)
  {
    AppendKeepsChain(rest, a, b, x);
    chain := AppendToAll(rest, x);
    if x != y {
      assert b + [y] == (b + [x])[|b| := (b + [y])[|b|]];
      assert SubstitutesOne(b + [x], b + [y]);
      chain := chain + [b + [y]];
    }
  }

  /** A chain from `a` without its last character gives one from `a`, and the same at the other end. */
  lemma DeleteFirst(rest: seq<string>, a: string, b: string)
    requires a != "" && EditChain(rest, a[..|a| - 1], b)
    ensures EditChain([a] + rest, a, b)
  {
    LastDeleted(a);
  }

  lemma InsertLast(rest: seq<string>, a: string, b: string)
    requires b != "" && EditChain(rest, a, b[..|b| - 1])
    ensures EditChain(rest + [b], a, b)
  {
    LastDeleted(b);
  }

  lemma SubstituteLast(rest: seq<string>, a: string, b: string) returns (chain: seq<string>)
    requires a != "" && b != "" && EditChain(rest, a[..|a| - 1], b[..|b| - 1])
    ensures EditChain(chain, a, b) && |chain| == |rest| + Cost(a[|a| - 1], b[|b| - 1])
  {
    var a', b', x, y := a[..|a| - 1], b[..|b| - 1], a[|a| - 1], b[|b| - 1];
    assert a == a' + [x] && b == b' + [y];
    chain := AppendLast(rest, a', b', x, y);
  }

  /** Some chain of edits is exactly as long as the computed distance. */
  lemma {:induction false} ShortestEditChain(a: string, b: string) returns (chain: seq<string>)
    ensures EditChain(chain, a, b) && |chain| == Levenshtein(a, b) + 1
    decreases |a| + |b|
  {
    if a == "" && b == "" {
      chain := [a];
    } else if b == "" || (a != "" && Levenshtein(a, b) == Levenshtein(a[..|a| - 1], b) + 1) {
      var rest := ShortestEditChain(a[..|a| - 1], b);
      DeleteFirst(rest, a, b);
      chain := [a] + rest;
    } else if a == "" || Levenshtein(a, b) == Levenshtein(a, b[..|b| - 1]) + 1 {
      var rest := ShortestEditChain(a, b[..|b| - 1]);
      InsertLast(rest, a, b);
      chain := rest + [b];
    } else {
      var rest := ShortestEditChain(a[..|a| - 1], b[..|b| - 1]);
      chain := SubstituteLast(rest, a, b);
    }
  }

  /** The distance is the least number of single-character edits, for all strings. */
  lemma LevenshteinIsMinimalEditCount(a: string, b: string)
    ensures exists chain :: EditChain(chain, a, b) && |chain| == Levenshtein(a, b) + 1
    ensures forall chain :: EditChain(chain, a, b) ==> Levenshtein(a, b) <= |chain| - 1
  {
    var shortest := ShortestEditChain(a, b);
    forall chain | EditChain(chain, a, b)
      ensures Levenshtein(a, b) <= |chain| - 1
    {
      NoShorterEditChain(chain, a, b);
    }
  }

  /** `d` edits lead from one string to the other, and fewer do not. */
  ghost predicate IsLeastEditCount(d: nat, a: string, b: string) {
    && (exists chain :: EditChain(chain, a, b) && |chain| == d + 1)
    && forall chain :: EditChain(chain, a, b) ==> d <= |chain| - 1
  }

  lemma LeastEditCountIff(d: nat, a: string, b: string)
    ensures IsLeastEditCount(d, a, b) <==> d == Levenshtein(a, b)
  {
    LevenshteinIsMinimalEditCount(a, b);
  }

  // ---- The loop ----

  /** Cell (i, j) of the distance matrix of `a` and `b`. */
  ghost function Cell(a: string, b: string, i: nat, j: nat): nat
    requires i <= |a| && j <= |b|
  {
    Levenshtein(a[..i], b[..j])
  }

  lemma CellRecurrence(a: string, b: string, i: nat, j: nat)
    requires i < |a| && j < |b|
    ensures Cell(a, b, i + 1, j + 1)
         == Min(Min(Cell(a, b, i + 1, j) + 1, Cell(a, b, i, j + 1) + 1), Cell(a, b, i, j) + Cost(a[i], b[j]))
  {
    assert a[..i + 1][..i] == a[..i] && b[..j + 1][..j] == b[..j];
  }

  ghost predicate IsRow(row: seq<nat>, a: string, b: string, i: nat)
    requires i <= |a|
  {
    |row| == |b| + 1 && forall j :: 0 <= j <= |b| ==> row[j] == Cell(a, b, i, j)
  }

  /** One turn of the outer loop: row `v1` from row `v0`. */
  method FillRow(a: string, b: string, i: nat, v0: array<nat>, v1: array<nat>)
    requires i < |a| && v0 != v1
    requires IsRow(v0[..], a, b, i) && v1.Length == v0.Length
    modifies v1
    ensures IsRow(v1[..], a, b, i + 1)
  {
    ghost var row := v0[..];
    v1[0] := i + 1;
    for j := 0 to |b|
      invariant v0[..] == row
      invariant forall k :: 0 <= k <= j ==> v1[k] == Cell(a, b, i + 1, k)
    {
      var cost := if a[i] == b[j] then 0 else 1;
      CellRecurrence(a, b, i, j);
      assert v0[j] == row[j] && v0[j + 1] == row[j + 1];
      v1[j + 1] := Min(Min(v1[j] + 1, v0[j + 1] + 1), v0[j] + cost);
    }
  }

  method CopyRow(v0: array<nat>, v1: array<nat>)
    requires v0 != v1 && v0.Length == v1.Length
    modifies v0
    ensures v0[..] == v1[..]
  {
    for j := 0 to v0.Length
      invariant v0[..j] == v1[..j]
    {
      v0[j] := v1[j];
    }
  }

  /** `_levenshtein_distance`: the early exits, then the two rows updated in place. */
  method LevenshteinDistance(a: string, b: string) returns (distance: nat)
    ensures distance == Levenshtein(a, b)
  {
    if a == b {
      LevenshteinZeroIffEqual(a, b);
      return 0;
    }
    if a == "" {
      return |b|;
    }
    if b == "" {
      return |a|;
    }
    var v0 := new nat[|b| + 1](j => j);
    var v1 := new nat[|b| + 1];
    for i := 0 to |a|
      invariant IsRow(v0[..], a, b, i)
      invariant i > 0 ==> v1[..] == v0[..]
    {
      FillRow(a, b, i, v0, v1);
      CopyRow(v0, v1);
    }
    assert a[..|a|] == a && b[..|b|] == b;
    assert IsRow(v1[..], a, b, |a|);
    return v1[|b|];
  }
}
