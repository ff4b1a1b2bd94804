/** The decision procedure of the crash comparer. Ratios and thresholds are real numbers. */
module CrashComparer {
  import opened Outcomes
  import EditDistance
  import CommonSubsequence
  import Numbers

  const COMPARE_THRESHOLD: real := 0.8
  const SAME_FRAMES_THRESHOLD: nat := 2
  const FUZZER_HASH_MARKER: string := "FuzzerHash="

  /** Substring search, Python's `in`. */
  predicate Contains(s: string, part: string) {
    exists i | 0 <= i <= |s| :: OccursAt(part, s, i)
  }

  predicate OccursAt(part: string, s: string, i: nat)
    requires i <= |s|
  {
    part <= s[i..]
  }

  lemma ContainsIff(s: string, part: string)
    ensures Contains(s, part) <==> exists before, after :: s == before + (part + after)
  {
    if i :| 0 <= i <= |s| && OccursAt(part, s, i) {
      assert s == s[..i] + (part + s[i + |part|..]);
    }
    if before, after :| s == before + (part + after) {
      assert s[|before|..] == part + after;
      assert OccursAt(part, s, |before|);
    }
  }

  // ---- Python's str.splitlines ----

  predicate IsLineBreak(c: char) {
    c in {'\n', '\r', '\U{0b}', '\U{0c}', '\U{1c}', '\U{1d}', '\U{1e}', '\U{85}', '\U{2028}', '\U{2029}'}
  }

  /** Number of characters before the first line break. */
  function LineLength(s: string): (n: nat)
    ensures n <= |s|
    ensures forall i :: 0 <= i < n ==> !IsLineBreak(s[i])
    ensures n < |s| ==> IsLineBreak(s[n])
  {
    if s == "" || IsLineBreak(s[0]) then 0 else 1 + LineLength(s[1..])
  }

  /** Number of characters of the line break at the head of `s`: "\r\n" is one break. */
  function BreakLength(s: string): (n: nat)
    ensures n <= |s|
  {
    if s == "" then 0 else if |s| >= 2 && s[0] == '\r' && s[1] == '\n' then 2 else 1
  }

  function SplitLines(s: string): (lines: seq<string>)
    ensures lines == [] <==> s == ""
    ensures forall i, j :: 0 <= i < |lines| && 0 <= j < |lines[i]| ==> !IsLineBreak(lines[i][j])
    decreases |s|
  {
    if s == "" then []
    else
      var n := LineLength(s);
      [s[..n]] + SplitLines(s[n..][BreakLength(s[n..])..])
  }

  /** The line boundaries of Python: carriage return and line feed together, and alone; vertical tab; form
      feed; file, group and record separator; next line; line and paragraph separator. */
  ghost predicate IsBreakText(s: string) {
    || s == "\r\n" || s == "\r" || s == "\n" || s == "\U{0b}" || s == "\U{0c}"
    || s == "\U{1c}" || s == "\U{1d}" || s == "\U{1e}" || s == "\U{85}" || s == "\U{2028}" || s == "\U{2029}"
  }

  lemma LineBreakIff(c: char)
    ensures IsLineBreak(c) <==> IsBreakText([c])
  {
    assert [c][0] == c;
  }

  /** Every line followed by its break. */
  ghost function Interleave(lines: seq<string>, breaks: seq<string>): string
    requires |lines| == |breaks|
  {
    if lines == [] then "" else lines[0] + (breaks[0] + Interleave(lines[1..], breaks[1..]))
  }

  ghost predicate AreBreaks(breaks: seq<string>) {
    forall i :: 0 <= i < |breaks| ==> IsBreakText(breaks[i]) || (i == |breaks| - 1 && breaks[i] == "")
  }

  lemma OneMoreLine(line: string, br: string, lines: seq<string>, breaks: seq<string>)
    requires |lines| == |breaks| && AreBreaks(breaks) && (IsBreakText(br) || (br == "" && breaks == []))
    ensures Interleave([line] + lines, [br] + breaks) == line + (br + Interleave(lines, breaks))
    ensures AreBreaks([br] + breaks)
  {
    assert ([line] + lines)[1..] == lines && ([br] + breaks)[1..] == breaks;
  }

  lemma BreakIsBreakText(s: string)
    requires s != "" && IsLineBreak(s[0])
    ensures IsBreakText(s[..BreakLength(s)])
  {
    LineBreakIff(s[0]);
    if BreakLength(s) == 2 {
      assert s[..2] == [s[0], s[1]] == "\r\n";
    } else {
      assert s[..1] == [s[0]];
    }
  }

  lemma CutTwice(s: string, n: nat, m: nat)
    requires n <= |s| && m <= |s[n..]|
    ensures s == s[..n] + (s[n..][..m] + s[n..][m..])
  {
  }

  lemma BreakAtTail(s: string, n: nat)
    requires n == LineLength(s)
    ensures s[n..] == "" || IsBreakText(s[n..][..BreakLength(s[n..])])
  {
    if s[n..] != "" {
      assert s[n..][0] == s[n];
      BreakIsBreakText(s[n..]);
    }
  }

  lemma FirstBreak(s: string) returns (line: string, br: string, rest: string)
    requires s != ""
    ensures s == line + (br + rest) && |rest| < |s|
    ensures IsBreakText(br) || (br == "" && rest == "")
    ensures SplitLines(s) == [line] + SplitLines(rest)
  {
    var n := LineLength(s);
    var m := BreakLength(s[n..]);
    line, br, rest := s[..n], s[n..][..m], s[n..][m..];
    CutTwice(s, n, m);
    BreakAtTail(s, n);
  }

  /** Splitting loses only the breaks: the text is its lines with one break after each, except perhaps the
      last. */
  lemma {:induction false} LinesAndBreaks(s: string) returns (breaks: seq<string>)
    ensures |breaks| == |SplitLines(s)| && Interleave(SplitLines(s), breaks) == s
    ensures AreBreaks(breaks)
    decreases |s|
  {
    breaks := [];
    if s != "" {
      var line, br, rest := FirstBreak(s);
      var others := LinesAndBreaks(rest);
      OneMoreLine(line, br, SplitLines(rest), others);
      breaks := [br] + others;
    }
  }

  /** `line` is the first line of `s`: it holds no boundary, and the one that ends it is whole, or missing only
      at the end of the text. */
  ghost predicate IsFirstLine(line: string, br: string, rest: string, s: string) {
    && s != ""
    && s == line + (br + rest)
    && (forall i :: 0 <= i < |line| ==> !IsBreakText([line[i]]))
    && (IsBreakText(br) || (br == "" && rest == ""))
    && !(br == "\r" && "\n" <= rest)
  }

  ghost predicate IsLineSplit(lines: seq<string>, s: string) {
    if lines == [] then s == ""
    else exists br, rest :: IsFirstLine(lines[0], br, rest, s) && IsLineSplit(lines[1..], rest)
  }

  /** The first character after the line starts a boundary, or there is none. */
  lemma LineEnds(line: string, br: string, rest: string, s: string)
    requires IsFirstLine(line, br, rest, s)
    ensures |line| <= |s| && line == s[..|line|] && br + rest == s[|line|..]
    ensures forall i :: 0 <= i < |line| ==> !IsLineBreak(s[i])
    ensures |line| == |s| || IsLineBreak(s[|line|])
  {
    forall i | 0 <= i < |line|
      ensures !IsLineBreak(s[i])
    {
      assert s[i] == line[i];
      LineBreakIff(s[i]);
    }
    if br != "" {
      assert s[|line|] == br[0];
      assert IsBreakText([br[0]]);
      LineBreakIff(br[0]);
    }
  }

  lemma FirstLineIsUnique(line: string, br: string, rest: string, line': string, br': string, rest': string, s: string)
    requires IsFirstLine(line, br, rest, s) && IsFirstLine(line', br', rest', s)
    ensures line == line' && br == br' && rest == rest'
  {
    LineEnds(line, br, rest, s);
    LineEnds(line', br', rest', s);
    assert |line| == |line'|;
    SameBreak(br, rest, br', rest');
  }

  /** How long the break at the head of a text is: a carriage return takes the line feed after it along. */
  lemma BreakIsWhole(br: string, rest: string, s: string)
    requires s == br + rest
    requires IsBreakText(br) || (br == "" && rest == "")
    requires !(br == "\r" && "\n" <= rest)
    ensures |br| == if s == "" then 0 else if "\r\n" <= s then 2 else 1
  {
    if br != "" {
      assert s[0] == br[0];
      if |br| == 1 && |s| >= 2 {
        assert s[1] == rest[0];
      }
    }
  }

  lemma SameBreak(br: string, rest: string, br': string, rest': string)
    requires br + rest == br' + rest'
    requires IsBreakText(br) || (br == "" && rest == "")
    requires IsBreakText(br') || (br' == "" && rest' == "")
    requires !(br == "\r" && "\n" <= rest) && !(br' == "\r" && "\n" <= rest')
    ensures br == br' && rest == rest'
  {
    var s := br + rest;
    BreakIsWhole(br, rest, s);
    BreakIsWhole(br', rest', s);
    assert br == s[..|br|] && rest == s[|br|..];
    assert br' == s[..|br'|] && rest' == s[|br'|..];
  }

  lemma FirstLineOfSplit(s: string) returns (br: string, rest: string)
    requires s != ""
    ensures IsFirstLine(SplitLines(s)[0], br, rest, s) && SplitLines(s)[1..] == SplitLines(rest) && |rest| < |s|
  {
    var n := LineLength(s);
    var m := BreakLength(s[n..]);
    br, rest := s[n..][..m], s[n..][m..];
    CutTwice(s, n, m);
    BreakAtTail(s, n);
    forall i | 0 <= i < n
      ensures !IsBreakText([s[..n][i]])
    {
      LineBreakIff(s[i]);
    }
  }

  lemma LineSplitOfFirst(lines: seq<string>, line: string, br: string, rest: string, s: string)
    requires IsFirstLine(line, br, rest, s)
    ensures IsLineSplit(lines, s) <==> lines != [] && lines[0] == line && IsLineSplit(lines[1..], rest)
  {
    if IsLineSplit(lines, s) {
      var br', rest' :| IsFirstLine(lines[0], br', rest', s) && IsLineSplit(lines[1..], rest');
      FirstLineIsUnique(lines[0], br', rest', line, br, rest, s);
    }
  }

  /** The lines of a text are what Python calls its lines, and nothing else is. */
  lemma {:induction false} SplitLinesIff(lines: seq<string>, s: string)
    ensures lines == SplitLines(s) <==> IsLineSplit(lines, s)
    decreases |s|
  {
    if s != "" {
      var all := SplitLines(s);
      var br, rest := FirstLineOfSplit(s);
      LineSplitOfFirst(lines, all[0], br, rest, s);
      if lines != [] {
        SplitLinesIff(lines[1..], rest);
        FirstAndRest(lines, all);
      }
    }
  }

  lemma FirstAndRest(lines: seq<string>, all: seq<string>)
    requires lines != [] && all != []
    ensures lines == all <==> lines[0] == all[0] && lines[1..] == all[1..]
  {
    assert lines == [lines[0]] + lines[1..] && all == [all[0]] + all[1..];
  }

  // ---- Ratios ----

  function SimilarityRatio(a: string, b: string): real {
    var lengthSum := |a| + |b|;
    if lengthSum == 0 then 1.0
    else (lengthSum - EditDistance.Levenshtein(a, b)) as real / lengthSum as real
  }

  /** The ratio is a similarity: between 0 and 1, 1 exactly on equal lines, the same both ways. */
  lemma SimilarityRatioLaws(a: string, b: string)
    ensures 0.0 <= SimilarityRatio(a, b) <= 1.0
    ensures SimilarityRatio(a, b) == 1.0 <==> a == b
    ensures SimilarityRatio(a, b) == SimilarityRatio(b, a)
  {
    EditDistance.LevenshteinBounds(a, b);
    EditDistance.LevenshteinZeroIffEqual(a, b);
    EditDistance.LevenshteinSymmetric(a, b);
    if |a| + |b| != 0 {
      FractionBounds((|a| + |b| - EditDistance.Levenshtein(a, b)) as real, (|a| + |b|) as real);
    }
  }

  /** `r` times `n` is `x`. */
  ghost predicate IsShare(r: real, n: nat, x: real) {
    r * n as real == x
  }

  lemma ShareIff(r: real, n: nat, x: real)
    requires n > 0
    ensures IsShare(r, n, x) <==> r == x / n as real
  {
    var y := n as real;
    assert x / y * y == x;
    if r * y == x {
      assert (r - x / y) * y == 0.0;
    }
  }

  /** `r` is the ratio of two lines: 1 if both are empty, and otherwise the share of their summed lengths that is
      left when the least number of edits between them is taken off. */
  ghost predicate IsRatio(r: real, a: string, b: string) {
    if a == "" && b == "" then r == 1.0
    else exists d: nat :: EditDistance.IsLeastEditCount(d, a, b) && IsShare(r, |a| + |b|, (|a| + |b| - d) as real)
  }

  lemma RatioIff(r: real, a: string, b: string)
    ensures IsRatio(r, a, b) <==> r == SimilarityRatio(a, b)
  {
    if a != "" || b != "" {
      var d := EditDistance.Levenshtein(a, b);
      EditDistance.LeastEditCountIff(d, a, b);
      ShareIff(r, |a| + |b|, (|a| + |b| - d) as real);
      forall other: nat | EditDistance.IsLeastEditCount(other, a, b)
        ensures other == d
      {
        EditDistance.LeastEditCountIff(other, a, b);
      }
    }
  }

  lemma FractionBounds(x: real, y: real)
    requires 0.0 <= x <= y && 0.0 < y
    ensures 0.0 <= x / y <= 1.0
    ensures x / y == 1.0 <==> x == y
  {
    assert x / y * y == x;
  }

  method ComputeSimilarityRatio(a: string, b: string) returns (ratio: real)
    ensures ratio == SimilarityRatio(a, b) && IsRatio(ratio, a, b)
  {
    RatioIff(SimilarityRatio(a, b), a, b);
    var lengthSum := |a| + |b|;
    if lengthSum == 0 {
      return 1.0;
    }
    var distance := EditDistance.LevenshteinDistance(a, b);
    return (lengthSum - distance) as real / lengthSum as real;
  }

  // ---- The verdict ----

  function LinesCompared(lines1: seq<string>, lines2: seq<string>): nat {
    if |lines1| < |lines2| then |lines1| else |lines2|
  }

  /** Sum of the ratios of the first `n` line pairs. */
  function RatioSum(lines1: seq<string>, lines2: seq<string>, n: nat): real
    requires n <= LinesCompared(lines1, lines2)
  {
    if n == 0 then 0.0
    else RatioSum(lines1, lines2, n - 1) + SimilarityRatio(lines1[n - 1], lines2[n - 1])
  }

  function RatioAverage(lines1: seq<string>, lines2: seq<string>): real
    requires lines1 != [] && lines2 != []
  {
    var n := LinesCompared(lines1, lines2);
    RatioSum(lines1, lines2, n) / n as real
  }

  predicate LinesSimilar(lines1: seq<string>, lines2: seq<string>, threshold: real)
    requires lines1 != [] && lines2 != []
  {
    || CommonSubsequence.Lcs(lines1, lines2) >= SAME_FRAMES_THRESHOLD
    || RatioAverage(lines1, lines2) > threshold
  }

  /** The verdict on two crash states. */
  predicate Similar(state1: string, state2: string, threshold: real) {
    && state1 != ""
    && state2 != ""
    && (|| state1 == state2
        || (&& !Contains(state1, FUZZER_HASH_MARKER)
            && LinesSimilar(SplitLines(state1), SplitLines(state2), threshold)))
  }

  lemma {:induction false} RatioSumLaws(lines1: seq<string>, lines2: seq<string>, n: nat)
    requires n <= LinesCompared(lines1, lines2)
    ensures 0.0 <= RatioSum(lines1, lines2, n) <= n as real
    ensures RatioSum(lines1, lines2, n) == n as real <==> lines1[..n] == lines2[..n]
    ensures RatioSum(lines1, lines2, n) == RatioSum(lines2, lines1, n)
  {
    if n != 0 {
      var a, b := lines1[n - 1], lines2[n - 1];
      RatioSumLaws(lines1, lines2, n - 1);
      SimilarityRatioLaws(a, b);
      OneMoreOfEach(lines1, lines2, n);
      AddRatio(RatioSum(lines1, lines2, n - 1), SimilarityRatio(a, b), (n - 1) as real);
    }
  }

  lemma OneMoreOfEach(lines1: seq<string>, lines2: seq<string>, n: nat)
    requires 0 < n <= |lines1| && n <= |lines2|
    ensures lines1[..n] == lines2[..n] <==> lines1[..n - 1] == lines2[..n - 1] && lines1[n - 1] == lines2[n - 1]
  {
    assert lines1[..n] == lines1[..n - 1] + [lines1[n - 1]];
    assert lines2[..n] == lines2[..n - 1] + [lines2[n - 1]];
  }

  lemma AddRatio(sum: real, r: real, n: real)
    requires 0.0 <= sum <= n && 0.0 <= r <= 1.0
    ensures 0.0 <= sum + r <= n + 1.0 && (sum + r == n + 1.0 <==> sum == n && r == 1.0)
  {
  }

  /** The ratios of the line pairs compared, one each. */
  ghost predicate AreRatios(ratios: seq<real>, lines1: seq<string>, lines2: seq<string>) {
    && (|ratios| == |lines1| || |ratios| == |lines2|)
    && |ratios| <= |lines1| && |ratios| <= |lines2|
    && forall i :: 0 <= i < |ratios| ==> IsRatio(ratios[i], lines1[i], lines2[i])
  }

  lemma {:induction false} RatioSumIsSum(ratios: seq<real>, lines1: seq<string>, lines2: seq<string>, n: nat)
    requires AreRatios(ratios, lines1, lines2) && n <= |ratios|
    ensures RatioSum(lines1, lines2, n) == Numbers.Sum(ratios[..n])
  {
    if n > 0 {
      RatioSumIsSum(ratios, lines1, lines2, n - 1);
      RatioIff(ratios[n - 1], lines1[n - 1], lines2[n - 1]);
      assert ratios[..n][..n - 1] == ratios[..n - 1];
    }
  }

  lemma RatiosOf(lines1: seq<string>, lines2: seq<string>) returns (ratios: seq<real>)
    ensures AreRatios(ratios, lines1, lines2)
  {
    var n := LinesCompared(lines1, lines2);
    ratios := seq(n, i requires 0 <= i < n => SimilarityRatio(lines1[i], lines2[i]));
    forall i | 0 <= i < n
      ensures IsRatio(ratios[i], lines1[i], lines2[i])
    {
      RatioIff(SimilarityRatio(lines1[i], lines2[i]), lines1[i], lines2[i]);
    }
  }

  /** The average is the sum of the ratios of the line pairs compared over their number. */
  lemma AverageOfRatios(ratios: seq<real>, lines1: seq<string>, lines2: seq<string>)
    requires lines1 != [] && lines2 != [] && AreRatios(ratios, lines1, lines2)
    ensures ratios != [] && IsShare(RatioAverage(lines1, lines2), |ratios|, Numbers.Sum(ratios))
  {
    var n := LinesCompared(lines1, lines2);
    RatioSumIsSum(ratios, lines1, lines2, n);
    assert |ratios| == n && ratios[..n] == ratios;
    ShareIff(RatioAverage(lines1, lines2), n, RatioSum(lines1, lines2, n));
  }

  /** At least one line pair is compared for non-empty states, and the average of the ratios lies between
      0 and 1; it is 1 only if all compared lines agree. */
  lemma RatioAverageBounds(state1: string, state2: string)
    requires state1 != "" && state2 != ""
    ensures LinesCompared(SplitLines(state1), SplitLines(state2)) >= 1
    ensures 0.0 <= RatioAverage(SplitLines(state1), SplitLines(state2)) <= 1.0
    ensures RatioAverage(SplitLines(state1), SplitLines(state2)) == 1.0
       <==> SplitLines(state1) <= SplitLines(state2) || SplitLines(state2) <= SplitLines(state1)
  {
    var lines1, lines2 := SplitLines(state1), SplitLines(state2);
    var n := LinesCompared(lines1, lines2);
    RatioSumLaws(lines1, lines2, n);
    var sum := RatioSum(lines1, lines2, n);
    FractionBounds(sum, n as real);
    if |lines1| == n {
      assert lines1[..n] == lines1;
    } else {
      assert lines2[..n] == lines2;
    }
  }

  lemma LinesSimilarSymmetric(lines1: seq<string>, lines2: seq<string>, threshold: real)
    requires lines1 != [] && lines2 != []
    ensures LinesSimilar(lines1, lines2, threshold) == LinesSimilar(lines2, lines1, threshold)
  {
    CommonSubsequence.LcsSymmetric(lines1, lines2);
    RatioSumLaws(lines1, lines2, LinesCompared(lines1, lines2));
  }

  /** The verdict does not depend on the order of the states, except when exactly one of them carries
      the fuzzer hash marker and the lines are similar: the code looks for the marker in the first only. */
  lemma SimilarIsSymmetricIff(state1: string, state2: string, threshold: real)
    requires state1 != "" && state2 != ""
    ensures Similar(state1, state2, threshold) == Similar(state2, state1, threshold)
       <==> || (Contains(state1, FUZZER_HASH_MARKER) <==> Contains(state2, FUZZER_HASH_MARKER))
            || !LinesSimilar(SplitLines(state1), SplitLines(state2), threshold)
  {
    LinesSimilarSymmetric(SplitLines(state1), SplitLines(state2), threshold);
  }

  /** Any state of one plain line is similar to the state that goes on below it with a fuzzer hash, and
      the longer state is not similar to it. */
  lemma MarkerBelowIsOrderDependent(line: string, rest: string)
    requires line != "" && (forall i :: 0 <= i < |line| ==> !IsLineBreak(line[i]))
    requires rest != "" && IsLineBreak(rest[0])
    requires !Contains(line, FUZZER_HASH_MARKER) && Contains(line + rest, FUZZER_HASH_MARKER)
    ensures Similar(line, line + rest, COMPARE_THRESHOLD)
    ensures !Similar(line + rest, line, COMPARE_THRESHOLD)
  {
    var whole := line + rest;
    assert forall i :: 0 <= i < |line| ==> whole[i] == line[i];
    assert whole[|line|] == rest[0];
    assert LineLength(line) == |line| && LineLength(whole) == |line|;
    assert line[..|line|] == line == (line + rest)[..|line|];
    assert SplitLines(line) == [line];
    assert SplitLines(line) <= SplitLines(line + rest);
    RatioAverageBounds(line, line + rest);
  }

  lemma TooShortToContain(s: string, part: string)
    requires |s| < |part|
    ensures !Contains(s, part)
  {
  }

  lemma ContainsAtEnd(s: string, part: string)
    ensures Contains(s + part, part)
  {
    assert (s + part)[|s|..] == part;
    assert OccursAt(part, s + part, |s|);
  }

  /** Such a pair exists. */
  lemma SimilarIsNotSymmetric()
    ensures exists a, b :: Similar(a, b, COMPARE_THRESHOLD) && !Similar(b, a, COMPARE_THRESHOLD)
  {
    var line, rest := "f", "\n" + FUZZER_HASH_MARKER;
    assert line + rest == "f\n" + FUZZER_HASH_MARKER;
    ContainsAtEnd("f\n", FUZZER_HASH_MARKER);
    TooShortToContain(line, FUZZER_HASH_MARKER);
    MarkerBelowIsOrderDependent(line, rest);
  }

  /** What the verdict means, for any two states: none of them is empty, and they are the same text, or the first
      holds no fuzzer hash and their lines have two in common in the same order or ratios whose average exceeds
      the threshold. */
  lemma SimilarIff(state1: string, state2: string, threshold: real)
    ensures Similar(state1, state2, threshold)
       <==> && state1 != "" && state2 != ""
            && (|| state1 == state2
                || (&& !(exists before, after :: state1 == before + ("FuzzerHash=" + after))
                    && exists lines1, lines2 ::
                         && IsLineSplit(lines1, state1) && IsLineSplit(lines2, state2)
                         && (HaveTwoInCommon(lines1, lines2) || RatiosExceed(lines1, lines2, threshold))))
  {
    if state1 != "" && state2 != "" {
      ContainsIff(state1, "FuzzerHash=");
      var lines1, lines2 := SplitLines(state1), SplitLines(state2);
      CommonSubsequence.LcsAtLeastIff(lines1, lines2, 2);
      RatiosExceedIff(lines1, lines2, threshold);
      SplitLinesIff(lines1, state1);
      SplitLinesIff(lines2, state2);
      forall l1, l2 | IsLineSplit(l1, state1) && IsLineSplit(l2, state2)
        ensures l1 == lines1 && l2 == lines2
      {
        SplitLinesIff(l1, state1);
        SplitLinesIff(l2, state2);
      }
    }
  }

  /** Some two lines occur in both, in the same order. */
  ghost predicate HaveTwoInCommon(lines1: seq<string>, lines2: seq<string>) {
    exists w :: |w| == 2 && CommonSubsequence.IsCommonSubsequence(w, lines1, lines2)
  }

  ghost predicate RatiosExceed(lines1: seq<string>, lines2: seq<string>, threshold: real) {
    exists ratios :: AreRatios(ratios, lines1, lines2) && Exceeds(Numbers.Sum(ratios), |ratios|, threshold)
  }

  /** The sum is more than `n` times the threshold. */
  ghost predicate Exceeds(sum: real, n: nat, threshold: real) {
    sum > threshold * n as real
  }

  lemma RatiosExceedOnly(ratios: seq<real>, lines1: seq<string>, lines2: seq<string>, threshold: real)
    requires lines1 != [] && lines2 != [] && AreRatios(ratios, lines1, lines2)
    ensures Exceeds(Numbers.Sum(ratios), |ratios|, threshold) <==> RatioAverage(lines1, lines2) > threshold
  {
    AverageOfRatios(ratios, lines1, lines2);
    Scaled(RatioAverage(lines1, lines2), threshold, |ratios|, Numbers.Sum(ratios));
  }

  lemma RatiosExceedIff(lines1: seq<string>, lines2: seq<string>, threshold: real)
    requires lines1 != [] && lines2 != []
    ensures RatiosExceed(lines1, lines2, threshold) <==> RatioAverage(lines1, lines2) > threshold
  {
    var ratios := RatiosOf(lines1, lines2);
    RatiosExceedOnly(ratios, lines1, lines2, threshold);
    if other :| AreRatios(other, lines1, lines2) && Exceeds(Numbers.Sum(other), |other|, threshold) {
      RatiosExceedOnly(other, lines1, lines2, threshold);
    }
  }

  lemma TimesPositive(x: real, y: real, z: real)
    requires z > 0.0 && x <= y
    ensures x * z <= y * z
    ensures x < y ==> x * z < y * z
  {
    var gap := y - x;
    assert gap * z >= 0.0;
    assert gap > 0.0 ==> gap * z > 0.0;
    assert y * z == x * z + gap * z;
  }

  lemma Scaled(x: real, y: real, n: nat, sum: real)
    requires n > 0 && IsShare(x, n, sum)
    ensures Exceeds(sum, n, y) <==> x > y
  {
    if x > y {
      TimesPositive(y, x, n as real);
    } else {
      TimesPositive(x, y, n as real);
    }
  }

  class CrashComparer {
    const crashState1: string
    const crashState2: string
    const compareThreshold: real

    /** A missing threshold and a zero one both give the default. */
    constructor (crashState1: string, crashState2: string, compareThreshold: Option<real>)
      ensures this.crashState1 == crashState1 && this.crashState2 == crashState2
      ensures this.compareThreshold
           == if compareThreshold.None? || compareThreshold.value == 0.0 then 0.8 else compareThreshold.value
    {
      this.crashState1 := crashState1;
      this.crashState2 := crashState2;
      this.compareThreshold :=
        if compareThreshold.None? || compareThreshold.value == 0.0 then COMPARE_THRESHOLD
        else compareThreshold.value;
    }

    method IsSimilar() returns (similar: bool)
      ensures similar == Similar(crashState1, crashState2, compareThreshold)
    {
      if crashState1 == "" || crashState2 == "" {
        return false;
      }
      if crashState1 == crashState2 {
        return true;
      }
      if Contains(crashState1, FUZZER_HASH_MARKER) {
        return false;
      }
      var lines1, lines2 := SplitLines(crashState1), SplitLines(crashState2);
      var common := CommonSubsequence.LongestCommonSubsequence(lines1, lines2);
      if common >= SAME_FRAMES_THRESHOLD {
        return true;
      }
      var linesCompared, ratioSum := 0, 0.0;
      for i := 0 to |lines1|
        invariant linesCompared == i <= LinesCompared(lines1, lines2)
        invariant ratioSum == RatioSum(lines1, lines2, linesCompared)
      {
        if i >= |lines2| {
          break;
        }
        var ratio := ComputeSimilarityRatio(lines1[i], lines2[i]);
        linesCompared := linesCompared + 1;
        ratioSum := ratioSum + ratio;
      }
      return ratioSum / linesCompared as real > compareThreshold;
    }
  }
}
