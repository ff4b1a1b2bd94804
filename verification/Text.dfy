/** Strings as the Python sources use them: code-point order, and decimal numerals as `str` writes and `int`
    reads them. */
module Text {
  import opened Outcomes

  // ---- Order ----

  predicate StringLe(a: string, b: string) {
    if a == "" then true
    else if b == "" then false
    else a[0] < b[0] || (a[0] == b[0] && StringLe(a[1..], b[1..]))
  }

  lemma {:induction false} StringLeAntisymmetric(a: string, b: string)
    requires StringLe(a, b) && StringLe(b, a)
    ensures a == b
  {
    if a != "" {
      StringLeAntisymmetric(a[1..], b[1..]);
      assert a == [a[0]] + a[1..] && b == [b[0]] + b[1..];
    }
  }

  lemma {:induction false} StringLeTotal(a: string, b: string)
    ensures StringLe(a, b) || StringLe(b, a)
  {
    if a != "" && b != "" {
      StringLeTotal(a[1..], b[1..]);
    }
  }

  lemma {:induction false} StringLeTransitive(a: string, b: string, c: string)
    requires StringLe(a, b) && StringLe(b, c)
    ensures StringLe(a, c)
  {
    if a != "" {
      if a[0] == b[0] == c[0] {
        StringLeTransitive(a[1..], b[1..], c[1..]);
      }
    }
  }

  /** The order: `a` begins `b`, or at the first place where they differ `a` has the smaller character. */
  lemma {:induction false} StringLeIff(a: string, b: string)
    ensures StringLe(a, b) <==>
              a <= b || exists k :: 0 <= k < |a| && k < |b| && a[..k] == b[..k] && a[k] < b[k]
  {
    if a != "" && b != "" {
      StringLeIff(a[1..], b[1..]);
      if a[0] == b[0] {
        StringLeSameFirst(a, b);
      } else {
        DifferAtFirst(a, b);
      }
    }
  }

  lemma DifferAtFirst(a: string, b: string)
    requires a != "" && b != "" && a[0] != b[0]
    ensures (exists k :: 0 <= k < |a| && k < |b| && a[..k] == b[..k] && a[k] < b[k]) <==> a[0] < b[0]
  {
    forall k | 0 < k < |a| && k < |b|
      ensures a[..k] != b[..k]
    {
      assert a[..k][0] == a[0] && b[..k][0] == b[0];
    }
    assert a[..0] == b[..0];
  }

  lemma StringLeSameFirst(a: string, b: string)
    requires a != "" && b != "" && a[0] == b[0]
    ensures a <= b <==> a[1..] <= b[1..]
    ensures (exists k :: 0 <= k < |a| && k < |b| && a[..k] == b[..k] && a[k] < b[k])
       <==> exists k :: 0 <= k < |a[1..]| && k < |b[1..]| && a[1..][..k] == b[1..][..k] && a[1..][k] < b[1..][k]
  {
    assert a == [a[0]] + a[1..] && b == [b[0]] + b[1..];
    if k :| 0 <= k < |a| && k < |b| && a[..k] == b[..k] && a[k] < b[k] {
      assert k > 0;
      assert a[1..][..k - 1] == a[..k][1..] && b[1..][..k - 1] == b[..k][1..];
      assert a[1..][k - 1] < b[1..][k - 1];
    }
    if k :| 0 <= k < |a[1..]| && k < |b[1..]| && a[1..][..k] == b[1..][..k] && a[1..][k] < b[1..][k] {
      assert a[..k + 1] == [a[0]] + a[1..][..k] && b[..k + 1] == [b[0]] + b[1..][..k];
      assert a[k + 1] < b[k + 1];
    }
  }

  // ---- Decimal numerals ----

  predicate IsDigit(c: char) {
    '0' <= c <= '9'
  }

  function Digit(d: nat): (c: char)
    requires d < 10
    ensures IsDigit(c) && DigitValue(c) == d
  {
    (d + '0' as int) as char
  }

  function DigitValue(c: char): nat
    requires IsDigit(c)
  {
    c as int - '0' as int
  }

  predicate AllDigits(s: string) {
    forall i :: 0 <= i < |s| ==> IsDigit(s[i])
  }

  function DigitsValue(s: string): nat
    requires AllDigits(s)
  {
    if s == "" then 0 else DigitsValue(s[..|s| - 1]) * 10 + DigitValue(s[|s| - 1])
  }

  /** Reading the digits gives the number back. */
  function NatToString(n: nat): (s: string)
    ensures s != "" && AllDigits(s) && DigitsValue(s) == n
  {
    if n < 10 then
      assert DigitsValue([Digit(n)]) == DigitsValue([Digit(n)][..0]) * 10 + n;
      [Digit(n)]
    else
      var front, last := NatToString(n / 10), Digit(n % 10);
      assert (front + [last])[..|front + [last]| - 1] == front;
      front + [last]
  }

  function Power10(n: nat): nat {
    if n == 0 then 1 else 10 * Power10(n - 1)
  }

  /** The first digit counts most. */
  lemma {:induction false} FirstDigitCountsMost(d: char, s: string)
    requires IsDigit(d) && AllDigits(s)
    ensures AllDigits([d] + s) && DigitsValue([d] + s) == DigitValue(d) * Power10(|s|) + DigitsValue(s)
    decreases |s|
  {
    if s == "" {
      assert [d] + s == [d] && [d][..0] == "";
      assert DigitsValue([d]) == DigitsValue("") * 10 + DigitValue(d);
    } else {
      var n := |s| - 1;
      FirstDigitCountsMost(d, s[..n]);
      assert ([d] + s)[..|[d] + s| - 1] == [d] + s[..n];
      TimesTen(DigitValue(d), Power10(n));
    }
  }

  lemma TimesTen(x: nat, y: nat)
    ensures (x * y) * 10 == x * (10 * y)
  {
  }

  /** Python's `str` of an integer. */
  function IntToString(n: int): string {
    if n < 0 then "-" + NatToString(-n) else NatToString(n)
  }

  predicate IsSpace(c: char) {
    c in {' ', '\t', '\n', '\r', '\U{0b}', '\U{0c}', '\U{1c}', '\U{1d}', '\U{1e}', '\U{1f}'}
  }

  function StripLeft(s: string): (r: string)
    ensures r != "" ==> !IsSpace(r[0])
  {
    if s != "" && IsSpace(s[0]) then StripLeft(s[1..]) else s
  }

  function StripRight(s: string): (r: string)
    ensures r != "" ==> !IsSpace(r[|r| - 1])
  {
    if s != "" && IsSpace(s[|s| - 1]) then StripRight(s[..|s| - 1]) else s
  }

  /** Digits, with single underscores allowed between them. */
  predicate IsNumeral(s: string) {
    && s != ""
    && IsDigit(s[0])
    && IsDigit(s[|s| - 1])
    && (forall i :: 0 <= i < |s| ==> IsDigit(s[i]) || s[i] == '_')
    && (forall i, j :: 0 <= i < |s| && j == i + 1 < |s| ==> s[i] != '_' || s[j] != '_')
  }

  function WithoutUnderscores(s: string): string {
    if s == "" then ""
    else WithoutUnderscores(s[..|s| - 1]) + if s[|s| - 1] == '_' then "" else [s[|s| - 1]]
  }

  lemma {:induction false} WithoutUnderscoresIsDigits(s: string)
    requires forall i :: 0 <= i < |s| ==> IsDigit(s[i]) || s[i] == '_'
    ensures AllDigits(WithoutUnderscores(s))
    ensures AllDigits(s) ==> WithoutUnderscores(s) == s
  {
    if s != "" {
      WithoutUnderscoresIsDigits(s[..|s| - 1]);
    }
  }

  /** Numerals are strings of digits, and numerals joined by an underscore, which does not count. */
  lemma NumeralLaws(a: string, b: string)
    ensures AllDigits(a) && a != "" ==> IsNumeral(a) && WithoutUnderscores(a) == a
    ensures IsNumeral(a) && IsNumeral(b) ==> IsNumeral(a + "_" + b)
    ensures WithoutUnderscores(a + "_" + b) == WithoutUnderscores(a) + WithoutUnderscores(b)
    ensures IsNumeral(a) ==> a[0] != '_' && a[|a| - 1] != '_'
  {
    if AllDigits(a) {
      WithoutUnderscoresIsDigits(a);
    }
    WithoutUnderscoresOfBoth(a + "_", b);
    assert (a + "_")[..|a|] == a;
    if IsNumeral(a) && IsNumeral(b) {
      JoinedNumeral(a, b);
    }
  }

  lemma JoinedNumeral(a: string, b: string)
    requires IsNumeral(a) && IsNumeral(b)
    ensures IsNumeral(a + "_" + b)
  {
    var s, n := a + "_" + b, |a|;
    assert s[n] == '_' && s[0] == a[0] && s[|s| - 1] == b[|b| - 1];
    assert forall i :: 0 <= i < n ==> s[i] == a[i];
    assert forall i :: n < i < |s| ==> s[i] == b[i - n - 1];
  }

  lemma {:induction false} WithoutUnderscoresOfBoth(a: string, b: string)
    ensures WithoutUnderscores(a + b) == WithoutUnderscores(a) + WithoutUnderscores(b)
    decreases |b|
  {
    if b == "" {
      assert a + b == a;
    } else {
      var n := |b| - 1;
      WithoutUnderscoresOfBoth(a, b[..n]);
      assert (a + b)[..|a + b| - 1] == a + b[..n];
    }
  }

  function NumeralValue(s: string): nat
    requires IsNumeral(s)
  {
    WithoutUnderscoresIsDigits(s);
    DigitsValue(WithoutUnderscores(s))
  }

  /** Python's `int` of a string: surrounding white space, an optional sign, a numeral. */
  function ParseInt(s: string): Option<int> {
    var t := StripRight(StripLeft(s));
    if t == "" then None
    else if t[0] == '-' then if IsNumeral(t[1..]) then Some(0 - NumeralValue(t[1..])) else None
    else if t[0] == '+' then if IsNumeral(t[1..]) then Some(NumeralValue(t[1..])) else None
    else if IsNumeral(t) then Some(NumeralValue(t))
    else None
  }

  ghost predicate AllSpaces(s: string) {
    forall i :: 0 <= i < |s| ==> IsSpace(s[i])
  }

  lemma {:induction false} StripLeftTakesSpaces(s: string) returns (left: string)
    ensures AllSpaces(left) && s == left + StripLeft(s)
  {
    left := "";
    if s != "" && IsSpace(s[0]) {
      var more := StripLeftTakesSpaces(s[1..]);
      left := [s[0]] + more;
      assert s == [s[0]] + s[1..];
    }
  }

  lemma {:induction false} StripRightTakesSpaces(s: string) returns (right: string)
    ensures AllSpaces(right) && s == StripRight(s) + right
  {
    right := "";
    if s != "" && IsSpace(s[|s| - 1]) {
      var more := StripRightTakesSpaces(s[..|s| - 1]);
      right := more + [s[|s| - 1]];
      assert s == s[..|s| - 1] + [s[|s| - 1]];
    }
  }

  lemma {:induction false} StripLeftOf(left: string, t: string)
    requires AllSpaces(left) && t != "" && !IsSpace(t[0])
    ensures StripLeft(left + t) == t
  {
    if left == "" {
      assert left + t == t;
    } else {
      assert (left + t)[1..] == left[1..] + t;
      StripLeftOf(left[1..], t);
    }
  }

  lemma {:induction false} StripRightOf(t: string, right: string)
    requires AllSpaces(right) && t != "" && !IsSpace(t[|t| - 1])
    ensures StripRight(t + right) == t
    decreases |right|
  {
    if right == "" {
      assert t + right == t;
    } else {
      var n := |right| - 1;
      assert (t + right)[..|t + right| - 1] == t + right[..n];
      StripRightOf(t, right[..n]);
    }
  }

  /** `t` is the numeral, perhaps with a sign, and stands for `n`. */
  ghost predicate IsSignedNumeral(t: string, numeral: string, n: int) {
    && IsNumeral(numeral)
    && (|| (t == "-" + numeral && n == 0 - NumeralValue(numeral))
        || (t == "+" + numeral && n == NumeralValue(numeral))
        || (t == numeral && n == NumeralValue(numeral)))
  }

  ghost predicate IsSigned(t: string, n: int) {
    exists numeral :: IsSignedNumeral(t, numeral, n)
  }

  lemma NumeralEnds(numeral: string)
    requires IsNumeral(numeral)
    ensures numeral != "" && !IsSpace(numeral[0]) && !IsSpace(numeral[|numeral| - 1])
  {
    assert IsDigit(numeral[0]) && IsDigit(numeral[|numeral| - 1]);
  }

  lemma SignInFront(sign: string, numeral: string)
    requires numeral != "" && !IsSpace(numeral[0]) && !IsSpace(numeral[|numeral| - 1])
    requires sign == "" || sign == "-" || sign == "+"
    ensures sign + numeral != "" && !IsSpace((sign + numeral)[0]) && !IsSpace((sign + numeral)[|sign + numeral| - 1])
  {
    if sign == "" {
      assert sign + numeral == numeral;
    } else {
      assert (sign + numeral)[0] == sign[0] && (sign + numeral)[|sign + numeral| - 1] == numeral[|numeral| - 1];
    }
  }

  lemma SignedIsTight(t: string, n: int)
    requires IsSigned(t, n)
    ensures t != "" && !IsSpace(t[0]) && !IsSpace(t[|t| - 1])
  {
    var numeral :| IsSignedNumeral(t, numeral, n);
    NumeralEnds(numeral);
    if t == "-" + numeral {
      SignInFront("-", numeral);
    } else if t == "+" + numeral {
      SignInFront("+", numeral);
    }
  }

  lemma ParseTightIff(t: string, n: int)
    ensures IsSigned(t, n) <==>
              && t != ""
              && if t[0] == '-' then IsNumeral(t[1..]) && n == 0 - NumeralValue(t[1..])
                 else if t[0] == '+' then IsNumeral(t[1..]) && n == NumeralValue(t[1..])
                 else IsNumeral(t) && n == NumeralValue(t)
  {
    if t != "" {
      assert t == [t[0]] + t[1..];
      assert IsSignedNumeral(t, t[1..], n) || IsSignedNumeral(t, t, n)
        <==> if t[0] == '-' then IsNumeral(t[1..]) && n == 0 - NumeralValue(t[1..])
             else if t[0] == '+' then IsNumeral(t[1..]) && n == NumeralValue(t[1..])
             else IsNumeral(t) && n == NumeralValue(t);
    }
    if numeral :| IsSignedNumeral(t, numeral, n) {
      assert t == numeral || t[1..] == numeral;
    }
  }

  /** `s` is `t` with white space around it. */
  ghost predicate IsPadded(s: string, left: string, t: string, right: string) {
    s == left + (t + right) && AllSpaces(left) && AllSpaces(right)
  }

  lemma StripTakesSpaces(s: string) returns (left: string, right: string)
    ensures IsPadded(s, left, StripRight(StripLeft(s)), right)
  {
    left := StripLeftTakesSpaces(s);
    right := StripRightTakesSpaces(StripLeft(s));
  }

  lemma StripOfPadded(s: string, left: string, t: string, right: string)
    requires IsPadded(s, left, t, right) && t != "" && !IsSpace(t[0]) && !IsSpace(t[|t| - 1])
    ensures StripRight(StripLeft(s)) == t
  {
    assert (t + right)[0] == t[0];
    StripLeftOf(left, t + right);
    StripRightOf(t, right);
  }

  lemma ParseOfStripped(s: string, n: int)
    ensures ParseInt(s) == Some(n) <==> IsSigned(StripRight(StripLeft(s)), n)
  {
    ParseTightIff(StripRight(StripLeft(s)), n);
  }

  /** `int` accepts exactly a numeral with an optional sign and white space around it. */
  lemma ParseIntIff(s: string, n: int)
    ensures ParseInt(s) == Some(n) <==> exists left, t, right :: IsPadded(s, left, t, right) && IsSigned(t, n)
  {
    ParseOfStripped(s, n);
    if ParseInt(s) == Some(n) {
      var left, right := StripTakesSpaces(s);
    } else if left, t, right :| IsPadded(s, left, t, right) && IsSigned(t, n) {
      SignedIsTight(t, n);
      StripOfPadded(s, left, t, right);
    }
  }

  lemma NatToStringIsNumeral(n: nat)
    ensures IsNumeral(NatToString(n)) && NumeralValue(NatToString(n)) == n
  {
    WithoutUnderscoresIsDigits(NatToString(n));
  }

  lemma TightTextIsNotStripped(s: string)
    requires s != "" && !IsSpace(s[0]) && !IsSpace(s[|s| - 1])
    ensures StripRight(StripLeft(s)) == s
  {
    assert StripLeft(s) == s;
  }

  lemma ParseIntOfNumeral(n: int, digits: string, s: string)
    requires IsNumeral(digits)
    requires s == (if n < 0 then "-" + digits else digits) && NumeralValue(digits) == (if n < 0 then -n else n)
    ensures ParseInt(s) == Some(n)
  {
    assert IsDigit(digits[0]) && IsDigit(digits[|digits| - 1]) && s[|s| - 1] == digits[|digits| - 1];
    TightTextIsNotStripped(s);
    if n < 0 {
      assert s[1..] == digits;
    }
  }

  /** Reading what `str` wrote gives the integer back. */
  lemma ParseIntOfIntToString(n: int)
    ensures ParseInt(IntToString(n)) == Some(n)
  {
    var magnitude: nat := if n < 0 then -n else n;
    NatToStringIsNumeral(magnitude);
    ParseIntOfNumeral(n, NatToString(magnitude), IntToString(n));
  }

  /** Characters that can occur in a string that `int` accepts. */
  predicate IsNumberChar(c: char) {
    IsDigit(c) || IsSpace(c) || c == '_' || c == '-' || c == '+'
  }

  predicate AllNumberChars(s: string) {
    forall i :: 0 <= i < |s| ==> IsNumberChar(s[i])
  }

  lemma {:induction false} StripLeftKeeps(s: string)
    ensures AllNumberChars(StripLeft(s)) ==> AllNumberChars(s)
  {
    if s != "" && IsSpace(s[0]) {
      StripLeftKeeps(s[1..]);
      assert s == [s[0]] + s[1..];
    }
  }

  lemma {:induction false} StripRightKeeps(s: string)
    ensures AllNumberChars(StripRight(s)) ==> AllNumberChars(s)
  {
    if s != "" && IsSpace(s[|s| - 1]) {
      StripRightKeeps(s[..|s| - 1]);
      assert s == s[..|s| - 1] + [s[|s| - 1]];
    }
  }

  /** A string that `int` accepts holds nothing but digits, signs, underscores and white space. */
  lemma ParsedIntHasNumberChars(s: string)
    requires ParseInt(s).Some?
    ensures AllNumberChars(s)
  {
    var t := StripRight(StripLeft(s));
    if t[0] == '-' || t[0] == '+' {
      assert t == [t[0]] + t[1..];
    }
    assert AllNumberChars(t);
    StripRightKeeps(StripLeft(s));
    StripLeftKeeps(s);
  }
}
