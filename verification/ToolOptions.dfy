/** Joining a map of memory tool options into one string, and parsing such a string back with the regular
    expression that splits at unquoted colons. */
module ToolOptions {
  import opened Outcomes
  import opened Text

  datatype Value = IntValue(n: int) | StringValue(s: string)

  type Options = map<string, Value>

  /** Python's `str` of a value. */
  function ValueToString(value: Value): string {
    match value
    case IntValue(n) => IntToString(n)
    case StringValue(s) => s
  }

  function MaybeConvertToInt(s: string): Value {
    var n := ParseInt(s);
    if n.Some? then IntValue(n.value) else StringValue(s)
  }

  function QuoteValueIfNeeded(s: string): string {
    if ' ' in s || ':' in s then "\"" + s + "\"" else s
  }

  /** A value is quoted exactly if it holds a space or a colon, and then as a whole. */
  lemma QuotingIff(s: string)
    ensures QuoteValueIfNeeded(s) == s <==> forall i :: 0 <= i < |s| ==> s[i] != ' ' && s[i] != ':'
    ensures QuoteValueIfNeeded(s) != s ==> QuoteValueIfNeeded(s) == "\"" + s + "\""
  {
    assert |"\"" + s + "\""| == |s| + 2;
  }

  // ---- Joining ----

  function Item(key: string, value: Value): string {
    key + "=" + ValueToString(value)
  }

  ghost function LeastKey(keys: set<string>): (least: string)
    requires keys != {}
    ensures least in keys && forall key :: key in keys ==> StringLe(least, key)
  {
    var key :| key in keys;
    if keys == {key} then
      StringLeTotal(key, key);
      key
    else
      var other := LeastKey(keys - {key});
      StringLeTotal(key, other);
      assert forall k :: k in keys ==> k == key || k in keys - {key};
      if StringLe(key, other) then
        LeastOfBoth(key, other, keys - {key});
        StringLeTotal(key, key);
        key
      else other
  }

  lemma LeastOfBoth(key: string, other: string, keys: set<string>)
    requires StringLe(key, other) && forall k :: k in keys ==> StringLe(other, k)
    ensures forall k :: k in keys ==> StringLe(key, k)
  {
    forall k | k in keys
      ensures StringLe(key, k)
    {
      StringLeTransitive(key, other, k);
    }
  }

  /** The items of a map, sorted by key. */
  ghost function SortedItems(options: Options): (items: seq<string>)
    decreases |options|
  {
    if options == map[] then []
    else
      var key := LeastKey(options.Keys);
      assert |(options - {key}).Keys| < |options.Keys| by {
        assert options.Keys == (options - {key}).Keys + {key};
      }
      [Item(key, options[key])] + SortedItems(options - {key})
  }

  function JoinWithColons(items: seq<string>): string {
    if items == [] then "" else if |items| == 1 then items[0] else items[0] + ":" + JoinWithColons(items[1..])
  }

  /** `join_memory_tool_options`. */
  ghost function Join(options: Options): string {
    JoinWithColons(SortedItems(options))
  }

  function ItemsOf(keys: seq<string>, options: Options): seq<string>
    requires forall key :: key in keys ==> key in options
  {
    seq(|keys|, i requires 0 <= i < |keys| => keys[i] + "=" + ValueToString(options[keys[i]]))
  }

  /** The keys of the map, each once, in ascending order. */
  ghost predicate AreSortedKeys(keys: seq<string>, options: Options) {
    && (forall key :: key in keys <==> key in options)
    && forall i, j :: 0 <= i < j < |keys| ==> keys[i] != keys[j] && StringLe(keys[i], keys[j])
  }

  /** What is joined are the options, each once, in ascending order of their names. */
  lemma {:induction false} ItemsAreSorted(options: Options) returns (keys: seq<string>)
    ensures AreSortedKeys(keys, options) && SortedItems(options) == ItemsOf(keys, options)
    decreases |options|
  {
    if options == map[] {
      keys := [];
    } else {
      var key := LeastKey(options.Keys);
      var rest := options - {key};
      assert options.Keys == rest.Keys + {key};
      var others := ItemsAreSorted(rest);
      keys := [key] + others;
      LeastInFront(key, others, options);
      ItemsOfMore(key, others, options);
    }
  }

  lemma ItemsOfMore(key: string, others: seq<string>, options: Options)
    requires key in options && forall k :: k in others ==> k in options - {key}
    ensures forall k :: k in [key] + others ==> k in options
    ensures ItemsOf([key] + others, options) == [Item(key, options[key])] + ItemsOf(others, options - {key})
  {
  }

  lemma LeastInFront(key: string, others: seq<string>, options: Options)
    requires key in options && (forall k :: k in options ==> StringLe(key, k))
    requires AreSortedKeys(others, options - {key})
    ensures AreSortedKeys([key] + others, options)
  {
    var keys := [key] + others;
    assert forall k :: k in keys <==> k == key || k in others;
    forall i, j | 0 <= i < j < |keys|
      ensures keys[i] != keys[j] && StringLe(keys[i], keys[j])
    {
      LeastBefore(key, others, options, i, j);
    }
  }

  lemma LeastBefore(key: string, others: seq<string>, options: Options, i: nat, j: nat)
    requires forall k :: k in options ==> StringLe(key, k)
    requires AreSortedKeys(others, options - {key}) && i < j <= |others|
    ensures ([key] + others)[i] != ([key] + others)[j] && StringLe(([key] + others)[i], ([key] + others)[j])
  {
    assert ([key] + others)[j] == others[j - 1] && others[j - 1] in others;
  }

  // ---- The regular expression ----

  predicate IsQuote(c: char) {
    c == '\'' || c == '"'
  }

  /** Position of the first `c` in `s`, or the length of `s`. */
  function IndexOf(s: string, c: char): (i: nat)
    ensures i <= |s| && (i < |s| ==> s[i] == c)
  {
    if s == "" || s[0] == c then 0 else 1 + IndexOf(s[1..], c)
  }

  lemma {:induction false} IndexOfIsFirst(s: string, c: char)
    ensures c !in s[..IndexOf(s, c)]
    ensures IndexOf(s, c) < |s| <==> c in s
  {
    if s != "" && s[0] != c {
      IndexOfIsFirst(s[1..], c);
      assert s == [s[0]] + s[1..];
      assert s[..IndexOf(s, c)] == [s[0]] + s[1..][..IndexOf(s[1..], c)];
    }
  }

  /** Length of one alternative of the pattern at the head of `s`: any character other than a quote or a
      colon, or a quoted stretch; 0 if none matches. */
  function AtomLength(s: string): (n: nat)
    ensures n <= |s|
  {
    if s == "" || s[0] == ':' then 0
    else if IsQuote(s[0]) then
      var close := IndexOf(s[1..], s[0]);
      if close < |s| - 1 then close + 2 else 0
    else 1
  }

  /** Length of the longest match of the repeated group at the head of `s`. */
  function MatchLength(s: string): (n: nat)
    ensures n <= |s|
  {
    var n := AtomLength(s);
    if n == 0 then 0 else n + MatchLength(s[n..])
  }

  /** Python's `split` with the pattern in one capturing group: the text between matches and the matches, in
      turn. `between` is the text since the last match. */
  function RegexSplit(s: string, between: string): seq<string>
    decreases |s|
  {
    if s == "" then [between]
    else
      var n := MatchLength(s);
      if n > 0 then [between, s[..n]] + RegexSplit(s[n..], "")
      else RegexSplit(s[1..], between + [s[0]])
  }

  // ---- Parsing ----

  /** The loop over the pieces; `Err` is the invalid piece of the raised error. */
  function ParsePieces(pieces: seq<string>, parsed: Options): Result<Options, string> {
    if pieces == [] then Ok(parsed)
    else
      var item := pieces[0];
      if item == "" || item == ":" then ParsePieces(pieces[1..], parsed)
      else
        var split := IndexOf(item, '=');
        if split == |item| then Err(item)
        else ParsePieces(pieces[1..], parsed[item[..split] := MaybeConvertToInt(item[split + 1..])])
  }

  function Parse(s: string): Result<Options, string> {
    ParsePieces(RegexSplit(s, ""), map[])
  }

  /** `_parse_memory_tool_options`. */
  method ParseMemoryToolOptions(s: string) returns (result: Result<Options, string>)
    ensures result == Parse(s)
  {
    var parsed: Options := map[];
    var pieces := RegexSplit(s, "");
    for i := 0 to |pieces|
      invariant ParsePieces(pieces[i..], parsed) == Parse(s)
    {
      var item := pieces[i];
      assert pieces[i..][0] == item && pieces[i..][1..] == pieces[i + 1..];
      if item == "" {
        continue;
      }
      if item == ":" {
        continue;
      }
      var split := IndexOf(item, '=');
      if split == |item| {
        return Err(item);
      }
      parsed := parsed[item[..split] := MaybeConvertToInt(item[split + 1..])];
    }
    return Ok(parsed);
  }

  // ---- Quoting ----

  /** Reads `s` from inside the quote `q`, or from outside quotes: does every colon stand inside a closed
      quotation, and is every quotation closed? */
  predicate WellQuotedFrom(q: Option<char>, s: string)
    decreases |s|
  {
    if s == "" then q.None?
    else
      match q
      case Some(c) => WellQuotedFrom(if s[0] == c then None else q, s[1..])
      case None => s[0] != ':' && WellQuotedFrom(if IsQuote(s[0]) then Some(s[0]) else None, s[1..])
  }

  predicate WellQuoted(s: string) {
    WellQuotedFrom(None, s)
  }

  lemma {:induction false} QuotationCloses(c: char, s: string)
    ensures WellQuotedFrom(Some(c), s)
         == (IndexOf(s, c) < |s| && WellQuotedFrom(None, s[IndexOf(s, c) + 1..]))
  {
    if s != "" && s[0] != c {
      QuotationCloses(c, s[1..]);
      assert s[1..][IndexOf(s[1..], c)..] == s[IndexOf(s, c)..];
      if IndexOf(s, c) < |s| {
        assert s[1..][IndexOf(s[1..], c) + 1..] == s[IndexOf(s, c) + 1..];
      }
    }
  }

  /** A well-quoted text begins with an atom, and what follows it is well quoted. */
  lemma AtomFirst(s: string)
    requires s != ""
    ensures WellQuoted(s) <==> AtomLength(s) > 0 && WellQuoted(s[AtomLength(s)..])
  {
    if IsQuote(s[0]) {
      QuotationCloses(s[0], s[1..]);
      var i := IndexOf(s[1..], s[0]);
      if i < |s| - 1 {
        assert s[1..][i + 1..] == s[i + 2..];
      }
    }
  }

  lemma MatchAfterAtom(s: string)
    requires s != ""
    ensures MatchLength(s) == |s| <==> AtomLength(s) > 0 && MatchLength(s[AtomLength(s)..]) == |s| - AtomLength(s)
  {
  }

  /** The pattern matches all of `s` exactly when `s` is well quoted. */
  lemma {:induction false} MatchesAllIff(s: string)
    ensures MatchLength(s) == |s| <==> WellQuoted(s)
    decreases |s|
  {
    if s != "" {
      AtomFirst(s);
      MatchAfterAtom(s);
      if AtomLength(s) > 0 {
        MatchesAllIff(s[AtomLength(s)..]);
      }
    }
  }

  lemma AtomLengthOfPrefix(s: string, rest: string)
    requires AtomLength(s) > 0
    ensures AtomLength(s + rest) == AtomLength(s)
  {
    if IsQuote(s[0]) {
      assert (s + rest)[1..] == s[1..] + rest;
      IndexOfPrefix(s[1..], rest, s[0]);
    }
  }

  lemma {:induction false} IndexOfPrefix(s: string, rest: string, c: char)
    requires IndexOf(s, c) < |s|
    ensures IndexOf(s + rest, c) == IndexOf(s, c)
  {
    if s[0] != c {
      assert (s + rest)[1..] == s[1..] + rest;
      IndexOfPrefix(s[1..], rest, c);
    }
  }

  lemma MatchFromAtom(s: string, n: nat, k: nat)
    requires 0 < n == AtomLength(s) && MatchLength(s[n..]) == k
    ensures MatchLength(s) == n + k
  {
  }

  lemma MatchOfLonger(s: string, rest: string, n: nat)
    requires 0 < n == AtomLength(s) && MatchLength(s[n..] + rest) == |s| - n
    ensures MatchLength(s + rest) == |s|
  {
    AtomLengthOfPrefix(s, rest);
    assert (s + rest)[n..] == s[n..] + rest;
    MatchFromAtom(s + rest, n, |s| - n);
  }

  lemma {:induction false} MatchStopsAtColon(s: string, rest: string)
    requires MatchLength(s) == |s|
    requires rest == "" || rest[0] == ':'
    ensures MatchLength(s + rest) == |s|
    decreases |s|
  {
    if s == "" {
      assert s + rest == rest;
    } else {
      MatchStopsAtColon(s[AtomLength(s)..], rest);
      MatchOfLonger(s, rest, AtomLength(s));
    }
  }

  lemma TailOfFront(s: string, n: nat, k: nat)
    requires n + k <= |s|
    ensures s[..n + k][n..] == s[n..][..k]
  {
  }

  lemma MatchOfFront(s: string, n: nat, k: nat)
    requires 0 < n == AtomLength(s) && k <= |s| - n && MatchLength(s[n..][..k]) == k
    ensures MatchLength(s[..n + k]) == n + k
  {
    AtomOfFront(s, n + k);
    TailOfFront(s, n, k);
    MatchFromAtom(s[..n + k], n, k);
  }

  lemma {:induction false} MatchIsAMatch(s: string)
    ensures MatchLength(s[..MatchLength(s)]) == MatchLength(s)
    decreases |s|
  {
    if AtomLength(s) > 0 {
      MatchIsAMatch(s[AtomLength(s)..]);
      MatchOfFront(s, AtomLength(s), MatchLength(s[AtomLength(s)..]));
    } else {
      assert s[..0] == "";
    }
  }

  lemma AtomAlone(s: string)
    requires AtomLength(s) > 0
    ensures AtomLength(s[..AtomLength(s)]) == AtomLength(s)
  {
    if IsQuote(s[0]) {
      var n := AtomLength(s);
      var front := s[..n];
      assert s[1..] == front[1..] + s[n..];
      assert front[1..][n - 2] == s[0];
      IndexBefore(front[1..], s[n..], s[0]);
    }
  }

  lemma AtomOfFront(s: string, m: nat)
    requires 0 < AtomLength(s) <= m <= |s|
    ensures AtomLength(s[..m]) == AtomLength(s)
  {
    var n := AtomLength(s);
    AtomAlone(s);
    AtomLengthOfPrefix(s[..n], s[n..m]);
    assert s[..m] == s[..n] + s[n..m];
  }

  lemma {:induction false} IndexBefore(s: string, rest: string, c: char)
    requires IndexOf(s + rest, c) < |s|
    ensures IndexOf(s, c) == IndexOf(s + rest, c)
  {
    if s[0] != c {
      assert (s + rest)[1..] == s[1..] + rest;
      IndexBefore(s[1..], rest, c);
    }
  }

  lemma MatchReachesFurther(s: string, rest: string, n: nat)
    requires 0 < n == AtomLength(s) && MatchLength(s[n..] + rest) >= |s| - n
    ensures MatchLength(s + rest) >= |s|
  {
    AtomLengthOfPrefix(s, rest);
    assert (s + rest)[n..] == s[n..] + rest;
    MatchFromAtom(s + rest, n, MatchLength(s[n..] + rest));
  }

  lemma {:induction false} MatchOfPrefix(s: string, rest: string)
    requires MatchLength(s) == |s|
    ensures MatchLength(s + rest) >= |s|
    decreases |s|
  {
    if s != "" {
      MatchOfPrefix(s[AtomLength(s)..], rest);
      MatchReachesFurther(s, rest, AtomLength(s));
    }
  }

  lemma MatchOfPart(s: string, part: string, rest: string)
    requires s == part + rest && MatchLength(part) == |part|
    ensures |part| <= MatchLength(s)
  {
    MatchOfPrefix(part, rest);
  }

  lemma MatchIsWellQuoted(s: string, m: nat)
    requires m == MatchLength(s)
    ensures WellQuoted(s[..m])
  {
    MatchIsAMatch(s);
    MatchesAllIff(s[..m]);
  }

  lemma WellQuotedIsMatched(s: string, m: nat)
    requires m <= |s| && WellQuoted(s[..m])
    ensures m <= MatchLength(s)
  {
    MatchesAllIff(s[..m]);
    MatchOfPart(s, s[..m], s[m..]);
  }

  /** The pattern matches the longest well-quoted text at the head of `s`. */
  lemma MatchIsLongest(s: string)
    ensures WellQuoted(s[..MatchLength(s)])
    ensures forall m :: 0 <= m <= |s| && WellQuoted(s[..m]) ==> m <= MatchLength(s)
  {
    MatchIsWellQuoted(s, MatchLength(s));
    forall m | 0 <= m <= |s| && WellQuoted(s[..m])
      ensures m <= MatchLength(s)
    {
      WellQuotedIsMatched(s, m);
    }
  }

  ghost function Concat(pieces: seq<string>): string {
    if pieces == [] then "" else pieces[0] + Concat(pieces[1..])
  }

  lemma ConcatTwo(a: string, b: string, pieces: seq<string>)
    ensures Concat([a, b] + pieces) == a + (b + Concat(pieces))
  {
    assert ([a, b] + pieces)[1..] == [b] + pieces && ([b] + pieces)[1..] == pieces;
  }

  lemma ConcatMatch(between: string, s: string, n: nat, rest: seq<string>)
    requires n <= |s| && Concat(rest) == s[n..]
    ensures Concat([between, s[..n]] + rest) == between + s
  {
    ConcatTwo(between, s[..n], rest);
    assert s == s[..n] + s[n..];
  }

  lemma MoveOver(between: string, s: string)
    requires s != ""
    ensures between + [s[0]] + s[1..] == between + s
  {
  }

  lemma ConcatOne(between: string)
    ensures Concat([between]) == between + ""
  {
    assert [between][1..] == [];
  }

  /** Splitting loses nothing: the pieces, one after the other, are the text. */
  lemma {:induction false} SplitLosesNothing(s: string, between: string)
    ensures Concat(RegexSplit(s, between)) == between + s
    decreases |s|
  {
    if s == "" {
      ConcatOne(between);
    } else if MatchLength(s) > 0 {
      SplitLosesNothing(s[MatchLength(s)..], "");
      assert "" + s[MatchLength(s)..] == s[MatchLength(s)..];
      ConcatMatch(between, s, MatchLength(s), RegexSplit(s[MatchLength(s)..], ""));
    } else {
      SplitLosesNothing(s[1..], between + [s[0]]);
      MoveOver(between, s);
    }
  }

  // ---- What parsing gives ----

  /** Neither skipped nor an option. */
  ghost predicate IsBadPiece(piece: string) {
    piece != "" && piece != ":" && '=' !in piece
  }

  /** The piece gives `raw` to the option `key`: it is cut at its first equals sign. */
  ghost predicate Gives(piece: string, key: string, raw: string) {
    piece == key + ("=" + raw) && '=' !in key
  }

  lemma GivesWhat(piece: string, key: string, raw: string)
    requires Gives(piece, key, raw)
    ensures var i := IndexOf(piece, '='); i < |piece| && piece[..i] == key && piece[i + 1..] == raw
  {
    EqualsBetween(key, raw);
    IndexOfFirst(key, raw);
  }

  lemma EqualsBetween(key: string, raw: string)
    ensures key + ("=" + raw) == key + "=" + raw && |key + "=" + raw| == |key| + 1 + |raw|
  {
  }

  /** Parsing fails with the first piece that is bad, and only if there is one. */
  lemma {:induction false} ParseFailsIff(pieces: seq<string>, parsed: Options)
    ensures ParsePieces(pieces, parsed).Ok? <==> forall i :: 0 <= i < |pieces| ==> !IsBadPiece(pieces[i])
    ensures ParsePieces(pieces, parsed).Err? ==>
              exists i :: 0 <= i < |pieces| && IsBadPiece(pieces[i]) && ParsePieces(pieces, parsed).error == pieces[i]
                          && forall j :: 0 <= j < i ==> !IsBadPiece(pieces[j])
  {
    if pieces != [] {
      IndexOfIsFirst(pieces[0], '=');
      if !IsBadPiece(pieces[0]) {
        var rest := if pieces[0] == "" || pieces[0] == ":" then parsed else AddItem(pieces[0], parsed);
        ParseFailsIff(pieces[1..], rest);
        BadInRest(pieces);
      }
    }
  }

  lemma BadInRest(pieces: seq<string>)
    requires pieces != [] && !IsBadPiece(pieces[0])
    ensures (forall i :: 0 <= i < |pieces| ==> !IsBadPiece(pieces[i]))
       <==> forall i :: 0 <= i < |pieces[1..]| ==> !IsBadPiece(pieces[1..][i])
    ensures forall i :: 0 <= i < |pieces[1..]| && IsBadPiece(pieces[1..][i])
                        && (forall j :: 0 <= j < i ==> !IsBadPiece(pieces[1..][j])) ==>
              IsBadPiece(pieces[i + 1]) && forall j :: 0 <= j < i + 1 ==> !IsBadPiece(pieces[j])
  {
    assert forall i :: 1 <= i < |pieces| ==> pieces[i] == pieces[1..][i - 1];
  }

  /** One more piece: it is skipped if it is empty or a colon, is the error if it is bad, and otherwise gives its
      option the value, whatever value it had. */
  ghost predicate OneMoreCounts(before: Result<Options, string>, piece: string, after: Result<Options, string>) {
    && (before.Err? ==> after == before)
    && (before.Ok? && (piece == "" || piece == ":") ==> after == before)
    && (before.Ok? && IsBadPiece(piece) ==> after == Err(piece))
    && (before.Ok? ==> forall key, raw :: Gives(piece, key, raw) ==>
          after == Ok(before.value[key := MaybeConvertToInt(raw)]))
  }

  lemma HasEquals(piece: string, i: nat)
    requires i < |piece| && piece[i] == '='
    ensures '=' in piece && piece != "" && piece != ":"
  {
  }

  lemma ParseOfOption(piece: string, parsed: Options, key: string, raw: string)
    requires Gives(piece, key, raw)
    ensures piece != "" && piece != ":" && '=' in piece
    ensures AddItem(piece, parsed) == parsed[key := MaybeConvertToInt(raw)]
  {
    GivesWhat(piece, key, raw);
    HasEquals(piece, IndexOf(piece, '='));
    AddItemAt(piece, parsed, IndexOf(piece, '='), key, raw);
  }

  lemma AddItemAt(piece: string, parsed: Options, i: nat, key: string, raw: string)
    requires '=' in piece && i == IndexOf(piece, '=') && i < |piece|
    requires piece[..i] == key && piece[i + 1..] == raw
    ensures AddItem(piece, parsed) == parsed[key := MaybeConvertToInt(raw)]
  {
  }

  lemma ParseOfSingle(piece: string, parsed: Options)
    ensures ParsePieces([piece], parsed)
         == if piece == "" || piece == ":" then Ok(parsed)
            else if '=' in piece then Ok(AddItem(piece, parsed)) else Err(piece)
  {
    assert [piece][1..] == [];
    IndexOfIsFirst(piece, '=');
  }

  lemma ParseOfOne(piece: string, parsed: Options)
    ensures OneMoreCounts(Ok(parsed), piece, ParsePieces([piece], parsed))
  {
    ParseOfSingle(piece, parsed);
    forall key, raw | Gives(piece, key, raw)
      ensures ParsePieces([piece], parsed) == Ok(parsed[key := MaybeConvertToInt(raw)])
    {
      ParseOfOption(piece, parsed, key, raw);
    }
  }

  /** Parsing takes the pieces one after the other, the last one last. */
  lemma {:induction false} LastPieceCounts(pieces: seq<string>, piece: string, parsed: Options)
    ensures OneMoreCounts(ParsePieces(pieces, parsed), piece, ParsePieces(pieces + [piece], parsed))
    decreases |pieces|
  {
    if pieces == [] {
      assert pieces + [piece] == [piece];
      ParseOfOne(piece, parsed);
    } else {
      assert (pieces + [piece])[1..] == pieces[1..] + [piece];
      var skipped := pieces[0] == "" || pieces[0] == ":" || '=' !in pieces[0];
      var rest := if skipped then parsed else AddItem(pieces[0], parsed);
      IndexOfIsFirst(pieces[0], '=');
      LastPieceCounts(pieces[1..], piece, rest);
    }
  }

  // ---- The round trip ----

  /** The joined form of one option reads back as that option. */
  ghost predicate RoundTrips(key: string, value: Value) {
    && '=' !in key
    && WellQuoted(Item(key, value))
    && (value.StringValue? ==> ParseInt(value.s).None?)
  }

  ghost predicate GoodItems(items: seq<string>) {
    items == [] || ('=' in items[0] && WellQuoted(items[0]) && GoodItems(items[1..]))
  }

  /** The pieces that well-quoted items give, after the text before the first. */
  ghost function PiecesOf(items: seq<string>): seq<string> {
    if items == [] then []
    else if |items| == 1 then [items[0], ""]
    else [items[0], ":"] + PiecesOf(items[1..])
  }

  lemma SplitOfItem(item: string, rest: string, between: string)
    requires item != "" && WellQuoted(item)
    ensures RegexSplit(item, between) == [between, item, ""]
    ensures RegexSplit(item + (":" + rest), between) == [between, item] + RegexSplit(rest, ":")
  {
    MatchesAllIff(item);
    assert item[..|item|] == item && item[|item|..] == "";
    var tail := ":" + rest;
    var s := item + tail;
    MatchStopsAtColon(item, tail);
    assert s[..|item|] == item && s[|item|..] == tail;
    assert MatchLength(tail) == 0 && tail[1..] == rest && "" + [tail[0]] == ":";
  }

  lemma {:induction false} SplitOfJoin(items: seq<string>, between: string)
    requires GoodItems(items)
    ensures RegexSplit(JoinWithColons(items), between) == [between] + PiecesOf(items)
    decreases |items|
  {
    if items != [] {
      var rest := JoinWithColons(items[1..]);
      SplitOfItem(items[0], rest, between);
      if |items| > 1 {
        assert JoinWithColons(items) == items[0] + (":" + rest);
        SplitOfJoin(items[1..], ":");
      }
    }
  }

  /** Parsing items with an equals sign adds them one by one. */
  ghost function AddItems(items: seq<string>, parsed: Options): Options
    requires GoodItems(items)
  {
    if items == [] then parsed
    else
      var item := items[0];
      AddItems(items[1..], AddItem(item, parsed))
  }

  ghost function AddItem(item: string, parsed: Options): Options
    requires '=' in item
  {
    IndexOfIsFirst(item, '=');
    var split := IndexOf(item, '=');
    parsed[item[..split] := MaybeConvertToInt(item[split + 1..])]
  }

  lemma ParseOfItem(item: string, between: string, rest: seq<string>, parsed: Options)
    requires '=' in item && (between == "" || between == ":")
    ensures ParsePieces([item, between] + rest, parsed) == ParsePieces(rest, AddItem(item, parsed))
  {
    IndexOfIsFirst(item, '=');
    var pieces := [item, between] + rest;
    assert pieces[1..] == [between] + rest && pieces[1..][1..] == rest;
  }

  lemma {:induction false} ParseOfPieces(items: seq<string>, parsed: Options)
    requires GoodItems(items)
    ensures ParsePieces(PiecesOf(items), parsed) == Ok(AddItems(items, parsed))
    decreases |items|
  {
    if items != [] {
      var item := items[0];
      ParseOfPieces(items[1..], AddItem(item, parsed));
      if |items| == 1 {
        assert items[1..] == [] && PiecesOf(items) == [item, ""] + [];
        ParseOfItem(item, "", [], parsed);
      } else {
        ParseOfItem(item, ":", PiecesOf(items[1..]), parsed);
      }
    }
  }

  lemma {:induction false} IndexOfFirst(key: string, raw: string)
    requires '=' !in key
    ensures IndexOf(key + "=" + raw, '=') == |key|
    ensures (key + "=" + raw)[..|key|] == key && (key + "=" + raw)[|key| + 1..] == raw
    decreases |key|
  {
    if key != "" {
      assert (key + "=" + raw)[1..] == key[1..] + "=" + raw;
      IndexOfFirst(key[1..], raw);
    }
  }

  lemma ItemAddsOption(key: string, value: Value, parsed: Options)
    requires RoundTrips(key, value)
    ensures '=' in Item(key, value)
    ensures AddItem(Item(key, value), parsed) == parsed[key := value]
  {
    IndexOfFirst(key, ValueToString(value));
    if value.IntValue? {
      ParseIntOfIntToString(value.n);
    }
  }

  ghost predicate AllRoundTrip(options: Options) {
    forall key :: key in options ==> RoundTrips(key, options[key])
  }

  lemma {:induction false} SortedItemsAreGood(options: Options)
    requires AllRoundTrip(options)
    ensures GoodItems(SortedItems(options))
    decreases |options|
  {
    if options != map[] {
      var key := LeastKey(options.Keys);
      var rest := options - {key};
      assert options.Keys == rest.Keys + {key};
      ItemAddsOption(key, options[key], map[]);
      SortedItemsAreGood(rest);
      assert ([Item(key, options[key])] + SortedItems(rest))[1..] == SortedItems(rest);
    }
  }

  lemma TakeOneOut(parsed: Options, options: Options, key: string)
    requires key in options
    ensures parsed[key := options[key]] + (options - {key}) == parsed + options
  {
  }

  lemma AddItemsFirst(item: string, items: seq<string>, parsed: Options)
    requires '=' in item && GoodItems(items) && GoodItems([item] + items)
    ensures AddItems([item] + items, parsed) == AddItems(items, AddItem(item, parsed))
  {
    assert ([item] + items)[1..] == items;
  }

  lemma {:induction false} SortedItemsAddUp(options: Options, parsed: Options)
    requires AllRoundTrip(options)
    requires GoodItems(SortedItems(options))
    ensures AddItems(SortedItems(options), parsed) == parsed + options
    decreases |options|
  {
    if options == map[] {
      assert parsed + options == parsed;
    } else {
      var key := LeastKey(options.Keys);
      var rest, item := options - {key}, Item(key, options[key]);
      assert options.Keys == rest.Keys + {key};
      ItemAddsOption(key, options[key], parsed);
      SortedItemsAreGood(rest);
      SortedItemsAddUp(rest, AddItem(item, parsed));
      AddItemsFirst(item, SortedItems(rest), parsed);
      TakeOneOut(parsed, options, key);
    }
  }

  lemma JoinRoundTrips(options: Options)
    requires AllRoundTrip(options)
    ensures Parse(Join(options)) == Ok(options)
  {
    SortedItemsAreGood(options);
    SortedItemsAddUp(options, map[]);
    var items := SortedItems(options);
    SplitOfJoin(items, "");
    assert ([""] + PiecesOf(items))[1..] == PiecesOf(items);
    ParseOfPieces(items, map[]);
    assert map[] + options == options;
  }

  /** Text between matches: nothing but colons and unmatched quotes. */
  ghost predicate IsBetween(s: string) {
    forall i :: 0 <= i < |s| ==> s[i] == ':' || IsQuote(s[i])
  }

  ghost predicate IsPiece(s: string) {
    IsBetween(s) || WellQuoted(s)
  }

  lemma {:induction false} SplitGivesPieces(s: string, between: string)
    requires IsBetween(between)
    ensures forall piece :: piece in RegexSplit(s, between) ==> IsPiece(piece)
    decreases |s|
  {
    if s != "" {
      var n := MatchLength(s);
      if n > 0 {
        MatchIsAMatch(s);
        MatchesAllIff(s[..n]);
        SplitGivesPieces(s[n..], "");
      } else {
        SplitGivesPieces(s[1..], between + [s[0]]);
      }
    }
  }

  /** The option was read from a well-quoted item. */
  ghost predicate ReadFrom(raw: string, key: string, value: Value) {
    '=' !in key && WellQuoted(key + "=" + raw) && MaybeConvertToInt(raw) == value
  }

  lemma StillRead(parsed: Options, name: string, r: string, key: string)
    requires ReadFrom(r, name, MaybeConvertToInt(r))
    requires key in parsed ==> exists raw :: ReadFrom(raw, key, parsed[key])
    ensures var added := parsed[name := MaybeConvertToInt(r)];
            key in added ==> exists raw :: ReadFrom(raw, key, added[key])
  {
  }

  lemma {:induction false} ParsedOptionsWereRead(pieces: seq<string>, parsed: Options, key: string)
    returns (raw: string)
    requires forall piece :: piece in pieces ==> IsPiece(piece)
    requires ParsePieces(pieces, parsed).Ok? && key in ParsePieces(pieces, parsed).value
    requires key in parsed ==> exists r :: ReadFrom(r, key, parsed[key])
    ensures ReadFrom(raw, key, ParsePieces(pieces, parsed).value[key])
  {
    if pieces == [] {
      raw :| ReadFrom(raw, key, parsed[key]);
    } else {
      var item := pieces[0];
      assert IsPiece(item);
      if item == "" || item == ":" {
        raw := ParsedOptionsWereRead(pieces[1..], parsed, key);
      } else {
        IndexOfIsFirst(item, '=');
        var split := IndexOf(item, '=');
        var name, r := item[..split], item[split + 1..];
        assert item == name + "=" + r;
        assert item[split] == '=';
        assert ReadFrom(r, name, MaybeConvertToInt(r));
        StillRead(parsed, name, r, key);
        raw := ParsedOptionsWereRead(pieces[1..], parsed[name := MaybeConvertToInt(r)], key);
      }
    }
  }

  lemma {:induction false} PlainTailDoesNotMatter(q: Option<char>, s: string, tail: string)
    requires forall i :: 0 <= i < |tail| ==> tail[i] != ':' && !IsQuote(tail[i])
    requires q.Some? ==> IsQuote(q.value)
    ensures WellQuotedFrom(q, s + tail) == WellQuotedFrom(q, s)
    decreases |s|, |tail|
  {
    if s == "" {
      assert s + tail == tail;
      if tail != "" {
        PlainTailDoesNotMatter(q, s, tail[1..]);
        assert s + tail[1..] == tail[1..];
      }
    } else {
      assert (s + tail)[1..] == s[1..] + tail;
      var q' := match q
                case Some(c) => if s[0] == c then None else q
                case None => if IsQuote(s[0]) then Some(s[0]) else None;
      PlainTailDoesNotMatter(q', s[1..], tail);
    }
  }

  lemma NumeralIsPlain(raw: string)
    requires ParseInt(raw).Some?
    ensures forall i :: 0 <= i < |raw| ==> raw[i] != ':' && !IsQuote(raw[i])
  {
    ParsedIntHasNumberChars(raw);
    assert forall c :: IsNumberChar(c) ==> c != ':' && !IsQuote(c);
  }

  lemma ReadOptionRoundTrips(raw: string, key: string, value: Value)
    requires ReadFrom(raw, key, value)
    ensures RoundTrips(key, value)
  {
    if value.IntValue? {
      NumeralIsPlain(raw);
      PlainTailDoesNotMatter(None, key + "=", raw);
      ParseIntOfIntToString(value.n);
      NumeralIsPlain(IntToString(value.n));
      PlainTailDoesNotMatter(None, key + "=", IntToString(value.n));
    }
  }

  lemma ParsedOptionsRoundTrip(s: string)
    requires Parse(s).Ok?
    ensures AllRoundTrip(Parse(s).value)
  {
    SplitGivesPieces(s, "");
    forall key | key in Parse(s).value
      ensures RoundTrips(key, Parse(s).value[key])
    {
      var raw := ParsedOptionsWereRead(RegexSplit(s, ""), map[], key);
      ReadOptionRoundTrips(raw, key, Parse(s).value[key]);
    }
  }

  /** Parsing the joined form of an option map gives the map back exactly when every single option has a
      name without an equals sign, is well quoted as a whole, and is not a string that reads as an integer. */
  lemma JoinThenParseIff(options: Options)
    ensures Parse(Join(options)) == Ok(options) <==> forall key :: key in options ==> RoundTrips(key, options[key])
  {
    if Parse(Join(options)) == Ok(options) {
      ParsedOptionsRoundTrip(Join(options));
    } else if AllRoundTrip(options) {
      JoinRoundTrips(options);
    }
  }

  /** Whatever string parses: joining the result and parsing again changes nothing. */
  lemma ParseThenJoinIsStable(s: string)
    requires Parse(s).Ok?
    ensures Parse(Join(Parse(s).value)) == Parse(s)
  {
    ParsedOptionsRoundTrip(s);
    JoinRoundTrips(Parse(s).value);
  }

  lemma {:induction false} PlainIsWellQuoted(q: Option<char>, s: string)
    requires match q case Some(c) => c !in s case None => forall i :: 0 <= i < |s| ==> s[i] != ':' && !IsQuote(s[i])
    ensures q.None? ==> WellQuotedFrom(q, s)
    ensures q.Some? ==> WellQuotedFrom(q, s + [q.value])
    decreases |s|
  {
    if s != "" {
      PlainIsWellQuoted(q, s[1..]);
      if q.Some? {
        assert (s + [q.value])[1..] == s[1..] + [q.value];
      }
    } else if q.Some? {
      assert (s + [q.value])[1..] == "";
    }
  }

  lemma {:induction false} WellQuotedAppend(s: string, t: string)
    requires forall i :: 0 <= i < |s| ==> s[i] != ':' && !IsQuote(s[i])
    ensures WellQuoted(s + t) == WellQuoted(t)
    decreases |s|
  {
    if s == "" {
      assert s + t == t;
    } else {
      assert (s + t)[1..] == s[1..] + t;
      WellQuotedAppend(s[1..], t);
    }
  }

  /** Quoting a value makes it safe under a plain name: a value without quotes that does not read as an
      integer comes back as it was quoted. */
  lemma QuotedValueRoundTrips(key: string, s: string)
    requires PlainName(key)
    requires forall i :: 0 <= i < |s| ==> !IsQuote(s[i])
    requires ParseInt(QuoteValueIfNeeded(s)).None?
    ensures RoundTrips(key, StringValue(QuoteValueIfNeeded(s)))
  {
    var quoted := QuoteValueIfNeeded(s);
    assert key + "=" + quoted == (key + "=") + quoted;
    WellQuotedAppend(key + "=", quoted);
    if quoted == s {
      PlainIsWellQuoted(None, s);
    } else {
      assert quoted[1..] == s + ['"'];
      PlainIsWellQuoted(Some('"'), s);
    }
  }

  predicate PlainName(key: string) {
    forall i :: 0 <= i < |key| ==> key[i] != ':' && key[i] != '=' && !IsQuote(key[i])
  }

  /** The options in use: plain names, and integers or well-quoted strings that do not read as integers. */
  lemma PlainOptionsRoundTrip(options: Options)
    requires forall key :: key in options ==>
               && PlainName(key)
               && (options[key].StringValue? ==> WellQuoted(options[key].s) && ParseInt(options[key].s).None?)
    ensures Parse(Join(options)) == Ok(options)
  {
    forall key | key in options
      ensures RoundTrips(key, options[key])
    {
      var text := ValueToString(options[key]);
      assert Item(key, options[key]) == (key + "=") + text;
      WellQuotedAppend(key + "=", text);
      if options[key].IntValue? {
        ParseIntOfIntToString(options[key].n);
        NumeralIsPlain(text);
        PlainIsWellQuoted(None, text);
      }
    }
    JoinRoundTrips(options);
  }
}
