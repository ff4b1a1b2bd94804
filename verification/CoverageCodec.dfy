/** The delta-compressed coverage snapshots: the monitor's encoding loop and the two decoding loops of the
    file analysis. A snapshot maps harness keys to records; timestamps are the positions of snapshots. */
module CoverageCodec {
  import opened Outcomes
  import opened Text

  /** The serialized coverage of a function; the percentage is computed from the two line counts. */
  datatype FunctionCoverage = FunctionCoverage(name: string, paths: seq<string>, totalLines: int, coveredLines: int)

  type Data = seq<FunctionCoverage>

  // ---- coverage_data_equal ----

  function Insert(item: FunctionCoverage, sorted: Data): (r: Data)
    ensures |r| == |sorted| + 1
  {
    if sorted == [] || StringLe(item.name, sorted[0].name) then [item] + sorted
    else [sorted[0]] + Insert(item, sorted[1..])
  }

  /** Python's stable `sorted` by function name. */
  function SortByName(data: Data): (r: Data)
    ensures |r| == |data|
  {
    if data == [] then [] else Insert(data[0], SortByName(data[1..]))
  }

  predicate SameItem(a: FunctionCoverage, b: FunctionCoverage) {
    && a.name == b.name
    && a.totalLines == b.totalLines
    && a.coveredLines == b.coveredLines
    && (set p | p in a.paths) == (set p | p in b.paths)
  }

  predicate SameItems(a: Data, b: Data) {
    |a| == |b| && forall i :: 0 <= i < |a| ==> SameItem(a[i], b[i])
  }

  predicate DataEqual(a: Data, b: Data) {
    SameItems(SortByName(a), SortByName(b))
  }

  lemma DataEqualIsEquivalence(a: Data, b: Data, c: Data)
    ensures DataEqual(a, a)
    ensures DataEqual(a, b) ==> DataEqual(b, a)
    ensures DataEqual(a, b) && DataEqual(b, c) ==> DataEqual(a, c)
    ensures DataEqual(a, b) ==> |a| == |b|
  {
  }

  /** The entries of one function, in order. */
  function Entries(data: Data, name: string): Data {
    if data == [] then []
    else (if data[0].name == name then [data[0]] else []) + Entries(data[1..], name)
  }

  ghost predicate IsSorted(data: Data) {
    forall i, j :: 0 <= i < j < |data| ==> StringLe(data[i].name, data[j].name)
  }

  lemma {:induction false} InsertSorts(item: FunctionCoverage, sorted: Data)
    requires IsSorted(sorted)
    ensures IsSorted(Insert(item, sorted))
    ensures forall x :: x in Insert(item, sorted) <==> x == item || x in sorted
  {
    var r := Insert(item, sorted);
    if sorted == [] {
    } else if StringLe(item.name, sorted[0].name) {
      forall j | 0 < j < |r|
        ensures StringLe(item.name, r[j].name)
      {
        StringLeTotal(item.name, item.name);
        if j > 1 {
          StringLeTransitive(item.name, sorted[0].name, sorted[j - 1].name);
        }
      }
    } else {
      InsertSorts(item, sorted[1..]);
      StringLeTotal(item.name, sorted[0].name);
      forall j | 0 < j < |r|
        ensures StringLe(r[0].name, r[j].name)
      {
        assert r[j] in Insert(item, sorted[1..]);
        if r[j] != item {
          assert r[j] in sorted[1..];
        }
      }
    }
  }

  lemma {:induction false} SortSorts(data: Data)
    ensures IsSorted(SortByName(data))
  {
    if data != [] {
      SortSorts(data[1..]);
      InsertSorts(data[0], SortByName(data[1..]));
    }
  }

  lemma {:induction false} InsertIsStable(item: FunctionCoverage, sorted: Data, name: string)
    ensures Entries(Insert(item, sorted), name) == Entries([item] + sorted, name)
  {
    assert ([item] + sorted)[1..] == sorted;
    if sorted != [] && !StringLe(item.name, sorted[0].name) {
      StringLeTotal(item.name, item.name);
      InsertIsStable(item, sorted[1..], name);
      assert ([item] + sorted[1..])[1..] == sorted[1..];
      assert Insert(item, sorted)[1..] == Insert(item, sorted[1..]);
    }
  }

  lemma {:induction false} SortIsStable(data: Data, name: string)
    ensures Entries(SortByName(data), name) == Entries(data, name)
  {
    if data != [] {
      SortIsStable(data[1..], name);
      InsertIsStable(data[0], SortByName(data[1..]), name);
      assert ([data[0]] + SortByName(data[1..]))[1..] == SortByName(data[1..]);
    }
  }

  lemma {:induction false} SameItemsHaveSameEntries(a: Data, b: Data, name: string)
    requires SameItems(a, b)
    ensures SameItems(Entries(a, name), Entries(b, name))
  {
    if a != [] {
      SameItemsHaveSameEntries(a[1..], b[1..], name);
    }
  }

  lemma EntriesOfFirst(data: Data, name: string)
    requires data != []
    ensures data[0].name == name ==> Entries(data, name) != [] && Entries(data, name)[0] == data[0]
                                     && Entries(data[1..], name) == Entries(data, name)[1..]
    ensures data[0].name != name ==> Entries(data[1..], name) == Entries(data, name)
  {
  }

  lemma {:induction false} EntryIsInData(data: Data, name: string)
    requires Entries(data, name) != []
    ensures exists i :: 0 <= i < |data| && data[i].name == name
  {
    if data[0].name != name {
      EntryIsInData(data[1..], name);
      var i :| 0 <= i < |data[1..]| && data[1..][i].name == name;
      assert data[i + 1].name == name;
    }
  }

  ghost predicate SameEntries(a: Data, b: Data) {
    forall name :: SameItems(Entries(a, name), Entries(b, name))
  }

  lemma FirstNameIsLeast(a: Data, b: Data)
    requires IsSorted(b) && SameEntries(a, b) && a != []
    ensures b != [] && StringLe(b[0].name, a[0].name)
  {
    var name := a[0].name;
    EntriesOfFirst(a, name);
    assert SameItems(Entries(a, name), Entries(b, name));
    EntryIsInData(b, name);
    var i :| 0 <= i < |b| && b[i].name == name;
    StringLeTotal(name, name);
  }

  lemma {:induction false} SortedWithSameEntries(a: Data, b: Data)
    requires IsSorted(a) && IsSorted(b) && SameEntries(a, b)
    ensures SameItems(a, b)
    decreases |a|
  {
    if a == [] {
      if b != [] {
        SameEntriesSymmetric(a, b);
        FirstNameIsLeast(b, a);
      }
    } else {
      FirstNameIsLeast(a, b);
      SameEntriesSymmetric(a, b);
      FirstNameIsLeast(b, a);
      var name := a[0].name;
      StringLeAntisymmetric(name, b[0].name);
      forall n
        ensures SameItems(Entries(a[1..], n), Entries(b[1..], n))
      {
        EntriesOfFirst(a, n);
        EntriesOfFirst(b, n);
        assert SameItems(Entries(a, n), Entries(b, n));
      }
      EntriesOfFirst(a, name);
      EntriesOfFirst(b, name);
      assert SameItems(Entries(a, name), Entries(b, name));
      SortedWithSameEntries(a[1..], b[1..]);
      assert a == [a[0]] + a[1..] && b == [b[0]] + b[1..];
    }
  }

  lemma SameEntriesSymmetric(a: Data, b: Data)
    requires SameEntries(a, b)
    ensures SameEntries(b, a)
  {
    forall name
      ensures SameItems(Entries(b, name), Entries(a, name))
    {
      assert SameItems(Entries(a, name), Entries(b, name));
    }
  }

  lemma {:induction false} EntriesHaveName(data: Data, name: string)
    ensures forall i :: 0 <= i < |Entries(data, name)| ==> Entries(data, name)[i].name == name
    ensures forall item :: item in Entries(data, name) <==> item in data && item.name == name
  {
    if data != [] {
      EntriesHaveName(data[1..], name);
      assert data == [data[0]] + data[1..];
    }
  }

  /** The two lists say the same about a function: as many entries and, one by one, the same line counts and the
      same paths, in whatever order and however often. */
  ghost predicate AgreeOn(a: Data, b: Data, name: string) {
    var x, y := Entries(a, name), Entries(b, name);
    && |x| == |y|
    && forall i :: 0 <= i < |x| ==>
         && x[i].totalLines == y[i].totalLines
         && x[i].coveredLines == y[i].coveredLines
         && forall path :: path in x[i].paths <==> path in y[i].paths
  }

  lemma AgreeOnIff(a: Data, b: Data, name: string)
    ensures SameItems(Entries(a, name), Entries(b, name)) <==> AgreeOn(a, b, name)
  {
    EntriesHaveName(a, name);
    EntriesHaveName(b, name);
    var x, y := Entries(a, name), Entries(b, name);
    if |x| == |y| {
      forall i | 0 <= i < |x|
        ensures SameItem(x[i], y[i])
           <==> && x[i].totalLines == y[i].totalLines
                && x[i].coveredLines == y[i].coveredLines
                && forall path :: path in x[i].paths <==> path in y[i].paths
      {
        SamePathsIff(x[i].paths, y[i].paths);
      }
    }
  }

  lemma SamePathsIff(p: seq<string>, q: seq<string>)
    ensures (set path | path in p) == (set path | path in q) <==> forall path :: path in p <==> path in q
  {
    var s, t := set path | path in p, set path | path in q;
    assert forall path :: path in p <==> path in s;
    assert forall path :: path in q <==> path in t;
  }

  /** Two lists count as equal exactly when they agree on every function: the order of different functions does
      not matter, nor that of paths. */
  lemma DataEqualIff(a: Data, b: Data)
    ensures DataEqual(a, b) <==> forall name :: AgreeOn(a, b, name)
  {
    DataEqualIffEntries(a, b);
    forall name
      ensures SameItems(Entries(a, name), Entries(b, name)) <==> AgreeOn(a, b, name)
    {
      AgreeOnIff(a, b, name);
    }
  }

  lemma DataEqualIffEntries(a: Data, b: Data)
    ensures DataEqual(a, b) <==> SameEntries(a, b)
  {
    var x, y := SortByName(a), SortByName(b);
    SortSorts(a);
    SortSorts(b);
    forall name
      ensures Entries(x, name) == Entries(a, name) && Entries(y, name) == Entries(b, name)
      ensures DataEqual(a, b) ==> SameItems(Entries(x, name), Entries(y, name))
    {
      SortIsStable(a, name);
      SortIsStable(b, name);
      if DataEqual(a, b) {
        SameItemsHaveSameEntries(x, y, name);
      }
    }
    if SameEntries(a, b) {
      assert SameEntries(x, y) by {
        forall name
          ensures SameItems(Entries(x, name), Entries(y, name))
        {
          assert SameItems(Entries(a, name), Entries(b, name));
        }
      }
      SortedWithSameEntries(x, y);
    }
  }

  // ---- Encoding ----

  datatype Record = Record(data: Data, same: bool)

  type Snapshot = map<string, Record>

  /** One harness of one round, against the last data stored under its key. */
  function Encode(last: map<string, Data>, key: string, data: Data): Record {
    var same := key in last && DataEqual(last[key], data);
    Record(if same then [] else data, same)
  }

  function Remember(last: map<string, Data>, key: string, data: Data): map<string, Data> {
    if Encode(last, key, data).same then last else last[key := data]
  }

  /** A round: the monitored harnesses' keys and data, in the order listed. */
  type Round = seq<(string, Data)>

  function LastAfterRound(last: map<string, Data>, round: Round): map<string, Data> {
    if round == [] then last
    else
      var before := LastAfterRound(last, round[..|round| - 1]);
      Remember(before, round[|round| - 1].0, round[|round| - 1].1)
  }

  function EncodeRound(last: map<string, Data>, round: Round): Snapshot {
    if round == [] then map[]
    else
      var front, (key, data) := round[..|round| - 1], round[|round| - 1];
      EncodeRound(last, front)[key := Encode(LastAfterRound(last, front), key, data)]
  }

  function LastAfter(rounds: seq<Round>): map<string, Data> {
    if rounds == [] then map[] else LastAfterRound(LastAfter(rounds[..|rounds| - 1]), rounds[|rounds| - 1])
  }

  function EncodeRounds(rounds: seq<Round>): seq<Snapshot> {
    if rounds == [] then []
    else
      var front := rounds[..|rounds| - 1];
      EncodeRounds(front) + [EncodeRound(LastAfter(front), rounds[|rounds| - 1])]
  }

  class CoverageMonitor {
    var snapshots: seq<Snapshot>
    var lastCoverageData: map<string, Data>

    constructor ()
      ensures snapshots == [] && lastCoverageData == map[]
    {
      snapshots, lastCoverageData := [], map[];
    }

    /** One turn of the monitoring loop. */
    method Collect(round: Round)
      modifies this
      ensures snapshots == old(snapshots) + [EncodeRound(old(lastCoverageData), round)]
      ensures lastCoverageData == LastAfterRound(old(lastCoverageData), round)
    {
      var snapshot: Snapshot := map[];
      for i := 0 to |round|
        invariant snapshots == old(snapshots)
        invariant snapshot == EncodeRound(old(lastCoverageData), round[..i])
        invariant lastCoverageData == LastAfterRound(old(lastCoverageData), round[..i])
      {
        var (key, data) := round[i];
        var same := false;
        if key in lastCoverageData {
          same := DataEqual(lastCoverageData[key], data);
        }
        assert round[..i + 1][..i] == round[..i];
        snapshot := snapshot[key := Record(if same then [] else data, same)];
        if !same {
          lastCoverageData := lastCoverageData[key := data];
        }
      }
      assert round[..|round|] == round;
      snapshots := snapshots + [snapshot];
    }
  }

  /** Any number of turns encode the rounds. */
  method Monitor(rounds: seq<Round>) returns (snapshots: seq<Snapshot>)
    ensures snapshots == EncodeRounds(rounds)
  {
    var monitor := new CoverageMonitor();
    for i := 0 to |rounds|
      invariant monitor.snapshots == EncodeRounds(rounds[..i])
      invariant monitor.lastCoverageData == LastAfter(rounds[..i])
    {
      monitor.Collect(rounds[i]);
      assert rounds[..i + 1][..i] == rounds[..i];
    }
    assert rounds[..|rounds|] == rounds;
    return monitor.snapshots;
  }

  // ---- Decoding ----

  datatype DecodingLoop = Printing | Plotting

  /** What a loop does with one record: the data it shows (if any) and the full data it keeps. */
  function Step(loop: DecodingLoop, full: Option<Data>, record: Record): (Option<Data>, Option<Data>) {
    match loop
    case Printing =>
      if record.same && full.Some? then (full, full)
      else if record.data == [] then (full, full)
      else (Some(record.data), Some(record.data))
    case Plotting =>
      if (record.same || record.data == []) && full.Some? then (full, full)
      else if !record.same && record.data != [] then (Some(record.data), Some(record.data))
      else (None, full)
  }

  /** The full data each loop keeps after some snapshots. */
  function FullAfter(loop: DecodingLoop, snapshots: seq<Snapshot>, key: string): Option<Data> {
    if snapshots == [] then None
    else
      var full := FullAfter(loop, snapshots[..|snapshots| - 1], key);
      var last := snapshots[|snapshots| - 1];
      if key in last then Step(loop, full, last[key]).1 else full
  }

  /** What each loop shows for every snapshot; `None` where it has nothing to show. */
  function Decode(loop: DecodingLoop, snapshots: seq<Snapshot>, key: string)
    : (shown: seq<Option<Data>>)
    ensures |shown| == |snapshots|
  {
    if snapshots == [] then []
    else
      var front, last := snapshots[..|snapshots| - 1], snapshots[|snapshots| - 1];
      Decode(loop, front, key)
      + [if key in last then Step(loop, FullAfter(loop, front, key), last[key]).0 else None]
  }

  method PrintDecode(snapshots: seq<Snapshot>, key: string) returns (shown: seq<Option<Data>>)
    ensures shown == Decode(Printing, snapshots, key)
  {
    var lastFull: Option<Data> := None;
    shown := [];
    for i := 0 to |snapshots|
      invariant shown == Decode(Printing, snapshots[..i], key)
      invariant lastFull == FullAfter(Printing, snapshots[..i], key)
    {
      assert snapshots[..i + 1][..i] == snapshots[..i];
      if key !in snapshots[i] {
        shown := shown + [None];
        continue;
      }
      var Record(data, same) := snapshots[i][key];
      if same && lastFull.Some? {
        data := lastFull.value;
      } else if data == [] {
        if lastFull.Some? {
          data := lastFull.value;
        } else {
          shown := shown + [None];
          continue;
        }
      } else {
        lastFull := Some(data);
      }
      shown := shown + [Some(data)];
    }
    assert snapshots[..|snapshots|] == snapshots;
  }

  /** The loop that expands snapshots for the plot skips those with nothing to show; `at` are the positions
      of the others. */
  method VisualDecode(snapshots: seq<Snapshot>, key: string) returns (at: seq<nat>, expanded: seq<Data>)
    ensures |at| == |expanded|
    ensures forall k :: 0 <= k < |at| ==>
              at[k] < |snapshots| && Decode(Plotting, snapshots, key)[at[k]] == Some(expanded[k])
    ensures forall k, l :: 0 <= k < l < |at| ==> at[k] < at[l]
    ensures forall i :: 0 <= i < |snapshots| && i !in at ==> Decode(Plotting, snapshots, key)[i] == None
  {
    var lastFull: Option<Data> := None;
    at, expanded := [], [];
    for i := 0 to |snapshots|
      invariant lastFull == FullAfter(Plotting, snapshots[..i], key)
      invariant |at| == |expanded|
      invariant forall k :: 0 <= k < |at| ==>
                  at[k] < i && Decode(Plotting, snapshots[..i], key)[at[k]] == Some(expanded[k])
      invariant forall k, l :: 0 <= k < l < |at| ==> at[k] < at[l]
      invariant forall j :: 0 <= j < i && j !in at ==> Decode(Plotting, snapshots[..i], key)[j] == None
    {
      assert snapshots[..i + 1][..i] == snapshots[..i];
      if key !in snapshots[i] {
        continue;
      }
      var Record(data, same) := snapshots[i][key];
      if (same || data == []) && lastFull.Some? {
        at, expanded := at + [i], expanded + [lastFull.value];
      } else if !same && data != [] {
        lastFull := Some(data);
        at, expanded := at + [i], expanded + [data];
      }
    }
    assert snapshots[..|snapshots|] == snapshots;
  }

  // ---- What decoding gives back ----

  /** The data of a harness in a round, if it was monitored; the last of several under one key. */
  function Original(round: Round, key: string): Option<Data> {
    if round == [] then None
    else if round[|round| - 1].0 == key then Some(round[|round| - 1].1)
    else Original(round[..|round| - 1], key)
  }

  /** All data monitored under a key, in order: several in one round if harnesses share the key. */
  function OccurrencesIn(round: Round, key: string): seq<Data> {
    if round == [] then []
    else
      var (k, data) := round[|round| - 1];
      OccurrencesIn(round[..|round| - 1], key) + if k == key then [data] else []
  }

  function Occurrences(rounds: seq<Round>, key: string): seq<Data> {
    if rounds == [] then []
    else Occurrences(rounds[..|rounds| - 1], key) + OccurrencesIn(rounds[|rounds| - 1], key)
  }

  /** The last data differs from the one before it, or is the first. */
  predicate Changed(occurrences: seq<Data>)
    requires occurrences != []
  {
    var n := |occurrences|;
    n == 1 || !DataEqual(occurrences[n - 2], occurrences[n - 1])
  }

  /** The last of these rounds monitored the key, and last with data other than the data before it. */
  predicate HasNews(rounds: seq<Round>, key: string)
    requires rounds != []
  {
    && OccurrencesIn(rounds[|rounds| - 1], key) != []
    && Original(rounds[|rounds| - 1], key) != Some([])
    && Changed(Occurrences(rounds, key))
  }

  /** What the last round with news left. */
  function Latest(rounds: seq<Round>, key: string): Option<Data> {
    if rounds == [] then None
    else if HasNews(rounds, key) then Original(rounds[|rounds| - 1], key)
    else Latest(rounds[..|rounds| - 1], key)
  }

  lemma {:induction false} OriginalIsLast(round: Round, key: string)
    ensures Original(round, key)
         == var found := OccurrencesIn(round, key); if found == [] then None else Some(found[|found| - 1])
  {
    if round != [] {
      OriginalIsLast(round[..|round| - 1], key);
    }
  }

  /** The data stored under a key is equal to the data monitored last under it. */
  ghost predicate Tracks(last: map<string, Data>, key: string, occurrences: seq<Data>) {
    && (key in last <==> occurrences != [])
    && (occurrences != [] ==> DataEqual(last[key], occurrences[|occurrences| - 1]))
  }

  ghost function RecordOf(occurrences: seq<Data>): Record
    requires occurrences != []
  {
    if Changed(occurrences) then Record(occurrences[|occurrences| - 1], false) else Record([], true)
  }

  lemma TracksNext(last: map<string, Data>, key: string, occurrences: seq<Data>, data: Data)
    requires Tracks(last, key, occurrences)
    ensures Tracks(Remember(last, key, data), key, occurrences + [data])
    ensures Encode(last, key, data) == RecordOf(occurrences + [data])
  {
    DataEqualIsEquivalence(data, data, data);
    if key in last {
      var previous := occurrences[|occurrences| - 1];
      DataEqualIsEquivalence(last[key], previous, data);
      DataEqualIsEquivalence(previous, last[key], data);
    }
  }

  /** The round leaves `all` occurrences so far, and stores the record of the last if it had any. */
  ghost predicate RoundTracked(last: map<string, Data>, round: Round, key: string, all: seq<Data>) {
    && Tracks(LastAfterRound(last, round), key, all)
    && (key in EncodeRound(last, round) <==> OccurrencesIn(round, key) != [])
    && (OccurrencesIn(round, key) != [] ==> all != [] && EncodeRound(last, round)[key] == RecordOf(all))
  }

  lemma OwnHarnessTracks(last: map<string, Data>, front: Round, key: string, data: Data, before: seq<Data>)
    requires RoundTracked(last, front, key, before)
    ensures RoundTracked(last, front + [(key, data)], key, before + [data])
  {
    TracksNext(LastAfterRound(last, front), key, before, data);
    assert (front + [(key, data)])[..|front|] == front;
  }

  lemma OtherHarnessTracks(last: map<string, Data>, front: Round, key: string, k: string, data: Data,
                           before: seq<Data>)
    requires RoundTracked(last, front, key, before) && k != key
    ensures RoundTracked(last, front + [(k, data)], key, before)
  {
    assert (front + [(k, data)])[..|front|] == front;
  }

  /** For any key, shared or not, a round stores the record of its last occurrence against the one before. */
  lemma {:induction false} RoundTracks(last: map<string, Data>, round: Round, key: string, occurrences: seq<Data>)
    requires Tracks(last, key, occurrences)
    ensures RoundTracked(last, round, key, occurrences + OccurrencesIn(round, key))
  {
    if round == [] {
      assert occurrences + [] == occurrences;
    } else {
      var front := round[..|round| - 1];
      var (k, data) := round[|round| - 1];
      var before := occurrences + OccurrencesIn(front, key);
      RoundTracks(last, front, key, occurrences);
      assert round == front + [(k, data)];
      if k == key {
        OwnHarnessTracks(last, front, key, data, before);
        assert occurrences + OccurrencesIn(round, key) == before + [data];
      } else {
        OtherHarnessTracks(last, front, key, k, data, before);
        assert occurrences + OccurrencesIn(round, key) == before;
      }
    }
  }

  lemma {:induction false} RoundsTrack(rounds: seq<Round>, key: string)
    ensures Tracks(LastAfter(rounds), key, Occurrences(rounds, key))
  {
    if rounds != [] {
      var front := rounds[..|rounds| - 1];
      RoundsTrack(front, key);
      RoundTracks(LastAfter(front), rounds[|rounds| - 1], key, Occurrences(front, key));
    }
  }

  /** Either loop takes a record that is not news for "no change", and any other at its word. */
  lemma StepOnRecord(loop: DecodingLoop, full: Option<Data>, occurrences: seq<Data>)
    requires occurrences != []
    ensures var last := occurrences[|occurrences| - 1];
            Step(loop, full, RecordOf(occurrences))
            == if last != [] && Changed(occurrences) then (Some(last), Some(last)) else (full, full)
  {
  }

  lemma RecordOfRound(rounds: seq<Round>, key: string)
    requires rounds != []
    ensures var snapshot := EncodeRound(LastAfter(rounds[..|rounds| - 1]), rounds[|rounds| - 1]);
            var original, all := Original(rounds[|rounds| - 1], key), Occurrences(rounds, key);
            && (key in snapshot <==> original.Some?)
            && (original.Some? ==> all != [] && snapshot[key] == RecordOf(all) && original == Some(all[|all| - 1]))
            && (HasNews(rounds, key) <==> original.Some? && original.value != [] && Changed(all))
  {
    var front, round := rounds[..|rounds| - 1], rounds[|rounds| - 1];
    RoundsTrack(front, key);
    RoundTracks(LastAfter(front), round, key, Occurrences(front, key));
    OriginalIsLast(round, key);
  }

  lemma DecodeNext(loop: DecodingLoop, snapshots: seq<Snapshot>, snapshot: Snapshot, key: string)
    ensures var full, all := FullAfter(loop, snapshots, key), snapshots + [snapshot];
            && FullAfter(loop, all, key) == (if key in snapshot then Step(loop, full, snapshot[key]).1 else full)
            && Decode(loop, all, key)[|snapshots|]
               == (if key in snapshot then Step(loop, full, snapshot[key]).0 else None)
  {
    assert (snapshots + [snapshot])[..|snapshots|] == snapshots;
  }

  lemma {:induction false} DecodersHoldLatest(loop: DecodingLoop, rounds: seq<Round>, key: string)
    ensures |EncodeRounds(rounds)| == |rounds|
    ensures FullAfter(loop, EncodeRounds(rounds), key) == Latest(rounds, key)
    ensures rounds != [] ==>
              Decode(loop, EncodeRounds(rounds), key)[|rounds| - 1]
              == if Original(rounds[|rounds| - 1], key).None? then None else Latest(rounds, key)
  {
    if rounds != [] {
      var front, round := rounds[..|rounds| - 1], rounds[|rounds| - 1];
      DecodersHoldLatest(loop, front, key);
      RecordOfRound(rounds, key);
      DecodeNext(loop, EncodeRounds(front), EncodeRound(LastAfter(front), round), key);
      if Original(round, key).Some? {
        StepOnRecord(loop, Latest(front, key), Occurrences(rounds, key));
      }
    }
  }

  /** What a decoder shows for round `r` of the encoded rounds. */
  ghost function Shown(loop: DecodingLoop, rounds: seq<Round>, key: string, r: nat): Option<Data>
    requires r < |rounds| && |EncodeRounds(rounds)| == |rounds|
  {
    Decode(loop, EncodeRounds(rounds), key)[r]
  }

  lemma {:induction false} EncodingIsPrefixwise(rounds: seq<Round>, n: nat)
    requires n <= |rounds|
    ensures |EncodeRounds(rounds)| == |rounds| && EncodeRounds(rounds)[..n] == EncodeRounds(rounds[..n])
    decreases |rounds|
  {
    if rounds == [] || n == |rounds| {
      assert rounds[..n] == rounds;
      if rounds != [] {
        EncodingIsPrefixwise(rounds[..|rounds| - 1], 0);
      }
    } else {
      EncodingIsPrefixwise(rounds[..|rounds| - 1], n);
      assert rounds[..|rounds| - 1][..n] == rounds[..n];
    }
  }

  lemma {:induction false} DecodingIsPrefixwise(loop: DecodingLoop, snapshots: seq<Snapshot>, key: string, n: nat)
    requires n <= |snapshots|
    ensures Decode(loop, snapshots[..n], key) == Decode(loop, snapshots, key)[..n]
    decreases |snapshots|
  {
    if n == |snapshots| {
      assert snapshots[..n] == snapshots;
    } else {
      var front := snapshots[..|snapshots| - 1];
      DecodingIsPrefixwise(loop, front, key, n);
      assert front[..n] == snapshots[..n];
    }
  }

  /** For any rounds and any key, shared or not, either decoder shows for a round in which the key was
      monitored what the last round with news left, and nothing for any other round. */
  lemma ShownIsLatest(loop: DecodingLoop, rounds: seq<Round>, key: string, r: nat)
    requires r < |rounds|
    ensures |EncodeRounds(rounds)| == |rounds|
    ensures Shown(loop, rounds, key, r)
         == if Original(rounds[r], key).None? then None else Latest(rounds[..r + 1], key)
  {
    EncodingIsPrefixwise(rounds, r + 1);
    DecodingIsPrefixwise(loop, EncodeRounds(rounds), key, r + 1);
    DecodersHoldLatest(loop, rounds[..r + 1], key);
  }

  /** A decoded snapshot is faithful: equal data, and nothing shown where there was none. */
  ghost predicate Faithful(loop: DecodingLoop, rounds: seq<Round>, key: string, r: nat)
    requires r < |rounds| && |EncodeRounds(rounds)| == |rounds|
  {
    var original, shown := Original(rounds[r], key), Shown(loop, rounds, key, r);
    if original.None? || original.value == [] then shown.None?
    else shown.Some? && DataEqual(shown.value, original.value)
  }

  ghost predicate NewsAt(rounds: seq<Round>, key: string, n: nat)
    requires n < |rounds|
  {
    HasNews(rounds[..n + 1], key)
  }

  /** The last news up to round `r` came in round `n`. */
  ghost predicate LastNewsAt(rounds: seq<Round>, key: string, r: nat, n: nat)
    requires n <= r < |rounds|
  {
    NewsAt(rounds, key, n) && forall m :: n < m <= r ==> !NewsAt(rounds, key, m)
  }

  /** Up to round `r` there was no news, or the last news is the latest data. */
  ghost predicate IsLatest(latest: Option<Data>, rounds: seq<Round>, key: string, r: nat)
    requires r < |rounds|
  {
    if latest.None? then forall n :: 0 <= n <= r ==> !NewsAt(rounds, key, n)
    else exists n: nat :: n <= r && LastNewsAt(rounds, key, r, n) && Original(rounds[n], key) == latest
  }

  lemma LastNewsStays(rounds: seq<Round>, key: string, r: nat, n: nat)
    requires n <= r && r + 1 < |rounds| && LastNewsAt(rounds, key, r, n) && !NewsAt(rounds, key, r + 1)
    ensures LastNewsAt(rounds, key, r + 1, n)
  {
    forall m | n < m <= r + 1
      ensures !NewsAt(rounds, key, m)
    {
      if m <= r {
        assert LastNewsAt(rounds, key, r, n);
      }
    }
  }

  lemma NoNewsLater(latest: Option<Data>, rounds: seq<Round>, key: string, r: nat)
    requires r + 1 < |rounds| && IsLatest(latest, rounds, key, r) && !NewsAt(rounds, key, r + 1)
    ensures IsLatest(latest, rounds, key, r + 1)
  {
    if latest.Some? {
      var n: nat :| n <= r && LastNewsAt(rounds, key, r, n) && Original(rounds[n], key) == latest;
      LastNewsStays(rounds, key, r, n);
    }
  }

  lemma {:induction false} LatestIsLastNews(rounds: seq<Round>, key: string, r: nat)
    requires r < |rounds|
    ensures IsLatest(Latest(rounds[..r + 1], key), rounds, key, r)
    decreases r
  {
    var upTo := rounds[..r + 1];
    assert upTo[..|upTo| - 1] == rounds[..r];
    OriginalIsLast(rounds[r], key);
    if NewsAt(rounds, key, r) {
      assert LastNewsAt(rounds, key, r, r);
    } else if r > 0 {
      LatestIsLastNews(rounds, key, r - 1);
      NoNewsLater(Latest(rounds[..r], key), rounds, key, r - 1);
    } else {
      assert Latest(rounds[..0], key).None?;
    }
  }

  /** When the decoding of a snapshot is faithful, for any rounds and any key: always where the key was not
      monitored; where it was monitored without data, exactly if there was no news so far; and where it was
      monitored with data, exactly if the last news so far was equal data. */
  lemma FaithfulIff(loop: DecodingLoop, rounds: seq<Round>, key: string, r: nat)
    requires r < |rounds|
    ensures |EncodeRounds(rounds)| == |rounds|
    ensures Faithful(loop, rounds, key, r)
       <==> match Original(rounds[r], key)
            case None => true
            case Some(data) =>
              if data == [] then forall n :: 0 <= n <= r ==> !NewsAt(rounds, key, n)
              else exists n: nat :: n <= r && LastNewsAt(rounds, key, r, n)
                                    && Original(rounds[n], key).Some? && DataEqual(Original(rounds[n], key).value, data)
  {
    ShownIsLatest(loop, rounds, key, r);
    LatestIsLastNews(rounds, key, r);
    forall n: nat, m: nat | n <= r && m <= r && LastNewsAt(rounds, key, r, n) && LastNewsAt(rounds, key, r, m)
      ensures n == m
    {
    }
  }

  // ---- Distinct keys ----

  predicate DistinctKeyIn(round: Round, key: string) {
    forall i, j :: 0 <= i < |round| && 0 <= j < |round| && round[i].0 == round[j].0 == key ==> i == j
  }

  predicate DistinctKey(rounds: seq<Round>, key: string) {
    forall r :: 0 <= r < |rounds| ==> DistinctKeyIn(rounds[r], key)
  }

  /** Non-empty data was seen in some of the rounds. */
  ghost predicate SeenData(rounds: seq<Round>, key: string) {
    exists r :: 0 <= r < |rounds| && Original(rounds[r], key).Some? && Original(rounds[r], key).value != []
  }

  lemma SeenOneMore(rounds: seq<Round>, key: string)
    requires rounds != []
    ensures var last := Original(rounds[|rounds| - 1], key);
            SeenData(rounds, key) <==> SeenData(rounds[..|rounds| - 1], key) || (last.Some? && last.value != [])
  {
    var front := rounds[..|rounds| - 1];
    if SeenData(front, key) {
      var r :| 0 <= r < |front| && Original(front[r], key).Some? && Original(front[r], key).value != [];
      assert rounds[r] == front[r];
    }
    if SeenData(rounds, key) {
      var r :| 0 <= r < |rounds| && Original(rounds[r], key).Some? && Original(rounds[r], key).value != [];
      if r < |front| {
        assert front[r] == rounds[r];
      }
    }
  }

  lemma {:induction false} AbsentKey(round: Round, key: string)
    requires forall i :: 0 <= i < |round| ==> round[i].0 != key
    ensures OccurrencesIn(round, key) == []
  {
    if round != [] {
      AbsentKey(round[..|round| - 1], key);
    }
  }

  lemma {:induction false} DistinctKeyOccursOnce(round: Round, key: string)
    requires DistinctKeyIn(round, key)
    ensures |OccurrencesIn(round, key)| <= 1
  {
    if round != [] {
      var front := round[..|round| - 1];
      if round[|round| - 1].0 == key {
        AbsentKey(front, key);
      } else {
        DistinctKeyOccursOnce(front, key);
      }
    }
  }

  /** The last news is equal to the data monitored last, unless that is empty. */
  ghost predicate UpToDate(latest: Option<Data>, occurrences: seq<Data>) {
    occurrences != [] && occurrences[|occurrences| - 1] != [] ==>
      latest.Some? && DataEqual(latest.value, occurrences[|occurrences| - 1])
  }

  lemma UpToDateNext(latest: Option<Data>, occurrences: seq<Data>, data: Data)
    requires UpToDate(latest, occurrences)
    ensures UpToDate(if data != [] && Changed(occurrences + [data]) then Some(data) else latest, occurrences + [data])
    ensures data != [] && !Changed(occurrences + [data]) ==> latest.Some?
  {
    DataEqualIsEquivalence(data, data, data);
    if data != [] && !Changed(occurrences + [data]) {
      var previous := occurrences[|occurrences| - 1];
      DataEqualIsEquivalence(previous, data, data);
      DataEqualIsEquivalence(latest.value, previous, data);
    }
  }

  lemma NewsOfOneOccurrence(rounds: seq<Round>, key: string)
    requires rounds != [] && |OccurrencesIn(rounds[|rounds| - 1], key)| == 1
    ensures var data, before := OccurrencesIn(rounds[|rounds| - 1], key)[0], Occurrences(rounds[..|rounds| - 1], key);
            && Occurrences(rounds, key) == before + [data]
            && Original(rounds[|rounds| - 1], key) == Some(data)
            && (HasNews(rounds, key) <==> data != [] && Changed(before + [data]))
  {
    OriginalIsLast(rounds[|rounds| - 1], key);
  }

  lemma {:induction false} LatestOfDistinctKey(rounds: seq<Round>, key: string)
    requires DistinctKey(rounds, key)
    ensures Latest(rounds, key).Some? <==> SeenData(rounds, key)
    ensures UpToDate(Latest(rounds, key), Occurrences(rounds, key))
  {
    if rounds != [] {
      var front, round := rounds[..|rounds| - 1], rounds[|rounds| - 1];
      LatestOfDistinctKey(front, key);
      DistinctKeyOccursOnce(round, key);
      OriginalIsLast(round, key);
      SeenOneMore(rounds, key);
      if OccurrencesIn(round, key) != [] {
        NewsOfOneOccurrence(rounds, key);
        UpToDateNext(Latest(front, key), Occurrences(front, key), OccurrencesIn(round, key)[0]);
      } else {
        assert Occurrences(rounds, key) == Occurrences(front, key);
      }
    }
  }

  /** For a harness with a distinct key and any rounds, each decoder shows, where the harness was monitored
      with data, equal data; where it was monitored without data, something only if data was seen before;
      and nothing where it was not monitored. */
  lemma DecodingGivesBackCoverage(loop: DecodingLoop, rounds: seq<Round>, key: string, r: nat)
    requires DistinctKey(rounds, key) && r < |rounds|
    ensures |EncodeRounds(rounds)| == |rounds|
    ensures var original, shown := Original(rounds[r], key), Shown(loop, rounds, key, r);
            && (original.None? ==> shown.None?)
            && (original.Some? && original.value != [] ==>
                  && shown.Some? && DataEqual(shown.value, original.value)
                  && forall name :: AgreeOn(shown.value, original.value, name))
            && (original == Some([]) ==> (shown.Some? <==> SeenData(rounds[..r], key)))
  {
    if Original(rounds[r], key).Some? && Latest(rounds[..r + 1], key).Some? {
      DataEqualIff(Latest(rounds[..r + 1], key).value, Original(rounds[r], key).value);
    }
    var upTo := rounds[..r + 1];
    assert upTo[..r] == rounds[..r];
    ShownIsLatest(loop, rounds, key, r);
    LatestOfDistinctKey(upTo, key);
    OriginalIsLast(rounds[r], key);
    SeenOneMore(upTo, key);
  }

  /** So for a distinct key decoding is faithful exactly at the snapshots that are not empty after a non-empty
      one: an empty list is stored for "no coverage" and for "no change", and the decoders take it for the
      latter. */
  lemma FaithfulIffDistinct(loop: DecodingLoop, rounds: seq<Round>, key: string, r: nat)
    requires DistinctKey(rounds, key) && r < |rounds|
    ensures |EncodeRounds(rounds)| == |rounds|
    ensures Faithful(loop, rounds, key, r)
       <==> !(Original(rounds[r], key) == Some([]) && SeenData(rounds[..r], key))
  {
    DecodingGivesBackCoverage(loop, rounds, key, r);
  }

  // ---- Shared keys ----

  /** The key was monitored at least twice in the round, and the last two times with equal data. */
  predicate EndsInRepetition(round: Round, key: string) {
    var found := OccurrencesIn(round, key);
    |found| >= 2 && !Changed(found)
  }

  lemma RepetitionIsNoNews(rounds: seq<Round>, key: string)
    requires rounds != [] && EndsInRepetition(rounds[|rounds| - 1], key)
    ensures !HasNews(rounds, key)
  {
    var before, found := Occurrences(rounds[..|rounds| - 1], key), OccurrencesIn(rounds[|rounds| - 1], key);
    assert Occurrences(rounds, key) == before + found;
  }

  /** A round that ends in a repetition is decoded as what was shown before it, so faithfully only if that
      was equal data already. */
  lemma RepetitionHidesRound(loop: DecodingLoop, rounds: seq<Round>, key: string, r: nat)
    requires r < |rounds| && EndsInRepetition(rounds[r], key)
    ensures |EncodeRounds(rounds)| == |rounds|
    ensures Shown(loop, rounds, key, r) == Latest(rounds[..r], key)
  {
    assert rounds[..r + 1][..r] == rounds[..r];
    ShownIsLatest(loop, rounds, key, r);
    OriginalIsLast(rounds[r], key);
    RepetitionIsNoNews(rounds[..r + 1], key);
  }

  lemma {:induction false} RepetitionsLeaveNothing(rounds: seq<Round>, key: string)
    requires forall r :: 0 <= r < |rounds| ==> OccurrencesIn(rounds[r], key) == [] || EndsInRepetition(rounds[r], key)
    ensures Latest(rounds, key).None?
  {
    if rounds != [] {
      RepetitionsLeaveNothing(rounds[..|rounds| - 1], key);
      if EndsInRepetition(rounds[|rounds| - 1], key) {
        RepetitionIsNoNews(rounds, key);
      }
    }
  }

  /** If two harnesses share a key (it leaves out the task) and have equal data whenever they are monitored,
      then nothing is ever shown for the key: the second record overwrites the first with "same as
      previous". */
  lemma SharedKeyLosesData(loop: DecodingLoop, rounds: seq<Round>, key: string, r: nat)
    requires forall q :: 0 <= q < |rounds| ==> OccurrencesIn(rounds[q], key) == [] || EndsInRepetition(rounds[q], key)
    requires r < |rounds|
    ensures |EncodeRounds(rounds)| == |rounds| && Shown(loop, rounds, key, r).None?
  {
    ShownIsLatest(loop, rounds, key, r);
    RepetitionsLeaveNothing(rounds[..r + 1], key);
  }

  /** One such round, with any data. */
  lemma SharedRoundLosesData(loop: DecodingLoop, key: string, data: Data)
    requires data != []
    ensures var rounds := [[(key, data), (key, data)]];
            |EncodeRounds(rounds)| == 1 && Shown(loop, rounds, key, 0).None? && !Faithful(loop, rounds, key, 0)
  {
    var round := [(key, data), (key, data)];
    assert round[..1] == [(key, data)] && round[..1][..0] == [];
    assert OccurrencesIn(round[..1][..0], key) == [];
    assert OccurrencesIn(round[..1], key) == [] + [data];
    assert OccurrencesIn(round, key) == [data] + [data];
    OriginalIsLast(round, key);
    DataEqualIsEquivalence(data, data, data);
    SharedKeyLosesData(loop, [round], key, 0);
  }

  // ---- The two decoders ----

  /** A record that claims to be the same and still carries data; the encoder writes none. */
  predicate IsContradictory(record: Record) {
    record.same && record.data != []
  }

  lemma {:induction false} EncoderWritesNoContradiction(rounds: seq<Round>, key: string)
    ensures forall snapshot :: snapshot in EncodeRounds(rounds) && key in snapshot ==> !IsContradictory(snapshot[key])
  {
    if rounds != [] {
      EncoderWritesNoContradiction(rounds[..|rounds| - 1], key);
      RoundWritesNoContradiction(LastAfter(rounds[..|rounds| - 1]), rounds[|rounds| - 1], key);
    }
  }

  lemma {:induction false} RoundWritesNoContradiction(last: map<string, Data>, round: Round, key: string)
    ensures key in EncodeRound(last, round) ==> !IsContradictory(EncodeRound(last, round)[key])
  {
    if round != [] {
      RoundWritesNoContradiction(last, round[..|round| - 1], key);
    }
  }

  /** On any snapshots without such a record, whoever wrote them, the two decoders show the same. */
  lemma {:induction false} DecodersAgree(snapshots: seq<Snapshot>, key: string)
    requires forall snapshot :: snapshot in snapshots && key in snapshot ==> !IsContradictory(snapshot[key])
    ensures Decode(Printing, snapshots, key) == Decode(Plotting, snapshots, key)
    ensures FullAfter(Printing, snapshots, key) == FullAfter(Plotting, snapshots, key)
  {
    if snapshots != [] {
      var front, last := snapshots[..|snapshots| - 1], snapshots[|snapshots| - 1];
      assert forall snapshot :: snapshot in front ==> snapshot in snapshots;
      DecodersAgree(front, key);
      assert last in snapshots;
    }
  }

  /** The printing and the visualisation decoder agree on every encoder output, distinct keys or not. */
  lemma DecodersAgreeOnEncoderOutput(rounds: seq<Round>, key: string)
    ensures Decode(Printing, EncodeRounds(rounds), key) == Decode(Plotting, EncodeRounds(rounds), key)
  {
    EncoderWritesNoContradiction(rounds, key);
    DecodersAgree(EncodeRounds(rounds), key);
  }
}
