/** The state the stack parser builds while it reads a stack trace: the frames grouped by thread, the
    filtered frames of the crash state, and the cycle search that rewrites the crash state of a stack
    overflow. A matched line arrives as its filtered text, whether it is to be ignored, and what the
    frame specification (if one was given) extracted from it. */
module StackParser {
  import opened Outcomes

  const MAX_CRASH_STATE_FRAMES: nat := 3
  const MAX_CYCLE_LENGTH: nat := 10
  const REPEATED_CYCLE_COUNT: nat := 3

  // ---- Crash state text ----

  /** Python's "\n".join(lines). */
  function JoinLines(lines: seq<string>): string {
    if lines == [] then ""
    else if |lines| == 1 then lines[0]
    else JoinLines(lines[..|lines| - 1]) + "\n" + lines[|lines| - 1]
  }

  /** Every line followed by a newline. */
  function Terminated(lines: seq<string>): string {
    if lines == [] then "" else Terminated(lines[..|lines| - 1]) + (lines[|lines| - 1] + "\n")
  }

  lemma {:induction false} TerminatedIsJoined(lines: seq<string>)
    requires lines != []
    ensures Terminated(lines) == JoinLines(lines) + "\n"
  {
    var n := |lines| - 1;
    if n > 0 {
      TerminatedIsJoined(lines[..n]);
    } else {
      assert lines[..0] == [];
    }
  }

  lemma TerminatedOneMore(lines: seq<string>, line: string)
    ensures Terminated(lines + [line]) == Terminated(lines) + (line + "\n")
  {
    assert (lines + [line])[..|lines|] == lines;
  }

  lemma AppendTerminated(prefix: string, lines: seq<string>, line: string)
    ensures prefix + Terminated(lines) + (line + "\n") == prefix + Terminated(lines + [line])
  {
    TerminatedOneMore(lines, line);
  }

  lemma Regroup(line: string, text: string, more: string)
    ensures line + ("\n" + text) + more == line + ("\n" + (text + more))
  {
  }

  lemma {:induction false} TerminatedFirst(line: string, lines: seq<string>)
    ensures Terminated([line] + lines) == line + ("\n" + Terminated(lines))
    decreases |lines|
  {
    if lines == [] {
      TerminatedOneMore([], line);
      assert [line] + lines == [] + [line];
    } else {
      var n := |lines| - 1;
      TerminatedFirst(line, lines[..n]);
      TerminatedOneMore([line] + lines[..n], lines[n]);
      TerminatedOneMore(lines[..n], lines[n]);
      assert lines == lines[..n] + [lines[n]] && [line] + lines == ([line] + lines[..n]) + [lines[n]];
      Regroup(line, Terminated(lines[..n]), lines[n] + "\n");
    }
  }

  // ---- Cycles in a stack overflow ----

  /** A block of `length` frames from `start` on. */
  datatype Cycle = Cycle(start: nat, length: nat)

  /** The order in which the search tries candidates, reflexive. */
  predicate Before(c: Cycle, d: Cycle) {
    c.start < d.start || (c.start == d.start && c.length <= d.length)
  }

  /** Where the `r`-th repetition of the block starts. */
  function BlockStart(c: Cycle, r: nat): nat {
    if r == 0 then c.start else BlockStart(c, r - 1) + c.length
  }

  function Block(frames: seq<string>, c: Cycle, r: nat): seq<string>
    requires BlockStart(c, r) + c.length <= |frames|
  {
    frames[BlockStart(c, r)..BlockStart(c, r) + c.length]
  }

  /** Three equal consecutive blocks, the third ending strictly before the last frame. */
  predicate IsCycle(frames: seq<string>, c: Cycle) {
    && 1 <= c.length <= MAX_CYCLE_LENGTH
    && c.start + REPEATED_CYCLE_COUNT * c.length < |frames|
    && Block(frames, c, 0) == Block(frames, c, 1) == Block(frames, c, 2)
  }

  /** `pick` is the first cycle in search order, if there is one. */
  ghost predicate IsPick(frames: seq<string>, pick: Option<Cycle>) {
    match pick
    case None => forall c :: !IsCycle(frames, c)
    case Some(p) => IsCycle(frames, p) && forall c :: IsCycle(frames, c) ==> Before(p, c)
  }

  lemma AllEqualIff(blocks: seq<seq<string>>)
    requires |blocks| == 3
    ensures (forall block | block in blocks :: block == blocks[0]) <==> blocks[0] == blocks[1] == blocks[2]
  {
    assert blocks[1] in blocks && blocks[2] in blocks;
  }

  /** The inner loop: collects the repetitions of one candidate until the frames end, then compares. */
  method TryCycle(frames: seq<string>, c: Cycle) returns (found: bool)
    requires 1 <= c.length <= MAX_CYCLE_LENGTH
    ensures found == IsCycle(frames, c)
  {
    var numFrames := |frames|;
    assert BlockStart(c, 1) == c.start + c.length && BlockStart(c, 2) == c.start + 2 * c.length;
    assert BlockStart(c, 3) == c.start + 3 * c.length;
    var blocks: seq<seq<string>>, endReached := [], false;
    for i := 0 to REPEATED_CYCLE_COUNT
      invariant |blocks| == i && !endReached
      invariant i > 0 ==> BlockStart(c, i) < numFrames
      invariant forall r :: 0 <= r < i ==> BlockStart(c, r) + c.length <= numFrames && blocks[r] == Block(frames, c, r)
    {
      var startIndex, endIndex := BlockStart(c, i), BlockStart(c, i + 1);
      if endIndex >= numFrames {
        endReached := true;
        break;
      }
      blocks := blocks + [frames[startIndex..endIndex]];
    }
    if endReached {
      return false;
    }
    AllEqualIff(blocks);
    return forall block | block in blocks :: block == blocks[0];
  }

  method FindCycle(frames: seq<string>) returns (pick: Option<Cycle>)
    ensures IsPick(frames, pick)
  {
    for frameIndex := 0 to |frames|
      invariant forall c: Cycle :: c.start < frameIndex ==> !IsCycle(frames, c)
    {
      for cycleLength := 1 to MAX_CYCLE_LENGTH + 1
        invariant forall c: Cycle :: c.start < frameIndex ==> !IsCycle(frames, c)
        invariant forall c: Cycle :: c.start == frameIndex && c.length < cycleLength ==> !IsCycle(frames, c)
      {
        var candidate := Cycle(frameIndex, cycleLength);
        var found := TryCycle(frames, candidate);
        if found {
          return Some(candidate);
        }
      }
    }
    return None;
  }

  lemma PickIsUnique(frames: seq<string>, p: Option<Cycle>, q: Option<Cycle>)
    requires IsPick(frames, p) && IsPick(frames, q)
    ensures p == q
  {
    if p.Some? && q.Some? {
      assert Before(p.value, q.value) && Before(q.value, p.value);
    }
  }

  /** Three equal blocks are a stretch of period `length`. */
  lemma CycleIsPeriodic(frames: seq<string>, c: Cycle)
    requires c.start + REPEATED_CYCLE_COUNT * c.length <= |frames|
    ensures Block(frames, c, 0) == Block(frames, c, 1) == Block(frames, c, 2)
       <==> forall k :: c.start <= k < c.start + 2 * c.length ==> frames[k] == frames[k + c.length]
  {
    var b0, b1, b2 := Block(frames, c, 0), Block(frames, c, 1), Block(frames, c, 2);
    if b0 == b1 == b2 {
      forall k | c.start <= k < c.start + 2 * c.length
        ensures frames[k] == frames[k + c.length]
      {
        if k < c.start + c.length {
          assert b0[k - c.start] == b1[k - c.start];
        } else {
          assert b1[k - c.start - c.length] == b2[k - c.start - c.length];
        }
      }
    }
  }

  /** From `start` on, `length` frames (at most ten) come three times over, and at least one more frame follows. */
  ghost predicate ComesThreeTimes(frames: seq<string>, c: Cycle) {
    && 1 <= c.length <= 10
    && c.start + 3 * c.length < |frames|
    && forall k :: c.start <= k < c.start + 2 * c.length ==> frames[k] == frames[k + c.length]
  }

  lemma IsCycleIff(frames: seq<string>, c: Cycle)
    ensures IsCycle(frames, c) <==> ComesThreeTimes(frames, c)
  {
    if 1 <= c.length <= 10 && c.start + 3 * c.length < |frames| {
      CycleIsPeriodic(frames, c);
    }
  }

  /** `p` comes three times, and nothing that starts earlier does, nor anything shorter that starts there. */
  ghost predicate IsFirstCycle(frames: seq<string>, p: Cycle) {
    && ComesThreeTimes(frames, p)
    && forall c :: ComesThreeTimes(frames, c) ==> p.start < c.start || (p.start == c.start && p.length <= c.length)
  }

  lemma IsPickIff(frames: seq<string>, p: Cycle)
    ensures IsPick(frames, Some(p)) <==> IsFirstCycle(frames, p)
    ensures IsPick(frames, None) <==> forall c :: !ComesThreeTimes(frames, c)
  {
    forall c
      ensures IsCycle(frames, c) <==> ComesThreeTimes(frames, c)
    {
      IsCycleIff(frames, c);
    }
  }

  lemma PickMeans(frames: seq<string>, pick: Option<Cycle>)
    requires IsPick(frames, pick)
    ensures pick.None? <==> forall c :: !ComesThreeTimes(frames, c)
    ensures pick.Some? ==> IsFirstCycle(frames, pick.value)
    ensures forall p :: IsFirstCycle(frames, p) ==> pick == Some(p)
  {
    if pick.Some? {
      IsPickIff(frames, pick.value);
    } else {
      IsPickIff(frames, Cycle(0, 0));
    }
    forall p | IsFirstCycle(frames, p)
      ensures pick == Some(p)
    {
      IsPickIff(frames, p);
      PickIsUnique(frames, Some(p), pick);
    }
  }

  /** `block` is two or more repetitions of its first `d` frames. */
  ghost predicate IsRepetition(block: seq<string>, d: nat) {
    && 1 <= d < |block|
    && |block| % d == 0
    && forall k :: 0 <= k < |block| - d ==> block[k] == block[k + d]
  }

  lemma RepetitionGivesShorterCycle(frames: seq<string>, c: Cycle, d: nat)
    requires IsCycle(frames, c) && IsRepetition(Block(frames, c, 0), d)
    ensures IsCycle(frames, Cycle(c.start, d))
  {
    var block := Block(frames, c, 0);
    CycleIsPeriodic(frames, c);
    AtLeastTwice(c.length, d);
    forall k | c.start <= k < c.start + 2 * d
      ensures frames[k] == frames[k + d]
    {
      if k + d < c.start + c.length {
        assert block[k - c.start] == block[k - c.start + d];
      } else {
        // Only for two repetitions: step back by one block on the right-hand side.
        assert frames[k + d - c.length] == frames[k + d];
        assert block[k - c.start - d] == block[k - c.start];
      }
    }
    CycleIsPeriodic(frames, Cycle(c.start, d));
  }

  lemma AtLeastTwice(n: nat, d: nat)
    requires 1 <= d < n && n % d == 0
    ensures n == 2 * d || 3 * d <= n
  {
    var q := n / d;
    assert n == q * d;
    assert (q - 1) * d > 0;
    if q >= 3 {
      assert q * d >= 3 * d;
    }
  }

  /** The chosen block is primitive, for every frame list. */
  lemma PickIsPrimitive(frames: seq<string>, p: Cycle, d: nat)
    requires IsPick(frames, Some(p))
    ensures !IsRepetition(Block(frames, p, 0), d)
  {
    if IsRepetition(Block(frames, p, 0), d) {
      RepetitionGivesShorterCycle(frames, p, d);
    }
  }

  lemma CycleStaysOrReachesBeyond(frames: seq<string>, more: seq<string>, c: Cycle)
    ensures IsCycle(frames, c) ==> IsCycle(frames + more, c)
    ensures IsCycle(frames + more, c) && c.start + REPEATED_CYCLE_COUNT * c.length < |frames| ==> IsCycle(frames, c)
  {
    if c.start + REPEATED_CYCLE_COUNT * c.length < |frames| {
      assert Block(frames + more, c, 0) == Block(frames, c, 0);
      assert Block(frames + more, c, 1) == Block(frames, c, 1);
      assert Block(frames + more, c, 2) == Block(frames, c, 2);
    }
  }

  /** Appending frames can only move the pick earlier in search order, to a cycle that reaches into the
      new frames; a pick more than three longest cycles away from the end can no longer move. */
  lemma AppendingMovesPickEarlier(frames: seq<string>, more: seq<string>, p: Cycle, q: Option<Cycle>)
    requires IsPick(frames, Some(p)) && IsPick(frames + more, q)
    ensures q.Some? && Before(q.value, p)
    ensures q.value != p ==> |frames| <= q.value.start + 3 * q.value.length
    ensures p.start + 30 < |frames| ==> q.value == p
  {
    CycleStaysOrReachesBeyond(frames, more, p);
    assert q.Some?;
    CycleStaysOrReachesBeyond(frames, more, q.value);
  }

  // ---- Frames and threads ----

  datatype StackFrame = StackFrame(functionName: string, moduleOffset: string, filename: string)

  /** What a frame specification yields on a match; a pattern without a frame id group gives no id. */
  datatype SpecMatch = SpecMatch(frame: Option<StackFrame>, frameId: Option<nat>)

  datatype MatchedLine = MatchedLine(filtered: string, ignored: bool, spec: Option<SpecMatch>)

  /** The fields of CrashInfo that these operations change. */
  datatype Info = Info(
    crashType: string,
    crashAddress: string,
    crashState: string,
    frameCount: nat,
    frames: seq<seq<Option<StackFrame>>>,
    lastFrameId: int,
    rawFrames: seq<string>)
  {
    /** The last frame id is -1 as long as there is no thread. */
    predicate Valid() {
      -1 <= lastFrameId && (lastFrameId == -1 <==> frames == [])
    }
  }

  const INITIAL: Info := Info("", "", "", 0, [], -1, [])

  function AddToThreads(st: Info, m: SpecMatch): Info
    requires st.Valid()
    ensures AddToThreads(st, m).Valid()
  {
    var newThread := st.lastFrameId < 0 || (m.frameId.Some? && m.frameId.value < st.lastFrameId);
    var id := if m.frameId.Some? then m.frameId.value else st.lastFrameId + 1;
    var threads := if newThread then st.frames + [[]] else st.frames;
    var last := |threads| - 1;
    st.(frames := threads[last := threads[last] + [m.frame]], lastFrameId := id)
  }

  function AddFrame(st: Info, line: MatchedLine): Info
    requires st.Valid()
    ensures AddFrame(st, line).Valid()
  {
    var grouped := if line.spec.Some? then AddToThreads(st, line.spec.value) else st;
    if line.ignored then grouped
    else
      var kept := grouped.(rawFrames := grouped.rawFrames + [line.filtered]);
      if kept.frameCount < MAX_CRASH_STATE_FRAMES then
        kept.(crashState := kept.crashState + (line.filtered + "\n"), frameCount := kept.frameCount + 1)
      else kept
  }

  /** What an update on a matched line is to change: given values, and the filtered texts of match groups. */
  datatype Changes = Changes(
    reset: bool,
    newType: Option<string>,
    newState: Option<string>,
    newFrameCount: Option<nat>,
    newAddress: Option<string>,
    groupType: Option<string>,
    groupAddress: Option<string>,
    groupState: Option<string>)

  function Else<T>(x: Option<T>, y: Option<T>, z: T): T {
    if x.Some? then x.value else if y.Some? then y.value else z
  }

  /** A group's text goes before a given value, and that before a reset. */
  function Update(st: Info, c: Changes): Info {
    st.(crashType := Else(c.groupType, c.newType, st.crashType),
        crashAddress := Else(c.groupAddress, c.newAddress, if c.reset then "" else st.crashAddress),
        crashState := Else(c.groupState, c.newState, if c.reset then "" else st.crashState),
        frameCount := Else(None, c.newFrameCount, if c.reset then 0 else st.frameCount))
  }

  /** What happens to the state on matched lines. */
  datatype Event = Frame(line: MatchedLine) | Updated(changes: Changes)

  function Apply(st: Info, event: Event): Info
    requires st.Valid()
    ensures Apply(st, event).Valid()
  {
    match event
    case Frame(line) => AddFrame(st, line)
    case Updated(changes) => Update(st, changes)
  }

  function Run(st: Info, events: seq<Event>): Info
    requires st.Valid()
    ensures Run(st, events).Valid()
  {
    if events == [] then st else Apply(Run(st, events[..|events| - 1]), events[|events| - 1])
  }

  /** A matched frame with its id; a frame without an id counts as the previous id plus one. */
  datatype Tagged = Tagged(frame: Option<StackFrame>, id: nat)

  ghost function LastId(items: seq<Tagged>): int {
    if items == [] then -1 else items[|items| - 1].id
  }

  /** All frames matched with a frame specification, in order. */
  ghost function MatchedFrames(events: seq<Event>): seq<Tagged> {
    if events == [] then []
    else
      var before := MatchedFrames(events[..|events| - 1]);
      match events[|events| - 1]
      case Frame(MatchedLine(_, _, Some(m))) =>
        before + [Tagged(m.frame, if m.frameId.Some? then m.frameId.value else LastId(before) + 1)]
      case _ => before
  }

  ghost function Flatten(groups: seq<seq<Tagged>>): seq<Tagged> {
    if groups == [] then [] else Flatten(groups[..|groups| - 1]) + groups[|groups| - 1]
  }

  ghost predicate IsRun(group: seq<Tagged>) {
    group != [] && forall i, j :: 0 <= i < j < |group| ==> group[i].id <= group[j].id
  }

  ghost predicate FallsAfter(groups: seq<seq<Tagged>>, g: nat)
    requires g + 1 < |groups|
  {
    groups[g + 1] != [] && groups[g + 1][0].id < LastId(groups[g])
  }

  /** `groups` cuts `items` into its maximal non-decreasing runs of ids. */
  ghost predicate IsRunSplit(groups: seq<seq<Tagged>>, items: seq<Tagged>) {
    && Flatten(groups) == items
    && (forall g :: 0 <= g < |groups| ==> IsRun(groups[g]))
    && (forall g :: 0 <= g < |groups| - 1 ==> FallsAfter(groups, g))
  }

  ghost function FramesOf(items: seq<Tagged>): seq<Option<StackFrame>> {
    seq(|items|, i requires 0 <= i < |items| => items[i].frame)
  }

  ghost predicate SameThreads(groups: seq<seq<Tagged>>, threads: seq<seq<Option<StackFrame>>>) {
    |groups| == |threads| && forall g :: 0 <= g < |groups| ==> threads[g] == FramesOf(groups[g])
  }

  lemma LastOfFlatten(groups: seq<seq<Tagged>>, items: seq<Tagged>)
    requires IsRunSplit(groups, items)
    ensures items == [] <==> groups == []
    ensures groups != [] ==> LastId(items) == LastId(groups[|groups| - 1])
  {
  }

  lemma StartNewRun(groups: seq<seq<Tagged>>, items: seq<Tagged>, item: Tagged)
    requires IsRunSplit(groups, items) && (item.id < LastId(items) || items == [])
    ensures IsRunSplit(groups + [[item]], items + [item])
  {
    var extended := groups + [[item]];
    LastOfFlatten(groups, items);
    assert extended[..|groups|] == groups;
    forall g | 0 <= g < |extended| - 1
      ensures FallsAfter(extended, g)
    {
      assert g < |groups| - 1 ==> FallsAfter(groups, g);
    }
  }

  lemma ExtendLastRun(groups: seq<seq<Tagged>>, items: seq<Tagged>, item: Tagged)
    requires IsRunSplit(groups, items) && items != [] && item.id >= LastId(items)
    ensures groups != [] && IsRunSplit(groups[|groups| - 1 := groups[|groups| - 1] + [item]], items + [item])
  {
    LastOfFlatten(groups, items);
    var n := |groups| - 1;
    var run := groups[n] + [item];
    var extended := groups[n := run];
    assert IsRun(groups[n]);
    assert IsRun(run) && run[0] == groups[n][0];
    assert extended[..n] == groups[..n];
    assert Flatten(groups[..n]) + run == items + [item];
    forall g | 0 <= g < n
      ensures FallsAfter(extended, g)
    {
      assert FallsAfter(groups, g);
      assert extended[g] == groups[g] && extended[g + 1][0] == groups[g + 1][0];
    }
  }

  /** `groups` is the cut of `items`, and the threads of `st` are its groups. */
  ghost predicate ThreadsCut(st: Info, groups: seq<seq<Tagged>>, items: seq<Tagged>) {
    && IsRunSplit(groups, items)
    && SameThreads(groups, st.frames)
    && st.lastFrameId == LastId(items)
  }

  lemma NewThreadCut(st: Info, groups: seq<seq<Tagged>>, items: seq<Tagged>, m: SpecMatch, item: Tagged)
    requires st.Valid() && ThreadsCut(st, groups, items)
    requires item == Tagged(m.frame, if m.frameId.Some? then m.frameId.value else LastId(items) + 1)
    requires item.id < LastId(items) || items == []
    ensures ThreadsCut(AddToThreads(st, m), groups + [[item]], items + [item])
  {
    LastOfFlatten(groups, items);
    StartNewRun(groups, items, item);
    var threads := st.frames + [[]];
    assert AddToThreads(st, m).frames == threads[|st.frames| := [] + [m.frame]];
    assert FramesOf([item]) == [m.frame];
  }

  lemma SameThreadCut(st: Info, groups: seq<seq<Tagged>>, items: seq<Tagged>, m: SpecMatch, item: Tagged)
    requires st.Valid() && ThreadsCut(st, groups, items)
    requires item == Tagged(m.frame, if m.frameId.Some? then m.frameId.value else LastId(items) + 1)
    requires item.id >= LastId(items) && items != []
    ensures groups != []
    ensures ThreadsCut(AddToThreads(st, m), groups[|groups| - 1 := groups[|groups| - 1] + [item]], items + [item])
  {
    LastOfFlatten(groups, items);
    ExtendLastRun(groups, items, item);
    var n := |groups| - 1;
    assert AddToThreads(st, m).frames == st.frames[n := st.frames[n] + [m.frame]];
    assert FramesOf(groups[n] + [item]) == FramesOf(groups[n]) + [m.frame];
  }

  lemma ThreadsCutStep(st: Info, groups: seq<seq<Tagged>>, items: seq<Tagged>, m: SpecMatch, item: Tagged)
    returns (extended: seq<seq<Tagged>>)
    requires st.Valid() && ThreadsCut(st, groups, items)
    requires item == Tagged(m.frame, if m.frameId.Some? then m.frameId.value else LastId(items) + 1)
    ensures ThreadsCut(AddToThreads(st, m), extended, items + [item])
  {
    if item.id < LastId(items) || items == [] {
      NewThreadCut(st, groups, items, m, item);
      extended := groups + [[item]];
    } else {
      SameThreadCut(st, groups, items, m, item);
      extended := groups[|groups| - 1 := groups[|groups| - 1] + [item]];
    }
  }

  /** Over any run, the threads hold all matched frames in order, cut into maximal non-decreasing runs. */
  lemma {:induction false} ThreadsAreMaximalRuns(events: seq<Event>) returns (groups: seq<seq<Tagged>>)
    ensures ThreadsCut(Run(INITIAL, events), groups, MatchedFrames(events))
  {
    if events == [] {
      groups := [];
    } else {
      var before := events[..|events| - 1];
      groups := ThreadsAreMaximalRuns(before);
      var st, items := Run(INITIAL, before), MatchedFrames(before);
      match events[|events| - 1]
      case Frame(line) =>
        if line.spec.Some? {
          var m := line.spec.value;
          var item := Tagged(m.frame, if m.frameId.Some? then m.frameId.value else LastId(items) + 1);
          groups := ThreadsCutStep(st, groups, items, m, item);
        }
      case Updated(_) =>
    }
  }

  lemma DropLastRun(groups: seq<seq<Tagged>>, items: seq<Tagged>) returns (last: seq<Tagged>, rest: seq<Tagged>)
    requires IsRunSplit(groups, items) && groups != []
    ensures last == groups[|groups| - 1] && IsRun(last) && items == rest + last
    ensures IsRunSplit(groups[..|groups| - 1], rest)
    ensures rest != [] ==> last[0].id < LastId(rest)
  {
    var n := |groups| - 1;
    last, rest := groups[n], Flatten(groups[..n]);
    forall g | 0 <= g < n - 1
      ensures FallsAfter(groups[..n], g)
    {
      assert FallsAfter(groups, g);
    }
    LastOfFlatten(groups[..n], rest);
    assert n > 0 ==> FallsAfter(groups, n - 1);
  }

  lemma Overlap(last: seq<Tagged>, rest: seq<Tagged>, last': seq<Tagged>, rest': seq<Tagged>)
    requires rest + last == rest' + last' && last != [] && |rest'| < |rest|
    ensures last'[|rest| - |rest'|] == last[0] && last'[|rest| - |rest'| - 1] == rest[|rest| - 1]
  {
    var items, p := rest + last, |rest|;
    assert items[p] == last[0] && items[p] == last'[p - |rest'|];
    assert items[p - 1] == rest[p - 1] && items[p - 1] == last'[p - 1 - |rest'|];
  }

  lemma LastRunIsNotShorter(last: seq<Tagged>, rest: seq<Tagged>, last': seq<Tagged>, rest': seq<Tagged>)
    requires rest + last == rest' + last' && last != [] && IsRun(last')
    requires rest != [] ==> last[0].id < LastId(rest)
    ensures |rest| <= |rest'|
  {
    if |rest'| < |rest| {
      Overlap(last, rest, last', rest');
    }
  }

  lemma SameCut(rest: seq<Tagged>, last: seq<Tagged>, rest': seq<Tagged>, last': seq<Tagged>)
    requires rest + last == rest' + last' && |rest| == |rest'|
    ensures rest == rest' && last == last'
  {
    assert rest == (rest + last)[..|rest|] && rest' == (rest' + last')[..|rest'|];
    assert last == (rest + last)[|rest|..] && last' == (rest' + last')[|rest'|..];
  }

  /** There is only one such cut. */
  lemma {:induction false} RunSplitIsUnique(g: seq<seq<Tagged>>, h: seq<seq<Tagged>>, items: seq<Tagged>)
    requires IsRunSplit(g, items) && IsRunSplit(h, items)
    ensures g == h
    decreases |g|
  {
    LastOfFlatten(g, items);
    LastOfFlatten(h, items);
    if g != [] {
      var last, rest := DropLastRun(g, items);
      var last', rest' := DropLastRun(h, items);
      LastRunIsNotShorter(last, rest, last', rest');
      LastRunIsNotShorter(last', rest', last, rest);
      SameCut(rest, last, rest', last');
      RunSplitIsUnique(g[..|g| - 1], h[..|h| - 1], rest);
      assert g == g[..|g| - 1] + [last] && h == h[..|h| - 1] + [last];
    }
  }

  /** The texts of the frames that are not ignored. */
  ghost function Kept(lines: seq<MatchedLine>): seq<string> {
    if lines == [] then []
    else
      var before := Kept(lines[..|lines| - 1]);
      var line := lines[|lines| - 1];
      if line.ignored then before else before + [line.filtered]
  }

  ghost function FrameEvents(lines: seq<MatchedLine>): seq<Event> {
    seq(|lines|, i requires 0 <= i < |lines| => Frame(lines[i]))
  }

  /** How many kept frames still enter the crash state. */
  ghost function Room(st: Info, kept: seq<string>): nat {
    if st.frameCount >= 3 then 0
    else if |kept| < 3 - st.frameCount then |kept|
    else 3 - st.frameCount
  }

  /** `after` comes from `st` by recording the `kept` frames. */
  ghost predicate Recorded(st: Info, kept: seq<string>, after: Info) {
    && after.rawFrames == st.rawFrames + kept
    && after.crashState == st.crashState + Terminated(kept[..Room(st, kept)])
    && after.frameCount == st.frameCount + Room(st, kept)
    && after.crashType == st.crashType
    && after.crashAddress == st.crashAddress
  }

  lemma RecordedStep(st: Info, kept: seq<string>, after: Info, line: MatchedLine)
    requires after.Valid() && Recorded(st, kept, after)
    ensures Recorded(st, if line.ignored then kept else kept + [line.filtered], AddFrame(after, line))
  {
    if !line.ignored {
      var kept' := kept + [line.filtered];
      if Room(st, kept') == Room(st, kept) {
        assert kept'[..Room(st, kept')] == kept[..Room(st, kept)];
      } else {
        assert Room(st, kept) == |kept| && Room(st, kept') == |kept| + 1;
        assert kept'[..|kept| + 1] == kept' && kept[..|kept|] == kept;
        AppendTerminated(st.crashState, kept, line.filtered);
      }
    }
  }

  /** Between updates, every kept frame is recorded, and the crash state takes the first of them until it
      has three. */
  lemma {:induction false} CrashStateTakesFirstFrames(st: Info, lines: seq<MatchedLine>)
    requires st.Valid()
    ensures Recorded(st, Kept(lines), Run(st, FrameEvents(lines)))
  {
    if lines == [] {
      assert FrameEvents(lines) == [];
    } else {
      var n := |lines| - 1;
      CrashStateTakesFirstFrames(st, lines[..n]);
      assert FrameEvents(lines)[..n] == FrameEvents(lines[..n]);
      RecordedStep(st, Kept(lines[..n]), Run(st, FrameEvents(lines[..n])), lines[n]);
    }
  }

  /** An update sets each field to the text of its match group, or else to the value given, or else, on a reset,
      to nothing (the crash type is not reset), and leaves the frames alone. */
  lemma UpdateCases(st: Info, c: Changes)
    ensures var st' := Update(st, c);
            && (c.groupType.Some? ==> st'.crashType == c.groupType.value)
            && (c.groupType.None? && c.newType.Some? ==> st'.crashType == c.newType.value)
            && (c.groupType.None? && c.newType.None? ==> st'.crashType == st.crashType)
            && (c.groupAddress.Some? ==> st'.crashAddress == c.groupAddress.value)
            && (c.groupAddress.None? && c.newAddress.Some? ==> st'.crashAddress == c.newAddress.value)
            && (c.groupAddress.None? && c.newAddress.None? ==>
                  st'.crashAddress == if c.reset then "" else st.crashAddress)
            && (c.groupState.Some? ==> st'.crashState == c.groupState.value)
            && (c.groupState.None? && c.newState.Some? ==> st'.crashState == c.newState.value)
            && (c.groupState.None? && c.newState.None? ==> st'.crashState == if c.reset then "" else st.crashState)
            && (c.newFrameCount.Some? ==> st'.frameCount == c.newFrameCount.value)
            && (c.newFrameCount.None? ==> st'.frameCount == if c.reset then 0 else st.frameCount)
            && st'.frames == st.frames && st'.lastFrameId == st.lastFrameId && st'.rawFrames == st.rawFrames
  {
  }

  /** After a reset that sets nothing else the crash state starts afresh: it holds the first three frames kept
      since, whatever it held before, while the raw frames go on. */
  lemma ResetStartsAfresh(st: Info, c: Changes, lines: seq<MatchedLine>)
    requires st.Valid() && c.reset
    requires c.newState.None? && c.groupState.None? && c.newFrameCount.None?
    ensures var after, kept := Run(Update(st, c), FrameEvents(lines)), Kept(lines);
            && after.crashState == Terminated(if |kept| < 3 then kept else kept[..3])
            && after.frameCount == (if |kept| < 3 then |kept| else 3)
            && after.rawFrames == st.rawFrames + kept
  {
    CrashStateTakesFirstFrames(Update(st, c), lines);
    var kept := Kept(lines);
    assert |kept| < 3 ==> kept[..|kept|] == kept;
    var first := if |kept| < 3 then kept else kept[..3];
    assert "" + Terminated(first) == Terminated(first);
  }

  // ---- The object ----

  class CrashInfo {
    var crashType: string
    var crashAddress: string
    var crashState: string
    var frameCount: nat
    var frames: seq<seq<Option<StackFrame>>>
    var lastFrameId: int
    var rawFrames: seq<string>

    ghost function View(): Info
      reads this
    {
      Info(crashType, crashAddress, crashState, frameCount, frames, lastFrameId, rawFrames)
    }

    constructor ()
      ensures View() == INITIAL
      ensures crashType == "" && crashAddress == "" && crashState == "" && frameCount == 0
      ensures frames == [] && lastFrameId == -1 && rawFrames == []
    {
      crashType, crashAddress, crashState, frameCount := "", "", "", 0;
      frames, lastFrameId, rawFrames := [], -1, [];
    }

    /** `add_frame_on_match`; `None` is a line that does not match. */
    method AddFrameOnMatch(line: Option<MatchedLine>) returns (matched: bool)
      requires View().Valid()
      modifies this
      ensures matched == line.Some?
      ensures View() == if line.None? then old(View()) else AddFrame(old(View()), line.value)
    {
      if line.None? {
        return false;
      }
      var MatchedLine(filtered, ignored, spec) := line.value;
      if spec.Some? {
        var newThread := lastFrameId < 0;
        match spec.value.frameId {
          case Some(frameId) =>
            if frameId < lastFrameId {
              newThread := true;
            }
            lastFrameId := frameId;
          case None =>
            lastFrameId := lastFrameId + 1;
        }
        if newThread {
          frames := frames + [[]];
        }
        var last := |frames| - 1;
        frames := frames[last := frames[last] + [spec.value.frame]];
      }
      if ignored {
        return true;
      }
      rawFrames := rawFrames + [filtered];
      if frameCount < MAX_CRASH_STATE_FRAMES {
        crashState := crashState + (filtered + "\n");
        frameCount := frameCount + 1;
      }
      return true;
    }

    /** `update_state_on_match`; `None` is a line that does not match. */
    method UpdateStateOnMatch(changes: Option<Changes>) returns (matched: bool)
      modifies this`crashType, this`crashAddress, this`crashState, this`frameCount
      ensures matched == changes.Some?
      ensures View() == if changes.None? then old(View()) else Update(old(View()), changes.value)
    {
      if changes.None? {
        return false;
      }
      UpdateFromValues(changes.value);
      UpdateFromGroups(changes.value);
      return true;
    }

    method UpdateFromValues(c: Changes)
      modifies this`crashType, this`crashAddress, this`crashState, this`frameCount
      ensures View() == Update(old(View()), c.(groupType := None, groupAddress := None, groupState := None))
    {
      if c.reset {
        crashAddress, crashState, frameCount := "", "", 0;
      }
      if c.newType.Some? {
        crashType := c.newType.value;
      }
      if c.newState.Some? {
        crashState := c.newState.value;
      }
      if c.newFrameCount.Some? {
        frameCount := c.newFrameCount.value;
      }
      if c.newAddress.Some? {
        crashAddress := c.newAddress.value;
      }
    }

    method UpdateFromGroups(c: Changes)
      modifies this`crashType, this`crashAddress, this`crashState
      ensures View() == old(View()).(crashType := Else(c.groupType, None, old(crashType)),
                                     crashAddress := Else(c.groupAddress, None, old(crashAddress)),
                                     crashState := Else(c.groupState, None, old(crashState)))
    {
      if c.groupType.Some? {
        crashType := c.groupType.value;
      }
      if c.groupAddress.Some? {
        crashAddress := c.groupAddress.value;
      }
      if c.groupState.Some? {
        crashState := c.groupState.value;
      }
    }

    /** `update_crash_state_for_stack_overflow_if_needed`. */
    method UpdateCrashStateForStackOverflow()
      modifies this`crashState
      ensures crashType != "Stack-overflow" || (forall c :: !ComesThreeTimes(rawFrames, c)) ==>
                crashState == old(crashState)
      ensures crashType == "Stack-overflow" ==>
                forall p :: IsFirstCycle(rawFrames, p) ==> HoldsFirstFrames(crashState, rawFrames, p)
    {
      if crashType != "Stack-overflow" {
        return;
      }
      var pick := FindCycle(rawFrames);
      PickMeans(rawFrames, pick);
      if pick.Some? {
        StateOfCycle(rawFrames, pick.value);
        crashState := JoinLines(FirstOfBlock(rawFrames, pick.value)) + "\n";
        assert HoldsFirstFrames(crashState, rawFrames, pick.value);
        assert forall p :: IsFirstCycle(rawFrames, p) ==> p == pick.value;
      }
    }
  }

  /** The frames of a cycle that enter the crash state. */
  function FirstOfBlock(frames: seq<string>, c: Cycle): seq<string>
    requires IsCycle(frames, c)
  {
    var block := Block(frames, c, 0);
    if |block| < MAX_CRASH_STATE_FRAMES then block else block[..MAX_CRASH_STATE_FRAMES]
  }

  lemma StateOfCycle(frames: seq<string>, c: Cycle)
    requires IsCycle(frames, c)
    ensures ComesThreeTimes(frames, c)
    ensures HoldsFirstFrames(JoinLines(FirstOfBlock(frames, c)) + "\n", frames, c)
  {
    IsCycleIff(frames, c);
    TerminatedIsJoined(FirstOfBlock(frames, c));
    if c.length < 3 {
      assert FirstOfBlock(frames, c) == frames[c.start..c.start + c.length];
    } else {
      assert FirstOfBlock(frames, c) == frames[c.start..c.start + 3];
    }
  }

  /** The state holds the first three frames of the block, or all if it is shorter, each on its line. */
  ghost predicate HoldsFirstFrames(state: string, frames: seq<string>, c: Cycle)
    requires ComesThreeTimes(frames, c)
  {
    if c.length < 3 then state == Terminated(frames[c.start..c.start + c.length])
    else state == Terminated(frames[c.start..c.start + 3])
  }
}
