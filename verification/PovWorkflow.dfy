/** The vulnerability discovery workflow: a graph of nodes with a context loop and a PoV loop, the step
    limit computed for it by hand, and the directory moves of the node that tests PoVs. */
module PovWorkflow {
  import opened Text

  datatype Config = Config(maxContextIterations: int, maxPovIterations: int)

  datatype Node = GatherContext | Tools | AnalyzeBug | WritePov | ExecutePythonFuncs | TestPovs | End

  datatype State = State(contextIteration: nat, povIteration: nat, validPovCount: nat)

  const INITIAL: State := State(0, 0, 0)

  predicate ContinueContextRetrieval(cfg: Config, st: State) {
    st.contextIteration < cfg.maxContextIterations
  }

  predicate ContinuePovWrite(cfg: Config, st: State) {
    st.validPovCount == 0 && st.povIteration < cfg.maxPovIterations
  }

  /** The state after a node; `found(i)` is the number of crashes that PoV round `i` produces. */
  function RunNode(node: Node, st: State, found: nat -> nat): State {
    match node
    case GatherContext => st.(contextIteration := st.contextIteration + 1)
    case TestPovs =>
      st.(validPovCount := st.validPovCount + found(st.povIteration), povIteration := st.povIteration + 1)
    case _ => st
  }

  /** The edges of the graph. */
  function NextNode(cfg: Config, node: Node, st: State): Node {
    match node
    case GatherContext => Tools
    case Tools => if ContinueContextRetrieval(cfg, st) then GatherContext else AnalyzeBug
    case AnalyzeBug => WritePov
    case WritePov => ExecutePythonFuncs
    case ExecutePythonFuncs => TestPovs
    case TestPovs => if ContinuePovWrite(cfg, st) then AnalyzeBug else End
    case End => End
  }

  function AtLeastOne(n: int): nat {
    if n < 1 then 1 else n
  }

  function InContextLoop(node: Node): nat {
    match node
    case GatherContext => 1
    case Tools => 1
    case _ => 0
  }

  /** How far the current loop still is from its end. */
  function Distance(cfg: Config, node: Node, st: State): nat {
    var pov := 4 * AtLeastOne(cfg.maxPovIterations - st.povIteration);
    match node
    case GatherContext => 2 * AtLeastOne(cfg.maxContextIterations - st.contextIteration) + 1
    case Tools =>
      2 + 2 * (if ContinueContextRetrieval(cfg, st) then cfg.maxContextIterations - st.contextIteration else 0)
    case AnalyzeBug => pov + 3
    case WritePov => pov + 2
    case ExecutePythonFuncs => pov + 1
    case TestPovs => pov
    case End => 0
  }

  /** The nodes executed from a point on, and the final state. Every run ends. */
  function Run(cfg: Config, node: Node, st: State, found: nat -> nat): (seq<Node>, State)
    decreases InContextLoop(node), Distance(cfg, node, st)
  {
    if node == End then ([], st)
    else
      var st' := RunNode(node, st, found);
      var (rest, final) := Run(cfg, NextNode(cfg, node, st'), st', found);
      ([node] + rest, final)
  }

  // ---- The shape of every run ----

  const CONTEXT_ROUND: seq<Node> := [GatherContext, Tools]
  const POV_ROUND: seq<Node> := [AnalyzeBug, WritePov, ExecutePythonFuncs, TestPovs]

  function Repeat(round: seq<Node>, n: nat): seq<Node> {
    if n == 0 then [] else round + Repeat(round, n - 1)
  }

  lemma {:induction false} RepeatLength(round: seq<Node>, n: nat)
    ensures |Repeat(round, n)| == n * |round|
  {
    if n != 0 {
      RepeatLength(round, n - 1);
      assert n * |round| == (n - 1) * |round| + |round|;
    }
  }

  lemma {:induction false} ContextLoop(cfg: Config, st: State, found: nat -> nat)
    requires st.contextIteration == 0 || st.contextIteration < cfg.maxContextIterations
    ensures var rounds := AtLeastOne(cfg.maxContextIterations - st.contextIteration);
            var after := st.(contextIteration := st.contextIteration + rounds);
            Run(cfg, GatherContext, st, found)
            == (Repeat(CONTEXT_ROUND, rounds) + Run(cfg, AnalyzeBug, after, found).0,
                Run(cfg, AnalyzeBug, after, found).1)
    decreases cfg.maxContextIterations - st.contextIteration
  {
    var st' := st.(contextIteration := st.contextIteration + 1);
    var rounds := AtLeastOne(cfg.maxContextIterations - st.contextIteration);
    var (rest, final) := Run(cfg, NextNode(cfg, Tools, st'), st', found);
    assert Run(cfg, Tools, st', found) == ([Tools] + rest, final);
    assert Run(cfg, GatherContext, st, found) == ([GatherContext] + ([Tools] + rest), final);
    assert [GatherContext] + ([Tools] + rest) == CONTEXT_ROUND + rest;
    if ContinueContextRetrieval(cfg, st') {
      ContextLoop(cfg, st', found);
      var after := Run(cfg, AnalyzeBug, st.(contextIteration := st.contextIteration + rounds), found).0;
      assert rest == Repeat(CONTEXT_ROUND, rounds - 1) + after;
      assert CONTEXT_ROUND + (Repeat(CONTEXT_ROUND, rounds - 1) + after) == Repeat(CONTEXT_ROUND, rounds) + after;
    } else {
      assert rounds == 1 && Repeat(CONTEXT_ROUND, 1) == CONTEXT_ROUND + Repeat(CONTEXT_ROUND, 0) == CONTEXT_ROUND;
    }
  }

  /** `rounds` more PoV rounds are run from round `from` on: none but the last finds anything, and the last
      either finds something or is the last allowed. */
  ghost predicate IsPovRounds(cfg: Config, from: nat, rounds: nat, found: nat -> nat) {
    && 1 <= rounds <= AtLeastOne(cfg.maxPovIterations - from)
    && (forall i :: from <= i < from + rounds - 1 ==> found(i) == 0)
    && (found(from + rounds - 1) > 0 || rounds == AtLeastOne(cfg.maxPovIterations - from))
  }

  lemma PovRound(cfg: Config, st: State, found: nat -> nat)
    ensures var st' := RunNode(TestPovs, st, found);
            var (rest, final) := Run(cfg, NextNode(cfg, TestPovs, st'), st', found);
            Run(cfg, AnalyzeBug, st, found) == (POV_ROUND + rest, final)
  {
    var st' := RunNode(TestPovs, st, found);
    var (rest, final) := Run(cfg, NextNode(cfg, TestPovs, st'), st', found);
    assert Run(cfg, TestPovs, st, found) == ([TestPovs] + rest, final);
    assert Run(cfg, ExecutePythonFuncs, st, found) == ([ExecutePythonFuncs] + ([TestPovs] + rest), final);
    assert Run(cfg, WritePov, st, found) == ([WritePov] + ([ExecutePythonFuncs] + ([TestPovs] + rest)), final);
    assert [AnalyzeBug] + ([WritePov] + ([ExecutePythonFuncs] + ([TestPovs] + rest))) == POV_ROUND + rest;
  }

  lemma {:induction false} PovLoop(cfg: Config, st: State, found: nat -> nat) returns (rounds: nat)
    requires st.validPovCount == 0 && (st.povIteration == 0 || st.povIteration < cfg.maxPovIterations)
    ensures IsPovRounds(cfg, st.povIteration, rounds, found)
    ensures Run(cfg, AnalyzeBug, st, found)
         == (Repeat(POV_ROUND, rounds),
             st.(povIteration := st.povIteration + rounds, validPovCount := found(st.povIteration + rounds - 1)))
    decreases cfg.maxPovIterations - st.povIteration
  {
    var st' := RunNode(TestPovs, st, found);
    PovRound(cfg, st, found);
    if ContinuePovWrite(cfg, st') {
      rounds := PovLoop(cfg, st', found);
      rounds := rounds + 1;
      assert Repeat(POV_ROUND, rounds) == POV_ROUND + Repeat(POV_ROUND, rounds - 1);
    } else {
      rounds := 1;
      assert Repeat(POV_ROUND, 1) == POV_ROUND + Repeat(POV_ROUND, 0);
    }
  }

  /** Every run is the context rounds, exactly as many as allowed but at least one, and then PoV rounds up to
      the first that finds a valid PoV or the last allowed, again at least one. */
  lemma EveryRunIsTwoLoops(cfg: Config, found: nat -> nat) returns (rounds: nat)
    ensures IsPovRounds(cfg, 0, rounds, found)
    ensures Run(cfg, GatherContext, INITIAL, found)
         == (Repeat(CONTEXT_ROUND, AtLeastOne(cfg.maxContextIterations)) + Repeat(POV_ROUND, rounds),
             State(AtLeastOne(cfg.maxContextIterations), rounds, found(rounds - 1)))
  {
    ContextLoop(cfg, INITIAL, found);
    rounds := PovLoop(cfg, INITIAL.(contextIteration := AtLeastOne(cfg.maxContextIterations)), found);
  }

  /** The number of PoV rounds is determined by what they find. */
  lemma PovRoundsAreUnique(cfg: Config, from: nat, rounds: nat, other: nat, found: nat -> nat)
    requires IsPovRounds(cfg, from, rounds, found) && IsPovRounds(cfg, from, other, found)
    ensures rounds == other
  {
  }

  // ---- The step limit ----

  function RecursionLimit(cfg: Config): int {
    1 + 2 * cfg.maxContextIterations + 4 * cfg.maxPovIterations
  }

  lemma NodesExecuted(cfg: Config, found: nat -> nat) returns (rounds: nat)
    ensures IsPovRounds(cfg, 0, rounds, found)
    ensures |Run(cfg, GatherContext, INITIAL, found).0| == 2 * AtLeastOne(cfg.maxContextIterations) + 4 * rounds
  {
    rounds := EveryRunIsTwoLoops(cfg, found);
    RepeatLength(CONTEXT_ROUND, AtLeastOne(cfg.maxContextIterations));
    RepeatLength(POV_ROUND, rounds);
  }

  /** The limit leaves one step to spare in every run exactly when both loops are allowed at least once. */
  lemma LimitDominatesIff(cfg: Config)
    ensures (forall found: nat -> nat :: |Run(cfg, GatherContext, INITIAL, found).0| <= RecursionLimit(cfg) - 1)
       <==> cfg.maxContextIterations >= 1 && cfg.maxPovIterations >= 1
  {
    if cfg.maxContextIterations >= 1 && cfg.maxPovIterations >= 1 {
      forall found: nat -> nat
        ensures |Run(cfg, GatherContext, INITIAL, found).0| <= RecursionLimit(cfg) - 1
      {
        var rounds := NodesExecuted(cfg, found);
      }
    } else {
      var none: nat -> nat := i => 0;
      var rounds := NodesExecuted(cfg, none);
      assert !(|Run(cfg, GatherContext, INITIAL, none).0| <= RecursionLimit(cfg) - 1);
    }
  }

  /** A run that finds nothing uses up the limit but for that one step. */
  lemma LimitIsReached(cfg: Config)
    requires cfg.maxContextIterations >= 1 && cfg.maxPovIterations >= 1
    ensures |Run(cfg, GatherContext, INITIAL, i => 0).0| == RecursionLimit(cfg) - 1
    ensures RecursionLimit(cfg) == 1 + |CONTEXT_ROUND| * cfg.maxContextIterations + |POV_ROUND| * cfg.maxPovIterations
  {
    var rounds := NodesExecuted(cfg, i => 0);
  }

  // ---- The files ----

  datatype Pov = Pov(contents: string)

  type Directory = map<string, Pov>

  /** The name under which a PoV of an iteration is kept. */
  function FinalName(iteration: nat, name: string): string {
    "iter" + NatToString(iteration) + "_" + name
  }

  lemma DigitsEndAtUnderscore(d: string, n: string, e: string, m: string)
    requires AllDigits(d) && AllDigits(e) && d + "_" + n == e + "_" + m
    ensures d == e && n == m
  {
    var s := d + "_" + n;
    assert s == e + "_" + m;
    assert s[|d|] == '_' && s[|e|] == '_';
    assert forall i :: 0 <= i < |d| ==> s[i] == d[i];
    assert forall i :: 0 <= i < |e| ==> s[i] == e[i];
    assert d == s[..|d|] && e == s[..|d|];
    assert n == s[|d| + 1..] && m == s[|d| + 1..];
  }

  /** The final name: the number of the iteration, written as `str` does, and the name. */
  lemma FinalNameIs(iteration: nat, name: string)
    ensures FinalName(iteration, name) == "iter" + (IntToString(iteration) + ("_" + name))
  {
    var digits := NatToString(iteration);
    assert "iter" + digits + "_" + name == "iter" + (digits + ("_" + name));
  }

  /** PoVs of different iterations or names are kept under different names. */
  lemma FinalNameIsInjective(i: nat, n: string, j: nat, m: string)
    requires FinalName(i, n) == FinalName(j, m)
    ensures i == j && n == m
  {
    var d, e := NatToString(i), NatToString(j);
    assert d + "_" + n == FinalName(i, n)[4..] && e + "_" + m == FinalName(j, m)[4..];
    DigitsEndAtUnderscore(d, n, e, m);
  }

  /** All PoVs of `current`, and nothing else, were added to `output` under their final names. */
  ghost predicate Moved(current: Directory, output: Directory, iteration: nat, output': Directory) {
    && (forall name :: name in current ==>
          FinalName(iteration, name) in output' && output'[FinalName(iteration, name)] == current[name])
    && (forall final :: final in output' ==>
          || (final in output && output'[final] == output[final])
          || exists name :: name in current && final == FinalName(iteration, name))
    && (forall final :: final in output && (forall name :: name in current ==> final != FinalName(iteration, name)) ==>
          final in output' && output'[final] == output[final])
  }

  /** Total crashes over a listing of names. */
  function TotalCrashes(listing: seq<string>, crashes: string -> nat): nat {
    if listing == [] then 0
    else TotalCrashes(listing[..|listing| - 1], crashes) + crashes(listing[|listing| - 1])
  }

  /** What makes it the total: nothing for no PoV, the crashes of a single one, and adding up over listings. */
  lemma {:induction false} TotalCrashesLaws(listing: seq<string>, more: seq<string>, crashes: string -> nat)
    ensures TotalCrashes([], crashes) == 0
    ensures |listing| == 1 ==> TotalCrashes(listing, crashes) == crashes(listing[0])
    ensures TotalCrashes(listing + more, crashes) == TotalCrashes(listing, crashes) + TotalCrashes(more, crashes)
    decreases |more|
  {
    if |listing| == 1 {
      assert listing[..0] == [];
    }
    if more == [] {
      assert listing + more == listing;
    } else {
      var n := |more| - 1;
      TotalCrashesLaws(listing, more[..n], crashes);
      assert (listing + more)[..|listing + more| - 1] == listing + more[..n];
    }
  }

  /** Some PoV was valid exactly if the total is not zero. */
  lemma {:induction false} SomeCrashIff(listing: seq<string>, crashes: string -> nat)
    ensures TotalCrashes(listing, crashes) > 0 <==> exists name :: name in listing && crashes(name) > 0
  {
    if listing != [] {
      var n := |listing| - 1;
      SomeCrashIff(listing[..n], crashes);
      assert listing == listing[..n] + [listing[n]];
      assert listing[n] in listing;
    }
  }

  lemma TakeOut(listing: seq<string>, name: string, names: set<string>)
    returns (before: seq<string>, after: seq<string>)
    requires IsListing(listing, names) && name in names
    ensures listing == before + ([name] + after) && IsListing(before + after, names - {name})
  {
    var i :| 0 <= i < |listing| && listing[i] == name;
    before, after := listing[..i], listing[i + 1..];
    assert listing == before + ([name] + after);
    NotTwice(listing, i);
    assert forall other :: other in listing <==> other in before || other == name || other in after;
    var rest := before + after;
    assert forall other :: other in rest <==> other in before || other in after;
  }

  lemma NotTwice(listing: seq<string>, i: nat)
    requires i < |listing| && forall j, k :: 0 <= j < k < |listing| ==> listing[j] != listing[k]
    ensures listing[i] !in listing[..i] && listing[i] !in listing[i + 1..]
    ensures var rest := listing[..i] + listing[i + 1..]; forall j, k :: 0 <= j < k < |rest| ==> rest[j] != rest[k]
  {
    var after := listing[i + 1..];
    forall j | 0 <= j < |after|
      ensures after[j] != listing[i]
    {
      assert after[j] == listing[i + 1 + j];
    }
  }

  /** In whatever order the directory is listed, the total is the same. */
  lemma {:induction false} TotalDoesNotDependOnOrder(a: seq<string>, b: seq<string>, names: set<string>,
                                                     crashes: string -> nat)
    requires IsListing(a, names) && IsListing(b, names)
    ensures TotalCrashes(a, crashes) == TotalCrashes(b, crashes)
    decreases |a|
  {
    if a == [] {
      NonEmptyHasMember(b);
    } else {
      var name := a[0];
      var before, after := TakeOut(b, name, names);
      assert a == [name] + a[1..];
      FirstOut(a, names);
      TotalDoesNotDependOnOrder(a[1..], before + after, names - {name}, crashes);
      TotalCrashesLaws([name], a[1..], crashes);
      TotalCrashesLaws(before, [name] + after, crashes);
      TotalCrashesLaws([name], after, crashes);
      TotalCrashesLaws(before, after, crashes);
    }
  }

  lemma NonEmptyHasMember(listing: seq<string>)
    ensures listing != [] ==> exists name :: name in listing
  {
    if listing != [] {
      assert listing[0] in listing;
    }
  }

  lemma FirstOut(a: seq<string>, names: set<string>)
    requires a != [] && IsListing(a, names)
    ensures IsListing(a[1..], names - {a[0]})
  {
    assert a == [a[0]] + a[1..];
  }

  class VulnTask {
    var currentDir: Directory
    var outputDir: Directory

    constructor ()
      ensures currentDir == map[] && outputDir == map[]
    {
      currentDir, outputDir := map[], map[];
    }

    /** The rename of one PoV from the current to the output directory. */
    method Move(iteration: nat, name: string)
      requires name in currentDir
      modifies this
      ensures currentDir == old(currentDir) - {name}
      ensures outputDir == old(outputDir)[FinalName(iteration, name) := old(currentDir)[name]]
    {
      outputDir := outputDir[FinalName(iteration, name) := currentDir[name]];
      currentDir := currentDir - {name};
    }

    /** `_test_povs`: moves every PoV and adds up the crashes; `crashes` is how many builds a PoV crashed
        before an error, if one occurred, cut its reproduction short. */
    method TestPovs(state: State, crashes: string -> nat) returns (state': State, ghost listing: seq<string>)
      modifies this
      ensures currentDir == map[]
      ensures Moved(old(currentDir), old(outputDir), state.povIteration, outputDir)
      ensures IsListing(listing, old(currentDir).Keys)
      ensures state' == RunNode(Node.TestPovs, state, i => TotalCrashes(listing, crashes))
    {
      var newValidPovs := 0;
      listing := [];
      UnderWayAtStart(currentDir, outputDir, state.povIteration);
      while currentDir != map[]
        invariant UnderWay(old(currentDir), old(outputDir), state.povIteration, currentDir, outputDir, listing)
        invariant newValidPovs == TotalCrashes(listing, crashes)
        decreases currentDir.Keys
      {
        var name :| name in currentDir;
        MoveOneMore(old(currentDir), old(outputDir), state.povIteration, currentDir, outputDir, listing, name);
        Move(state.povIteration, name);
        assert (listing + [name])[..|listing|] == listing;
        listing := listing + [name];
        newValidPovs := newValidPovs + crashes(name);
      }
      UnderWayAtEnd(old(currentDir), old(outputDir), state.povIteration, outputDir, listing);
      state' := state.(validPovCount := state.validPovCount + newValidPovs, povIteration := state.povIteration + 1);
    }

    /** One round: the PoVs are made in the current directory, and tested. */
    method RunRound(state: State, povs: Directory, crashes: string -> nat)
      returns (state': State, ghost listing: seq<string>)
      requires currentDir == map[]
      modifies this
      ensures currentDir == map[]
      ensures Moved(povs, old(outputDir), state.povIteration, outputDir)
      ensures IsListing(listing, povs.Keys)
      ensures state' == RunNode(Node.TestPovs, state, i => TotalCrashes(listing, crashes))
    {
      currentDir := povs;
      state', listing := TestPovs(state, crashes);
    }

    /** The PoV loop of the graph, from the state in which the context loop ends: in round `i` the functions
        written make the PoVs `generated(i)`, and `crashes(i, name)` builds crash on a PoV. All PoVs made end up
        in the output directory, and the rounds are those of the graph. */
    method RunPovLoop(cfg: Config, start: State, generated: nat -> Directory, crashes: (nat, string) -> nat)
      returns (end: State, ghost found: seq<nat>)
      requires currentDir == map[] && outputDir == map[] && start.povIteration == 0 && start.validPovCount == 0
      modifies this
      ensures found != [] && RoundsResult(cfg, start, generated, crashes, end, found)
      ensures FilesResult(generated, outputDir, |found|)
    {
      end, found := start, [];
      ghost var outputs := [outputDir];
      var more := true;
      while more
        invariant LoopState(cfg, start, generated, crashes, end, outputs, found)
        invariant outputs[|found|] == outputDir && currentDir == map[]
        invariant if more then found == [] || ContinuePovWrite(cfg, end)
                  else found != [] && !ContinuePovWrite(cfg, end)
        decreases AtLeastOne(cfg.maxPovIterations) - |found|, more
      {
        var i := end.povIteration;
        ghost var before, listing := end, [];
        end, listing := RunRound(end, generated(i), CrashesIn(crashes, i));
        OneRoundMore(cfg, start, generated, crashes, before, outputs, found, end, outputDir, listing);
        outputs, found := outputs + [outputDir], found + [end.validPovCount];
        more := ContinuePovWrite(cfg, end);
      }
      LoopEnds(cfg, start, generated, crashes, end, outputs, found);
    }
  }

  /** The directories that rounds 0 to k - 1 start from. */
  ghost function FirstRounds(generated: nat -> Directory, k: nat): seq<Directory> {
    seq(k, (i: nat) => generated(i))
  }

  function CrashesIn(crashes: (nat, string) -> nat, i: nat): string -> nat {
    name => crashes(i, name)
  }

  /** What a round found: the crashes of its PoVs, in some order. */
  ghost predicate FoundBy(found: nat, povs: Directory, crashes: string -> nat) {
    exists listing :: IsListing(listing, povs.Keys) && found == TotalCrashes(listing, crashes)
  }

  /** What the rounds found, and nothing after them. */
  function FoundIn(found: seq<nat>): nat -> nat {
    (i: nat) => if i < |found| then found[i] else 0
  }

  ghost predicate AllFound(found: seq<nat>, generated: nat -> Directory, crashes: (nat, string) -> nat) {
    forall i :: 0 <= i < |found| ==> FoundBy(found[i], generated(i), CrashesIn(crashes, i))
  }

  lemma FoundOneMore(found: seq<nat>, generated: nat -> Directory, crashes: (nat, string) -> nat, listing: seq<string>)
    requires AllFound(found, generated, crashes) && IsListing(listing, generated(|found|).Keys)
    ensures AllFound(found + [TotalCrashes(listing, CrashesIn(crashes, |found|))], generated, crashes)
  {
    assert FoundBy(TotalCrashes(listing, CrashesIn(crashes, |found|)), generated(|found|), CrashesIn(crashes, |found|));
  }

  ghost predicate NoneBeforeLast(found: seq<nat>) {
    forall i :: 0 <= i < |found| - 1 ==> found[i] == 0
  }

  lemma NoneOneMore(found: seq<nat>, more: nat)
    requires NoneBeforeLast(found) && (found == [] || found[|found| - 1] == 0)
    ensures NoneBeforeLast(found + [more])
  {
  }

  /** After the rounds that found `found`, with the output directories before each and after the last. */
  ghost predicate LoopState(cfg: Config, start: State, generated: nat -> Directory, crashes: (nat, string) -> nat,
                            st: State, outputs: seq<Directory>, found: seq<nat>)
  {
    && Rounds(FirstRounds(generated, |found|), outputs)
    && AllFound(found, generated, crashes)
    && NoneBeforeLast(found)
    && st == State(start.contextIteration, |found|, if found == [] then 0 else found[|found| - 1])
    && |found| <= AtLeastOne(cfg.maxPovIterations)
  }

  lemma OneRoundMore(cfg: Config, start: State, generated: nat -> Directory, crashes: (nat, string) -> nat, st: State,
                     outputs: seq<Directory>, found: seq<nat>, st': State, output: Directory, listing: seq<string>)
    requires LoopState(cfg, start, generated, crashes, st, outputs, found)
    requires found == [] || ContinuePovWrite(cfg, st)
    requires Moved(generated(|found|), outputs[|found|], |found|, output)
    requires IsListing(listing, generated(|found|).Keys)
    requires st' == RunNode(Node.TestPovs, st, i => TotalCrashes(listing, CrashesIn(crashes, |found|)))
    ensures LoopState(cfg, start, generated, crashes, st', outputs + [output], found + [st'.validPovCount])
  {
    RoundsOneMore(generated, |found|, outputs, output);
    FoundOneMore(found, generated, crashes, listing);
    NoneOneMore(found, st'.validPovCount);
  }

  lemma RoundsOneMore(generated: nat -> Directory, k: nat, outputs: seq<Directory>, output: Directory)
    requires Rounds(FirstRounds(generated, k), outputs) && Moved(generated(k), outputs[k], k, output)
    ensures Rounds(FirstRounds(generated, k + 1), outputs + [output])
  {
    forall i | 0 <= i < k + 1
      ensures Moved(FirstRounds(generated, k + 1)[i], (outputs + [output])[i], i, (outputs + [output])[i + 1])
    {
      assert i < k ==> Moved(FirstRounds(generated, k)[i], outputs[i], i, outputs[i + 1]);
    }
  }

  /** The names, each once. */
  ghost predicate IsListing(listing: seq<string>, names: set<string>) {
    && (forall name :: name in listing <==> name in names)
    && (forall i, j :: 0 <= i < j < |listing| ==> listing[i] != listing[j])
  }

  /** Those of `all` that are no longer in `current` are listed and moved. */
  ghost predicate UnderWay(all: Directory, output: Directory, iteration: nat, current: Directory, output': Directory,
                           listing: seq<string>)
  {
    && current.Keys <= all.Keys
    && (forall name :: name in current ==> current[name] == all[name])
    && IsListing(listing, all.Keys - current.Keys)
    && Moved(all - current.Keys, output, iteration, output')
  }

  lemma UnderWayAtStart(all: Directory, output: Directory, iteration: nat)
    ensures UnderWay(all, output, iteration, all, output, [])
  {
  }

  lemma UnderWayAtEnd(all: Directory, output: Directory, iteration: nat, output': Directory, listing: seq<string>)
    requires UnderWay(all, output, iteration, map[], output', listing)
    ensures IsListing(listing, all.Keys) && Moved(all, output, iteration, output')
  {
    var none: Directory := map[];
    assert all - none.Keys == all;
  }

  lemma MoveOneMore(all: Directory, output: Directory, iteration: nat, current: Directory, output': Directory,
                    listing: seq<string>, name: string)
    requires UnderWay(all, output, iteration, current, output', listing) && name in current
    ensures UnderWay(all, output, iteration, current - {name}, output'[FinalName(iteration, name) := current[name]],
                     listing + [name])
  {
    var moved := all - current.Keys;
    MovedOneMore(moved, output, iteration, output', name, current[name]);
    assert all - (current - {name}).Keys == moved[name := current[name]];
    ListOneMore(listing, all.Keys - current.Keys, name);
    assert all.Keys - (current - {name}).Keys == all.Keys - current.Keys + {name};
  }

  lemma ListOneMore(listing: seq<string>, names: set<string>, name: string)
    requires IsListing(listing, names) && name !in names
    ensures IsListing(listing + [name], names + {name})
  {
  }

  lemma MovedOneMore(moved: Directory, output: Directory, iteration: nat, output': Directory, name: string, pov: Pov)
    requires Moved(moved, output, iteration, output') && name !in moved
    ensures Moved(moved[name := pov], output, iteration, output'[FinalName(iteration, name) := pov])
  {
    forall other | other in moved
      ensures FinalName(iteration, other) != FinalName(iteration, name)
    {
      if FinalName(iteration, other) == FinalName(iteration, name) {
        FinalNameIsInjective(iteration, other, iteration, name);
      }
    }
  }

  /** Round `i` generates the PoVs `generated[i]` and moves them; `outputs` are the output directories before
      each round and after the last. */
  ghost predicate Rounds(generated: seq<Directory>, outputs: seq<Directory>) {
    && |outputs| == |generated| + 1
    && outputs[0] == map[]
    && forall i :: 0 <= i < |generated| ==> Moved(generated[i], outputs[i], i, outputs[i + 1])
  }

  lemma {:induction false} OutputNamesBelongToRounds(generated: seq<Directory>, outputs: seq<Directory>, k: nat,
                                                     final: string)
    requires Rounds(generated, outputs) && k <= |generated| && final in outputs[k]
    ensures exists i, name :: 0 <= i < k && name in generated[i] && final == FinalName(i, name)
    decreases k
  {
    assert k > 0 ==> Moved(generated[k - 1], outputs[k - 1], k - 1, outputs[k - 1 + 1]);
    if final in outputs[k - 1] {
      OutputNamesBelongToRounds(generated, outputs, k - 1, final);
    }
  }

  /** No round overwrites what an earlier one kept: after any number of rounds every PoV that was ever
      generated is in the output directory, unchanged, and nothing else is. */
  lemma {:induction false} EveryPovIsKept(generated: seq<Directory>, outputs: seq<Directory>, k: nat, i: nat,
                                          name: string)
    requires Rounds(generated, outputs) && i < k <= |generated| && name in generated[i]
    ensures FinalName(i, name) in outputs[k] && outputs[k][FinalName(i, name)] == generated[i][name]
    decreases k
  {
    var last := k - 1;
    assert Moved(generated[last], outputs[last], last, outputs[last + 1]);
    if i < last {
      EveryPovIsKept(generated, outputs, last, i, name);
      forall other | other in generated[last]
        ensures FinalName(i, name) != FinalName(last, other)
      {
        if FinalName(i, name) == FinalName(last, other) {
          FinalNameIsInjective(i, name, last, other);
        }
      }
    }
  }

  /** Some PoV made in the round crashes a build. */
  ghost predicate SomeCrash(generated: nat -> Directory, crashes: (nat, string) -> nat, i: nat) {
    exists name :: name in generated(i) && crashes(i, name) > 0
  }

  /** The rounds are those of the graph: none before the last makes a PoV that crashes a build, and the last does
      so, or is the last allowed. */
  ghost predicate RoundsResult(cfg: Config, start: State, generated: nat -> Directory, crashes: (nat, string) -> nat,
                               end: State, found: seq<nat>)
    requires found != []
  {
    && IsPovRounds(cfg, 0, |found|, FoundIn(found))
    && AllFound(found, generated, crashes)
    && end == State(start.contextIteration, |found|, found[|found| - 1])
    && (forall i, name :: 0 <= i < |found| - 1 && name in generated(i) ==> crashes(i, name) == 0)
    && (end.validPovCount > 0 <==> SomeCrash(generated, crashes, |found| - 1))
    && (end.validPovCount > 0 || |found| == if cfg.maxPovIterations < 1 then 1 else cfg.maxPovIterations)
  }

  /** Every PoV made in the first `k` rounds is kept under its final name, and nothing else is. */
  ghost predicate FilesResult(generated: nat -> Directory, output: Directory, k: nat) {
    && (forall i, name :: 0 <= i < k && name in generated(i) ==>
          FinalName(i, name) in output && output[FinalName(i, name)] == generated(i)[name])
    && (forall final :: final in output ==>
          exists i, name :: 0 <= i < k && name in generated(i) && final == FinalName(i, name))
  }

  lemma LoopEnds(cfg: Config, start: State, generated: nat -> Directory, crashes: (nat, string) -> nat,
                 st: State, outputs: seq<Directory>, found: seq<nat>)
    requires LoopState(cfg, start, generated, crashes, st, outputs, found)
    requires found != [] && !ContinuePovWrite(cfg, st)
    ensures RoundsResult(cfg, start, generated, crashes, st, found)
    ensures FilesResult(generated, outputs[|found|], |found|)
  {
    LoopKeepsEveryPov(cfg, start, generated, crashes, st, outputs, found);
    LoopStopsAtCrash(cfg, start, generated, crashes, st, outputs, found);
    RoundsAreAllowed(cfg, st, found);
  }

  lemma RoundsAreAllowed(cfg: Config, st: State, found: seq<nat>)
    requires found != [] && |found| <= AtLeastOne(cfg.maxPovIterations) && !ContinuePovWrite(cfg, st)
    requires st.povIteration == |found| && st.validPovCount == found[|found| - 1]
    requires forall i :: 0 <= i < |found| - 1 ==> found[i] == 0
    ensures IsPovRounds(cfg, 0, |found|, FoundIn(found))
  {
  }

  lemma FoundSomeIff(found: nat, povs: Directory, crashes: string -> nat)
    requires FoundBy(found, povs, crashes)
    ensures found > 0 <==> exists name :: name in povs && crashes(name) > 0
  {
    var listing :| IsListing(listing, povs.Keys) && found == TotalCrashes(listing, crashes);
    SomeCrashIff(listing, crashes);
  }

  lemma RoundFoundSomeIff(generated: nat -> Directory, crashes: (nat, string) -> nat, found: nat, i: nat)
    requires FoundBy(found, generated(i), CrashesIn(crashes, i))
    ensures found > 0 <==> SomeCrash(generated, crashes, i)
  {
    FoundSomeIff(found, generated(i), CrashesIn(crashes, i));
  }

  lemma LoopStopsAtCrash(cfg: Config, start: State, generated: nat -> Directory, crashes: (nat, string) -> nat,
                         st: State, outputs: seq<Directory>, found: seq<nat>)
    requires LoopState(cfg, start, generated, crashes, st, outputs, found) && found != []
    ensures forall i, name :: 0 <= i < |found| - 1 && name in generated(i) ==> crashes(i, name) == 0
    ensures st.validPovCount > 0 <==> SomeCrash(generated, crashes, |found| - 1)
  {
    forall i | 0 <= i < |found|
      ensures found[i] > 0 <==> SomeCrash(generated, crashes, i)
    {
      RoundFoundSomeIff(generated, crashes, found[i], i);
    }
  }

  lemma LoopKeepsEveryPov(cfg: Config, start: State, generated: nat -> Directory, crashes: (nat, string) -> nat,
                          st: State, outputs: seq<Directory>, found: seq<nat>)
    requires LoopState(cfg, start, generated, crashes, st, outputs, found)
    ensures forall i, name :: 0 <= i < |found| && name in generated(i) ==>
              && FinalName(i, name) in outputs[|found|]
              && outputs[|found|][FinalName(i, name)] == generated(i)[name]
    ensures forall final :: final in outputs[|found|] ==>
              exists i, name :: 0 <= i < |found| && name in generated(i) && final == FinalName(i, name)
  {
    var k, all := |found|, FirstRounds(generated, |found|);
    forall i, name | 0 <= i < k && name in generated(i)
      ensures FinalName(i, name) in outputs[k] && outputs[k][FinalName(i, name)] == generated(i)[name]
    {
      EveryPovIsKept(all, outputs, k, i, name);
    }
    forall final | final in outputs[k]
      ensures exists i, name :: 0 <= i < k && name in generated(i) && final == FinalName(i, name)
    {
      OutputNamesBelongToRounds(all, outputs, k, final);
      var i, name :| 0 <= i < k && name in all[i] && final == FinalName(i, name);
      assert name in generated(i);
    }
  }
}
