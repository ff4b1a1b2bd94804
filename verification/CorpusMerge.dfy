/** The distributed corpus merge. A corpus is the set of its files' content hashes; the coverage of a file
    is an arbitrary function of its hash. The fuzzing engine's merge is taken at its word: the target keeps
    its files, gains files of the source only, and ends with the coverage of both. */
module CorpusMerge {
  import opened Outcomes
  import opened Numbers

  type File = string
  type Edge = nat
  type Node = nat

  // ---- Coverage ----

  ghost function Coverage(files: set<File>, cov: File -> set<Edge>): set<Edge> {
    set f, e | f in files && e in cov(f) :: e
  }

  lemma CoverageOfUnion(a: set<File>, b: set<File>, cov: File -> set<Edge>)
    ensures Coverage(a + b, cov) == Coverage(a, cov) + Coverage(b, cov)
  {
  }

  lemma CoverageGrows(a: set<File>, b: set<File>, cov: File -> set<Edge>)
    requires a <= b
    ensures Coverage(a, cov) <= Coverage(b, cov)
  {
  }

  ghost predicate EngineMerge(target: set<File>, source: set<File>, out: set<File>, cov: File -> set<Edge>) {
    target <= out <= target + source && Coverage(out, cov) == Coverage(target + source, cov)
  }

  // ---- Many nodes, one merge pass each, cut into steps ----

  datatype Phase =
    | Idle
    | Partitioned(remoteFiles: set<File>, selected: set<File>)
    | Pushing(remoteFiles: set<File>, push: set<File>, delete: set<File>)
    | Deleting(remoteFiles: set<File>, push: set<File>, delete: set<File>)

  datatype World = World(remote: set<File>, local: map<Node, set<File>>, phase: map<Node, Phase>)

  function Local(w: World, n: Node): set<File> {
    if n in w.local then w.local[n] else {}
  }

  function PhaseOf(w: World, n: Node): Phase {
    if n in w.phase then w.phase[n] else Idle
  }

  /** `Arrive` is new inputs from the fuzzer, `RemoteArrive` files that another component, such as the seed
      generator, copies to the remote corpus. A push may stop short at any file, because the exit status of
      the copy is not looked at; `Stop` is the end of a pass or a crash at any point in it. */
  datatype Step =
    | Arrive(n: Node, files: set<File>)
    | RemoteArrive(n: Node, files: set<File>)
    | Sync(n: Node, files: set<File>)
    | Partition(n: Node, selected: set<File>)
    | Merge(n: Node, out: set<File>)
    | Push(n: Node, files: set<File>)
    | PushDone(n: Node)
    | Delete(n: Node, files: set<File>)
    | Stop(n: Node)

  ghost function Next(w: World, step: Step, cov: File -> set<Edge>): World {
    var phase := PhaseOf(w, step.n);
    var local := Local(w, step.n);
    match step
    case Arrive(n, files) => w.(local := w.local[n := local + files])
    case RemoteArrive(_, files) => w.(remote := w.remote + files)
    case Sync(n, files) => w.(local := w.local[n := local + files * w.remote])
    case Partition(n, selected) =>
      if phase.Idle? && selected <= local - w.remote then
        w.(phase := w.phase[n := Partitioned(w.remote, selected)])
      else w
    case Merge(n, out) =>
      if phase.Partitioned? && EngineMerge(phase.remoteFiles, phase.selected, out, cov) then
        w.(phase := w.phase[n := Pushing(phase.remoteFiles, phase.selected * out, phase.selected - out)])
      else w
    case Push(n, files) =>
      if phase.Pushing? then w.(remote := w.remote + files * phase.push) else w
    case PushDone(n) =>
      if phase.Pushing? then w.(phase := w.phase[n := Deleting(phase.remoteFiles, phase.push, phase.delete)]) else w
    case Delete(n, files) =>
      if phase.Deleting? then w.(local := w.local[n := local - files * phase.delete]) else w
    case Stop(n) => w.(phase := w.phase[n := Idle])
  }

  ghost function Run(w: World, steps: seq<Step>, cov: File -> set<Edge>): World {
    if steps == [] then w
    else Next(Run(w, steps[..|steps| - 1], cov), steps[|steps| - 1], cov)
  }

  ghost function AllFiles(w: World): set<File> {
    w.remote + set n, f | n in w.local && f in w.local[n] :: f
  }

  ghost function TotalCoverage(w: World, cov: File -> set<Edge>): set<Edge> {
    Coverage(AllFiles(w), cov)
  }

  ghost predicate PhaseOk(w: World, n: Node, cov: File -> set<Edge>) {
    match PhaseOf(w, n)
    case Idle => true
    case Partitioned(remoteFiles, selected) => remoteFiles <= w.remote && selected <= Local(w, n)
    case Pushing(remoteFiles, push, delete) => Sound(w, n, remoteFiles, push, delete, cov)
    case Deleting(remoteFiles, push, delete) => Sound(w, n, remoteFiles, push, delete, cov)
  }

  /** What the files to delete cover is covered by files that stay: those seen in the remote corpus, and
      those to push, which the node keeps. */
  ghost predicate Sound(w: World, n: Node, remoteFiles: set<File>, push: set<File>, delete: set<File>,
                        cov: File -> set<Edge>)
  {
    && remoteFiles <= w.remote
    && push <= Local(w, n)
    && push !! delete
    && Coverage(delete, cov) <= Coverage(remoteFiles + push, cov)
  }

  ghost predicate Invariant(w: World, cov: File -> set<Edge>) {
    forall n :: PhaseOk(w, n, cov)
  }

  lemma MergeIsSound(target: set<File>, source: set<File>, out: set<File>, cov: File -> set<Edge>)
    requires EngineMerge(target, source, out, cov)
    ensures Coverage(source - out, cov) <= Coverage(target + source * out, cov)
  {
    assert out == target + source * out;
    CoverageGrows(source - out, target + source, cov);
  }

  lemma NextKeepsInvariant(w: World, step: Step, cov: File -> set<Edge>)
    requires Invariant(w, cov)
    ensures Invariant(Next(w, step, cov), cov)
  {
    var w' := Next(w, step, cov);
    forall n
      ensures PhaseOk(w', n, cov)
    {
      assert PhaseOk(w, n, cov);
      if step.Merge? && step.n == n && PhaseOf(w, n).Partitioned? && w' != w {
        MergeIsSound(PhaseOf(w, n).remoteFiles, PhaseOf(w, n).selected, step.out, cov);
      }
    }
  }

  lemma LocalInAll(w: World, n: Node)
    ensures Local(w, n) <= AllFiles(w)
  {
  }

  lemma AllFilesGrow(w: World, w': World, removed: set<File>)
    requires w.remote <= w'.remote
    requires forall n :: n in w.local ==> w.local[n] <= Local(w', n) + removed
    ensures AllFiles(w) <= AllFiles(w') + removed
  {
    forall f | f in AllFiles(w)
      ensures f in AllFiles(w') + removed
    {
      if f !in w.remote {
        var n :| n in w.local && f in w.local[n];
        LocalInAll(w', n);
      }
    }
  }

  /** One step of any node never shrinks the combined coverage, and the remote corpus only grows. */
  lemma NextKeepsCoverage(w: World, step: Step, cov: File -> set<Edge>)
    requires Invariant(w, cov)
    ensures TotalCoverage(w, cov) <= TotalCoverage(Next(w, step, cov), cov)
    ensures w.remote <= Next(w, step, cov).remote
  {
    var w', n := Next(w, step, cov), step.n;
    if step.Delete? && w' != w {
      var Deleting(remoteFiles, push, delete) := PhaseOf(w, n);
      assert PhaseOk(w, n, cov);
      var gone := step.files * delete;
      CoverageGrows(gone, delete, cov);
      assert push <= Local(w', n);
      LocalInAll(w', n);
      CoverageGrows(remoteFiles + push, AllFiles(w'), cov);
      AllFilesGrow(w, w', gone);
      CoverageGrows(AllFiles(w), AllFiles(w') + gone, cov);
      CoverageOfUnion(AllFiles(w'), gone, cov);
    } else {
      AllFilesGrow(w, w', {});
      CoverageGrows(AllFiles(w), AllFiles(w'), cov);
    }
  }

  /** In every run of any number of nodes, at every step, with crashes anywhere and pushes that fail. */
  lemma {:induction false} CoverageNeverShrinks(w: World, steps: seq<Step>, cov: File -> set<Edge>)
    requires forall n :: PhaseOf(w, n).Idle?
    ensures Invariant(Run(w, steps, cov), cov)
    ensures forall i :: 0 <= i <= |steps| ==>
              && TotalCoverage(Run(w, steps[..i], cov), cov) <= TotalCoverage(Run(w, steps, cov), cov)
              && Run(w, steps[..i], cov).remote <= Run(w, steps, cov).remote
  {
    if steps == [] {
      assert steps[..0] == steps;
    } else {
      var before := steps[..|steps| - 1];
      CoverageNeverShrinks(w, before, cov);
      NextKeepsInvariant(Run(w, before, cov), steps[|steps| - 1], cov);
      NextKeepsCoverage(Run(w, before, cov), steps[|steps| - 1], cov);
      forall i | 0 <= i <= |steps|
        ensures TotalCoverage(Run(w, steps[..i], cov), cov) <= TotalCoverage(Run(w, steps, cov), cov)
        ensures Run(w, steps[..i], cov).remote <= Run(w, steps, cov).remote
      {
        if i < |steps| {
          assert steps[..i] == before[..i];
        } else {
          assert steps[..i] == steps;
        }
      }
    }
  }

  /** Why the push comes first: when it has gone through, the remote corpus alone covers all that the pass
      selected, so from then on the node's own disk holds nothing of it that matters. */
  lemma PushedPassIsCoveredRemotely(w: World, n: Node, cov: File -> set<Edge>)
    requires Invariant(w, cov)
    requires PhaseOf(w, n).Deleting? && PhaseOf(w, n).push <= w.remote
    ensures Coverage(PhaseOf(w, n).push + PhaseOf(w, n).delete, cov) <= Coverage(w.remote, cov)
  {
    var Deleting(remoteFiles, push, delete) := PhaseOf(w, n);
    assert PhaseOk(w, n, cov);
    CoverageOfUnion(push, delete, cov);
    CoverageGrows(remoteFiles + push, w.remote, cov);
    CoverageGrows(push, w.remote, cov);
  }

  // ---- Repeated passes of one node ----

  datatype Corpora = Corpora(local: set<File>, remote: set<File>)

  /** The files a pass still has to look at. */
  function Backlog(s: Corpora): set<File> {
    s.local - s.remote
  }

  /** At least one file is selected whatever the limit, because the limit is checked after adding. */
  function PassLimit(maxLocalFiles: int): nat {
    if maxLocalFiles < 1 then 1 else maxLocalFiles
  }

  /** A pass without failures and without new inputs: the selected part of the backlog is cut into pushed
      and deleted files. */
  ghost predicate CleanPass(s: Corpora, s': Corpora, maxLocalFiles: int, pushed: set<File>, deleted: set<File>) {
    && pushed !! deleted
    && pushed + deleted <= Backlog(s)
    && |pushed + deleted| == Min(|Backlog(s)|, PassLimit(maxLocalFiles))
    && s'.remote == s.remote + pushed
    && s.local - deleted <= s'.local <= (s.local + s.remote) - deleted
  }

  lemma PassShrinksBacklog(s: Corpora, s': Corpora, maxLocalFiles: int, pushed: set<File>, deleted: set<File>)
    requires CleanPass(s, s', maxLocalFiles, pushed, deleted)
    ensures Backlog(s') == Backlog(s) - (pushed + deleted)
    ensures |Backlog(s')| == |Backlog(s)| - Min(|Backlog(s)|, PassLimit(maxLocalFiles))
  {
    assert Backlog(s) == Backlog(s') + (pushed + deleted);
  }

  ghost predicate IsCleanPass(s: Corpora, s': Corpora, maxLocalFiles: int) {
    exists pushed, deleted :: CleanPass(s, s', maxLocalFiles, pushed, deleted)
  }

  /** The corpora before and after each of a number of passes. */
  ghost predicate CleanPasses(states: seq<Corpora>, maxLocalFiles: int) {
    states != [] && (|states| > 1 ==>
      && IsCleanPass(states[|states| - 2], states[|states| - 1], maxLocalFiles)
      && CleanPasses(states[..|states| - 1], maxLocalFiles))
  }

  /** After k passes over a backlog of n files, n - k * limit are left, or none. */
  lemma {:induction false} PassesDrainBacklog(states: seq<Corpora>, maxLocalFiles: int)
    requires CleanPasses(states, maxLocalFiles)
    ensures var n, k := |Backlog(states[0])|, |states| - 1;
            |Backlog(states[k])| == n - Min(n, k * PassLimit(maxLocalFiles))
    decreases |states|
  {
    var k := |states| - 1;
    if k > 0 {
      PassesDrainBacklog(states[..k], maxLocalFiles);
      var pushed, deleted :| CleanPass(states[k - 1], states[k], maxLocalFiles, pushed, deleted);
      PassShrinksBacklog(states[k - 1], states[k], maxLocalFiles, pushed, deleted);
      MinusMin(|Backlog(states[0])|, k - 1, PassLimit(maxLocalFiles));
    }
  }

  /** The backlog is empty exactly from pass ceil(n / limit) on. */
  lemma BacklogIsEmptyIff(states: seq<Corpora>, maxLocalFiles: int)
    requires CleanPasses(states, maxLocalFiles)
    ensures Backlog(states[|states| - 1]) == {}
       <==> CeilDiv(|Backlog(states[0])|, PassLimit(maxLocalFiles)) <= |states| - 1
  {
    PassesDrainBacklog(states, maxLocalFiles);
    CeilDivIsLeast(|Backlog(states[0])|, PassLimit(maxLocalFiles), |states| - 1);
  }

  // ---- The objects of one pass ----

  class RemoteStorage {
    var files: set<File>

    constructor ()
      ensures files == {}
    {
      files := {};
    }
  }

  class Corpus {
    const remote: RemoteStorage
    var local: set<File>

    constructor (remote: RemoteStorage)
      ensures this.remote == remote && local == {}
    {
      this.remote := remote;
      local := {};
    }
  }

  /** Some order of the files. */
  method Shuffled(files: set<File>) returns (order: seq<File>)
    ensures forall i, j :: 0 <= i < j < |order| ==> order[i] != order[j]
    ensures forall f :: f in order <==> f in files
  {
    order := [];
    var rest := files;
    while rest != {}
      invariant rest <= files
      invariant forall i, j :: 0 <= i < j < |order| ==> order[i] != order[j]
      invariant forall f :: f in order <==> f in files - rest
      decreases rest
    {
      var f :| f in rest;
      assert f !in order;
      order := order + [f];
      rest := rest - {f};
    }
  }

  /** `PartitionedCorpus.__post_init__`: copies files in shuffled order until the limit is reached, leaving
      out those that cannot be copied. */
  method SelectLocalFiles(localOnly: set<File>, copyFails: set<File>, maxLocalFiles: int)
    returns (selected: set<File>)
    ensures selected <= localOnly - copyFails
    ensures |selected| == Min(|localOnly - copyFails|, PassLimit(maxLocalFiles))
  {
    var order := Shuffled(localOnly);
    selected := {};
    for i := 0 to |order|
      invariant forall f :: f in selected <==> f in order[..i] && f !in copyFails
      invariant |selected| < PassLimit(maxLocalFiles)
    {
      var file := order[i];
      assert file in order && file !in order[..i];
      assert order[..i + 1] == order[..i] + [file];
      if file !in copyFails {
        selected := selected + {file};
        if |selected| >= maxLocalFiles {
          assert forall f :: f in selected ==> f in order;
          SubsetCount(selected, localOnly - copyFails);
          return;
        }
      }
    }
    assert order[..|order|] == order;
    assert selected == localOnly - copyFails;
  }

  lemma SubsetCount(a: set<File>, b: set<File>)
    requires a <= b
    ensures |a| <= |b|
  {
    assert b == a + (b - a);
  }

  datatype MergeError = CopyFailed | MergeFailed | RemoteFilesLost | UnexpectedFiles

  /** What the surroundings do during one pass: whether the lock is free, which remote files the sync brings,
      which copies and deletions fail, whether a remote file cannot be copied from anywhere, whether the
      engine raises, what it leaves in the target, and which pushed files arrive. */
  datatype Surroundings = Surroundings(
    lockFree: bool,
    synced: set<File>,
    copyFails: set<File>,
    remoteCopyFails: bool,
    engineFails: bool,
    engine: (set<File>, set<File>) -> set<File>,
    arrived: set<File>,
    deleteFails: set<File>)

  class FinalCorpus {
    const corpus: Corpus
    var push: set<File>
    var delete: set<File>

    constructor (corpus: Corpus, push: set<File>, delete: set<File>)
      ensures this.corpus == corpus && this.push == push && this.delete == delete
    {
      this.corpus, this.push, this.delete := corpus, push, delete;
    }

    /** The count is of the files sent, arrived or not. */
    method PushRemotely(arrived: set<File>) returns (n: nat)
      modifies this`push, corpus.remote
      ensures n == |old(push)| && push == {}
      ensures corpus.remote.files == old(corpus.remote.files) + old(push) * arrived
    {
      n := 0;
      if push != {} {
        n := |push|;
        corpus.remote.files := corpus.remote.files + push * arrived;
        push := {};
      }
    }

    /** The count is of the files tried: removing a file swallows its own error. */
    method DeleteLocally(deleteFails: set<File>) returns (n: nat)
      modifies this`delete, corpus`local
      ensures n == |old(delete)| && delete == {}
      ensures corpus.local == old(corpus.local) - (old(delete) - deleteFails)
    {
      n := 0;
      var rest := delete;
      while rest != {}
        invariant rest <= delete && delete == old(delete)
        invariant n + |rest| == |delete|
        invariant corpus.local == old(corpus.local) - ((delete - rest) - deleteFails)
        decreases rest
      {
        var file :| file in rest;
        if file !in deleteFails {
          corpus.local := corpus.local - {file};
        }
        rest := rest - {file};
        n := n + 1;
      }
      delete := {};
    }
  }

  /** `to_final`: the two assertions on what the engine left, then the cut into pushed and deleted files. */
  function ToFinal(remoteFiles: set<File>, selected: set<File>, out: set<File>)
    : Result<(set<File>, set<File>), MergeError>
  {
    if !(remoteFiles <= out) then Err(RemoteFilesLost)
    else if !(out <= remoteFiles + selected) then Err(UnexpectedFiles)
    else Ok((selected * out, selected - out))
  }

  /** The cut fails exactly when the engine broke its word about files, and otherwise splits the selection:
      the pushed part is what the engine added to the remote files. */
  lemma ToFinalSplitsSelection(remoteFiles: set<File>, selected: set<File>, out: set<File>)
    requires selected !! remoteFiles
    ensures ToFinal(remoteFiles, selected, out).Ok? <==> remoteFiles <= out <= remoteFiles + selected
    ensures ToFinal(remoteFiles, selected, out).Ok? ==>
              var (push, delete) := ToFinal(remoteFiles, selected, out).value;
              push !! delete && push + delete == selected && push == out - remoteFiles
  {
  }

  class MergerBot {
    const maxLocalFiles: int

    constructor (maxLocalFiles: int)
      ensures this.maxLocalFiles == maxLocalFiles
    {
      this.maxLocalFiles := maxLocalFiles;
    }

    /** `run_task`. The selection is made after the sync; `worked` is the returned flag. */
    method RunTask(corpus: Corpus, env: Surroundings)
      returns (worked: Result<bool, MergeError>, ghost selected: set<File>)
      modifies corpus`local, corpus.remote
      ensures !env.lockFree ==>
                && worked == Ok(false)
                && corpus.local == old(corpus.local) && corpus.remote.files == old(corpus.remote.files)
      ensures env.lockFree ==>
                && selected <= (old(corpus.local) - old(corpus.remote.files)) - env.copyFails
                && |selected| == Min(|(old(corpus.local) - old(corpus.remote.files)) - env.copyFails|,
                                     PassLimit(maxLocalFiles))
                && Outcome(Corpora(old(corpus.local), old(corpus.remote.files)),
                           Corpora(corpus.local, corpus.remote.files), env, selected, worked)
    {
      selected := {};
      if !env.lockFree {
        return Ok(false), {};
      }
      ghost var s := Corpora(corpus.local, corpus.remote.files);
      corpus.local := corpus.local + env.synced * corpus.remote.files;
      var remoteFiles := corpus.remote.files;
      var localOnly := corpus.local - remoteFiles;
      assert localOnly == Backlog(s);
      var chosen := SelectLocalFiles(localOnly, env.copyFails, maxLocalFiles);
      selected := chosen;
      if env.remoteCopyFails {
        return Err(CopyFailed), selected;
      }
      if chosen == {} {
        return Ok(false), selected;
      }
      if env.engineFails {
        return Err(MergeFailed), selected;
      }
      var cut := ToFinal(remoteFiles, chosen, env.engine(remoteFiles, chosen));
      if cut.Err? {
        return Err(cut.error), selected;
      }
      var (push, delete) := cut.value;
      var final := new FinalCorpus(corpus, push, delete);
      var pushCount := final.PushRemotely(env.arrived);
      var removeCount := final.DeleteLocally(env.deleteFails);
      return Ok(true), selected;
    }

    /** Passes over one corpus, one after the other, in which nothing fails and no inputs arrive. */
    method RunTasks(corpus: Corpus, envs: seq<Surroundings>)
      requires forall env :: env in envs ==> Smooth(env, corpus.local - corpus.remote.files)
      modifies corpus`local, corpus.remote
      ensures var n, limit := |old(corpus.local) - old(corpus.remote.files)|, PassLimit(maxLocalFiles);
              && |corpus.local - corpus.remote.files| == n - Min(n, |envs| * limit)
              && (corpus.local - corpus.remote.files == {} <==> CeilDiv(n, limit) <= |envs|)
    {
      ghost var first := Corpora(corpus.local, corpus.remote.files);
      ghost var states := [first];
      for i := 0 to |envs|
        invariant |states| == i + 1
        invariant CleanlyReached(states, first, Corpora(corpus.local, corpus.remote.files), maxLocalFiles)
      {
        assert envs[i] in envs;
        ghost var before := Corpora(corpus.local, corpus.remote.files);
        var worked, selected := RunTask(corpus, envs[i]);
        ghost var after := Corpora(corpus.local, corpus.remote.files);
        SmoothTask(states, first, before, after, envs[i], selected, worked, maxLocalFiles);
        states := states + [after];
      }
      PassesDrainBacklog(states, maxLocalFiles);
      BacklogIsEmptyIff(states, maxLocalFiles);
    }
  }

  /** Nothing fails in the pass, all of `files` arrive if they are pushed, and the engine keeps its word. */
  ghost predicate Smooth(env: Surroundings, files: set<File>) {
    && env.lockFree && !env.remoteCopyFails && !env.engineFails
    && env.copyFails == {} && env.deleteFails == {}
    && files <= env.arrived
    && forall target, source :: target <= env.engine(target, source) <= target + source
  }

  lemma SmoothTaskIsCleanPass(s: Corpora, s': Corpora, env: Surroundings, selected: set<File>,
                              worked: Result<bool, MergeError>, maxLocalFiles: int)
    requires Smooth(env, Backlog(s))
    requires selected <= Backlog(s) - env.copyFails
    requires |selected| == Min(|Backlog(s) - env.copyFails|, PassLimit(maxLocalFiles))
    requires Outcome(s, s', env, selected, worked)
    ensures IsCleanPass(s, s', maxLocalFiles)
    ensures Backlog(s') <= Backlog(s)
  {
    assert Backlog(s) - env.copyFails == Backlog(s);
    if selected != {} {
      ToFinalSplitsSelection(s.remote, selected, env.engine(s.remote, selected));
    }
    SmoothOutcomeIsCleanPass(s, s', env, selected, worked, maxLocalFiles);
  }

  /** Clean passes lead from the first corpora to the last, which have no more left to do. */
  ghost predicate CleanlyReached(states: seq<Corpora>, first: Corpora, last: Corpora, maxLocalFiles: int) {
    && CleanPasses(states, maxLocalFiles)
    && states[0] == first
    && states[|states| - 1] == last
    && Backlog(last) <= Backlog(first)
  }

  lemma SmoothForLess(env: Surroundings, files: set<File>, less: set<File>)
    requires Smooth(env, files) && less <= files
    ensures Smooth(env, less)
  {
  }

  lemma OnePassMore(states: seq<Corpora>, first: Corpora, s: Corpora, s': Corpora, maxLocalFiles: int)
    requires CleanlyReached(states, first, s, maxLocalFiles)
    requires IsCleanPass(s, s', maxLocalFiles) && Backlog(s') <= Backlog(s)
    ensures CleanlyReached(states + [s'], first, s', maxLocalFiles)
  {
    assert (states + [s'])[..|states|] == states;
  }

  lemma SmoothTask(states: seq<Corpora>, first: Corpora, s: Corpora, s': Corpora, env: Surroundings,
                   selected: set<File>, worked: Result<bool, MergeError>, maxLocalFiles: int)
    requires CleanlyReached(states, first, s, maxLocalFiles) && Smooth(env, Backlog(first))
    requires selected <= Backlog(s) - env.copyFails
    requires |selected| == Min(|Backlog(s) - env.copyFails|, PassLimit(maxLocalFiles))
    requires Outcome(s, s', env, selected, worked)
    ensures CleanlyReached(states + [s'], first, s', maxLocalFiles)
  {
    SmoothForLess(env, Backlog(first), Backlog(s));
    SmoothTaskIsCleanPass(s, s', env, selected, worked, maxLocalFiles);
    OnePassMore(states, first, s, s', maxLocalFiles);
  }

  /** How a pass leaves the corpora, from what was selected. */
  ghost predicate Outcome(s: Corpora, s': Corpora, env: Surroundings, selected: set<File>,
                          worked: Result<bool, MergeError>)
  {
    var synced := s.local + env.synced * s.remote;
    if env.remoteCopyFails then worked == Err(CopyFailed) && s' == Corpora(synced, s.remote)
    else if selected == {} then worked == Ok(false) && s' == Corpora(synced, s.remote)
    else if env.engineFails then worked == Err(MergeFailed) && s' == Corpora(synced, s.remote)
    else
      match ToFinal(s.remote, selected, env.engine(s.remote, selected))
      case Err(error) => worked == Err(error) && s' == Corpora(synced, s.remote)
      case Ok((push, delete)) =>
        && worked == Ok(true)
        && s' == Corpora(synced - (delete - env.deleteFails), s.remote + push * env.arrived)
  }

  lemma CutIsCleanPass(s: Corpora, synced: set<File>, pushed: set<File>, deleted: set<File>, maxLocalFiles: int)
    requires pushed !! deleted && pushed + deleted <= Backlog(s)
    requires |pushed + deleted| == Min(|Backlog(s)|, PassLimit(maxLocalFiles))
    ensures var s' := Corpora(s.local + synced * s.remote - deleted, s.remote + pushed);
            CleanPass(s, s', maxLocalFiles, pushed, deleted)
  {
  }

  lemma EmptyCutIsCleanPass(s: Corpora, synced: set<File>, maxLocalFiles: int)
    requires Backlog(s) == {}
    ensures IsCleanPass(s, Corpora(s.local + synced * s.remote, s.remote), maxLocalFiles)
  {
    assert CleanPass(s, Corpora(s.local + synced * s.remote, s.remote), maxLocalFiles, {}, {});
  }

  /** A pass in which nothing fails is a clean pass, so repeated passes drain the backlog. */
  lemma SmoothOutcomeIsCleanPass(s: Corpora, s': Corpora, env: Surroundings, selected: set<File>,
                                 worked: Result<bool, MergeError>, maxLocalFiles: int)
    requires selected <= Backlog(s)
    requires |selected| == Min(|Backlog(s)|, PassLimit(maxLocalFiles))
    requires Outcome(s, s', env, selected, worked) && worked.Ok?
    requires env.deleteFails == {} && selected <= env.arrived
    ensures IsCleanPass(s, s', maxLocalFiles)
  {
    if selected == {} {
      EmptyCutIsCleanPass(s, env.synced, maxLocalFiles);
    } else {
      var out := env.engine(s.remote, selected);
      ToFinalSplitsSelection(s.remote, selected, out);
      var (pushed, deleted) := ToFinal(s.remote, selected, out).value;
      assert pushed * env.arrived == pushed && deleted - env.deleteFails == deleted;
      CutIsCleanPass(s, env.synced, pushed, deleted, maxLocalFiles);
    }
  }

  lemma RunOneMore(w: World, steps: seq<Step>, step: Step, cov: File -> set<Edge>)
    ensures Run(w, steps + [step], cov) == Next(Run(w, steps, cov), step, cov)
  {
    assert (steps + [step])[..|steps|] == steps;
  }

  /** The steps of a pass that reaches its end. */
  ghost function PassSteps(n: Node, env: Surroundings, selected: set<File>, out: set<File>): seq<Step> {
    [Sync(n, env.synced), Partition(n, selected), Merge(n, out), Push(n, env.arrived), PushDone(n),
     Delete(n, selected - env.deleteFails), Stop(n)]
  }

  ghost function PassEnd(w: World, n: Node, env: Surroundings, selected: set<File>, out: set<File>,
                         cov: File -> set<Edge>): World
  {
    var merged := Next(Next(Next(w, Sync(n, env.synced), cov), Partition(n, selected), cov), Merge(n, out), cov);
    var pushed := Next(Next(merged, Push(n, env.arrived), cov), PushDone(n), cov);
    Next(Next(pushed, Delete(n, selected - env.deleteFails), cov), Stop(n), cov)
  }

  lemma RunOfPass(w: World, n: Node, env: Surroundings, selected: set<File>, out: set<File>, cov: File -> set<Edge>)
    ensures Run(w, PassSteps(n, env, selected, out), cov) == PassEnd(w, n, env, selected, out, cov)
  {
    var all := PassSteps(n, env, selected, out);
    assert all[..0] == [];
    RunOneMore(w, all[..0], all[0], cov);
    assert all[..1] == all[..0] + [all[0]];
    RunOneMore(w, all[..1], all[1], cov);
    assert all[..2] == all[..1] + [all[1]];
    RunOneMore(w, all[..2], all[2], cov);
    assert all[..3] == all[..2] + [all[2]];
    RunOneMore(w, all[..3], all[3], cov);
    assert all[..4] == all[..3] + [all[3]];
    RunOneMore(w, all[..4], all[4], cov);
    assert all[..5] == all[..4] + [all[4]];
    RunOneMore(w, all[..5], all[5], cov);
    assert all[..6] == all[..5] + [all[5]];
    RunOneMore(w, all[..6], all[6], cov);
    assert all == all[..6] + [all[6]];
  }

  lemma FullPassIsARun(w: World, n: Node, s': Corpora, env: Surroundings, selected: set<File>, cov: File -> set<Edge>)
    returns (steps: seq<Step>)
    requires PhaseOf(w, n).Idle? && selected != {} && selected <= Local(w, n) - w.remote
    requires EngineMerge(w.remote, selected, env.engine(w.remote, selected), cov)
    requires Outcome(Corpora(Local(w, n), w.remote), s', env, selected, Ok(true))
    ensures Reaches(w, n, s', steps, cov)
  {
    var out := env.engine(w.remote, selected);
    steps := PassSteps(n, env, selected, out);
    RunOfPass(w, n, env, selected, out, cov);
    assert (selected - env.deleteFails) * (selected - out) == (selected - out) - env.deleteFails;
    assert env.arrived * (selected * out) == selected * out * env.arrived;
  }

  /** The steps lead to the corpora, leave the node idle, and touch no other node's files. */
  ghost predicate Reaches(w: World, n: Node, s': Corpora, steps: seq<Step>, cov: File -> set<Edge>) {
    && Run(w, steps, cov).remote == s'.remote
    && Local(Run(w, steps, cov), n) == s'.local
    && PhaseOf(Run(w, steps, cov), n).Idle?
    && forall m :: m != n ==> Local(Run(w, steps, cov), m) == Local(w, m)
  }

  lemma SyncOnly(w: World, n: Node, s': Corpora, synced: set<File>, cov: File -> set<Edge>) returns (steps: seq<Step>)
    requires PhaseOf(w, n).Idle?
    requires s' == Corpora(Local(w, n) + synced * w.remote, w.remote)
    ensures Reaches(w, n, s', steps, cov)
  {
    steps := [Sync(n, synced)];
    assert steps[..0] == [] && Run(w, [], cov) == w;
    RunOneMore(w, [], Sync(n, synced), cov);
    assert [] + steps == steps;
  }

  /** Every pass, whether it ends, finds nothing to do or fails at a copy, in the engine or at an assertion, is a
      run of the machine, so what holds of all runs holds of it. */
  lemma OutcomeIsARun(w: World, n: Node, s': Corpora, env: Surroundings, selected: set<File>,
                      worked: Result<bool, MergeError>, cov: File -> set<Edge>)
    returns (steps: seq<Step>)
    requires PhaseOf(w, n).Idle? && selected <= Local(w, n) - w.remote
    requires worked == Ok(true) ==> EngineMerge(w.remote, selected, env.engine(w.remote, selected), cov)
    requires Outcome(Corpora(Local(w, n), w.remote), s', env, selected, worked)
    ensures Run(w, steps, cov).remote == s'.remote
    ensures Local(Run(w, steps, cov), n) == s'.local
    ensures PhaseOf(Run(w, steps, cov), n).Idle?
    ensures forall m :: m != n ==> Local(Run(w, steps, cov), m) == Local(w, m)
  {
    if worked == Ok(true) {
      steps := FullPassIsARun(w, n, s', env, selected, cov);
    } else {
      steps := SyncOnly(w, n, s', env.synced, cov);
    }
  }

  /** What a pass comes to, case by case: a remote file cannot be copied; nothing is selected; the engine fails,
      loses remote files, or leaves others; or the selected files that the engine kept are pushed, and those it
      did not keep are deleted. Only the last counts as work. */
  lemma OutcomeCases(s: Corpora, s': Corpora, env: Surroundings, selected: set<File>, worked: Result<bool, MergeError>)
    requires Outcome(s, s', env, selected, worked)
    ensures var out := env.engine(s.remote, selected);
            && (env.remoteCopyFails ==> worked == Err(CopyFailed))
            && (!env.remoteCopyFails && selected == {} ==> worked == Ok(false))
            && (!env.remoteCopyFails && selected != {} && env.engineFails ==> worked == Err(MergeFailed))
            && (!env.remoteCopyFails && selected != {} && !env.engineFails ==>
                  && (worked == Ok(true) <==> s.remote <= out <= s.remote + selected)
                  && (!(s.remote <= out) ==> worked == Err(RemoteFilesLost))
                  && (s.remote <= out && !(out <= s.remote + selected) ==> worked == Err(UnexpectedFiles)))
            && (forall f :: f in s'.remote <==>
                  f in s.remote || (worked == Ok(true) && f in selected && f in out && f in env.arrived))
            && (forall f :: f in s'.local <==>
                  && (f in s.local || (f in env.synced && f in s.remote))
                  && !(worked == Ok(true) && f in selected && f !in out && f !in env.deleteFails))
  {
  }

  /** So a pass of one node, however it goes, keeps the coverage of both corpora. */
  lemma TaskKeepsCoverage(s: Corpora, s': Corpora, env: Surroundings, selected: set<File>,
                          worked: Result<bool, MergeError>, cov: File -> set<Edge>)
    requires selected <= Backlog(s)
    requires worked == Ok(true) ==> EngineMerge(s.remote, selected, env.engine(s.remote, selected), cov)
    requires Outcome(s, s', env, selected, worked)
    ensures Coverage(s.local + s.remote, cov) <= Coverage(s'.local + s'.remote, cov)
    ensures s.remote <= s'.remote
  {
    var w := World(s.remote, map[0 := s.local], map[]);
    var steps := OutcomeIsARun(w, 0, s', env, selected, worked, cov);
    CoverageNeverShrinks(w, steps, cov);
    assert steps[..0] == [] && Run(w, steps[..0], cov) == w;
    assert AllFiles(w) == s.local + s.remote;
    OneNodeFiles(Run(w, steps, cov), s');
    CoverageGrows(AllFiles(Run(w, steps, cov)), s'.local + s'.remote, cov);
  }

  lemma OneNodeFiles(w: World, s: Corpora)
    requires w.remote == s.remote && Local(w, 0) == s.local && forall m: Node :: m != 0 ==> Local(w, m) == {}
    ensures AllFiles(w) <= s.local + s.remote
  {
    forall f | f in AllFiles(w)
      ensures f in s.local + s.remote
    {
      if f !in w.remote {
        var n: Node :| n in w.local && f in w.local[n];
        assert f in Local(w, n);
      }
    }
  }
}
