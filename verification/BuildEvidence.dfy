/** What happened in a run of the build workers for its outputs and acknowledgements to exist: each goes back
    to one call of `serve_item`, from the delivery on, and to the answers given in that call. */
module BuildEvidence {
  import RQ = ReliableQueue
  import opened Numbers
  import opened Bot = BuilderBot

  /** What a worker learns or does between the delivery and the end of a call. */
  datatype Fact =
    | Stopped
    | Live
    | DiffOk
    | DiffFailed
    | PatchOk
    | PatchFailed
    | BuildOk(taskDir: string)
    | Pushed(taskDir: string)
    | Exceeded

  /** Where a worker on request `id` stands for it. */
  function PointOf(fact: Fact, id: RQ.Id): Pc {
    match fact
    case Stopped => Popped(id)
    case Live => Popped(id)
    case DiffOk => TaskLive(id)
    case DiffFailed => TaskLive(id)
    case PatchOk => DiffDone(id)
    case PatchFailed => DiffDone(id)
    case BuildOk(_) => PatchDone(id)
    case Pushed(taskDir) => Built(id, taskDir)
    case Exceeded => Failed(id)
  }

  predicate Shows(fact: Fact, sys: System, id: RQ.Id, msg: BuildRequest, o: Outcome, cfg: Config) {
    match fact
    case Stopped => o.shouldStop
    case Live => !o.shouldStop
    case DiffOk => !(msg.applyDiff && o.deltaMode) || o.diffOk
    case DiffFailed => msg.applyDiff && o.deltaMode && !o.diffOk
    case PatchOk => msg.patch == "" || msg.patchId == "" || o.patchOk
    case PatchFailed => msg.patch != "" && msg.patchId != "" && !o.patchOk
    case BuildOk(taskDir) => o.buildOk && o.taskDir == taskDir
    case Pushed(_) => true
    case Exceeded => RQ.TimesDelivered(sys.requests, id) > cfg.maxTries
  }

  // ---- Calls ----

  /** Worker `w` does nothing between its steps `i` and `n`. */
  ghost predicate NextIs(steps: seq<Step>, w: Worker, i: nat, n: nat) {
    i < n <= |steps| && forall j :: i < j < n ==> !Moves(steps[j], w)
  }

  /** Step `i` hands request `id` to `w`. */
  ghost predicate PoppedAt(steps: seq<Step>, cfg: Config, w: Worker, i: nat, id: RQ.Id) {
    && i < |steps| && steps[i].Advance? && steps[i].worker == w
    && PcOf(After(steps, cfg, i), w).Idle?
    && PcOf(After(steps, cfg, i + 1), w) == Popped(id)
  }

  /** Step `i` gives `w` the fact about request `id`. */
  ghost predicate FoundAt(steps: seq<Step>, cfg: Config, w: Worker, i: nat, fact: Fact, id: RQ.Id, msg: BuildRequest) {
    && i < |steps| && steps[i].Advance? && steps[i].worker == w
    && PcOf(After(steps, cfg, i), w) == PointOf(fact, id)
    && Shows(fact, After(steps, cfg, i), id, msg, steps[i].outcome, cfg)
  }

  /** A call of `w` up to step `n`: `path` are the consecutive steps of `w` in it, the delivery of `id` and then
      one for each of the facts. */
  ghost predicate Call(steps: seq<Step>, cfg: Config, w: Worker, path: seq<nat>, n: nat, id: RQ.Id, msg: BuildRequest,
                       facts: seq<Fact>)
  {
    && |path| == |facts| + 1
    && PoppedAt(steps, cfg, w, path[0], id)
    && (forall k :: 0 <= k < |facts| ==> FoundAt(steps, cfg, w, path[k + 1], facts[k], id, msg))
    && (forall k :: 0 <= k < |facts| ==> NextIs(steps, w, path[k], path[k + 1]))
    && NextIs(steps, w, path[|facts|], n)
  }

  /** The facts of a call after which the worker stands at `pc`. */
  predicate LeadTo(facts: seq<Fact>, pc: Pc) {
    match pc
    case Idle => false
    case Popped(_) => facts == []
    case TaskStopped(_) => facts == [Stopped]
    case TaskLive(_) => facts == [Live]
    case DiffDone(_) => facts == [Live, DiffOk]
    case Failed(_) => facts == [Live, DiffFailed] || facts == [Live, DiffOk, PatchFailed]
    case TriesExceeded(_) => facts == [Live, DiffFailed, Exceeded] || facts == [Live, DiffOk, PatchFailed, Exceeded]
    case PatchDone(_) => facts == [Live, DiffOk, PatchOk]
    case Built(_, taskDir) => facts == BuiltFacts(taskDir)
    case OutputPushed(_, taskDir) => facts == BuiltFacts(taskDir) + [Pushed(taskDir)]
  }

  function BuiltFacts(taskDir: string): seq<Fact> {
    [Live, DiffOk, PatchOk, BuildOk(taskDir)]
  }

  /** What step `j` does to the point of `w`, when it is not a step that `w` takes. */
  predicate FollowsStep(points: seq<Pc>, steps: seq<Step>, w: Worker, j: nat)
    requires |points| == |steps| + 1 && j < |steps|
  {
    && (!Moves(steps[j], w) ==> points[j + 1] == points[j])
    && (steps[j] == Crash(w) ==> points[j + 1].Idle?)
  }

  /** The points at which `w` stands before each step and after the last. */
  ghost predicate ArePoints(points: seq<Pc>, steps: seq<Step>, cfg: Config, w: Worker) {
    |points| == |steps| + 1 && forall j :: 0 <= j <= |steps| ==> points[j] == PcOf(After(steps, cfg, j), w)
  }

  lemma PointsOf(steps: seq<Step>, cfg: Config, w: Worker) returns (points: seq<Pc>)
    ensures ArePoints(points, steps, cfg, w)
  {
    points := seq(|steps| + 1, j requires 0 <= j <= |steps| => PcOf(After(steps, cfg, j), w));
  }

  lemma StepFollows(steps: seq<Step>, cfg: Config, w: Worker, j: nat)
    requires j < |steps|
    ensures !Moves(steps[j], w) ==> PcOf(After(steps, cfg, j + 1), w) == PcOf(After(steps, cfg, j), w)
    ensures steps[j] == Crash(w) ==> PcOf(After(steps, cfg, j + 1), w).Idle?
  {
    OthersStay(After(steps, cfg, j), steps[j], cfg, w);
  }

  lemma PointFollowsStep(points: seq<Pc>, steps: seq<Step>, cfg: Config, w: Worker, j: nat)
    requires ArePoints(points, steps, cfg, w) && j < |steps|
    ensures FollowsStep(points, steps, w, j)
  {
    StepFollows(steps, cfg, w, j);
  }

  lemma PointsFollowSteps(steps: seq<Step>, cfg: Config, w: Worker) returns (points: seq<Pc>)
    ensures ArePoints(points, steps, cfg, w)
    ensures forall j :: 0 <= j < |steps| ==> FollowsStep(points, steps, w, j)
  {
    points := PointsOf(steps, cfg, w);
    forall j | 0 <= j < |steps|
      ensures FollowsStep(points, steps, w, j)
    {
      PointFollowsStep(points, steps, cfg, w, j);
    }
  }

  lemma {:induction false} LastMoveAmong(points: seq<Pc>, steps: seq<Step>, w: Worker, i: nat, n: nat)
    returns (k: nat)
    requires |points| == |steps| + 1 && i <= n <= |steps|
    requires forall j :: 0 <= j < |steps| ==> FollowsStep(points, steps, w, j)
    ensures k <= n && forall j :: k <= j < n ==> !Moves(steps[j], w)
    ensures points[k] == points[n]
    ensures k == i || (i < k && Moves(steps[k - 1], w))
    decreases n
  {
    if n == i || Moves(steps[n - 1], w) {
      k := n;
    } else {
      assert FollowsStep(points, steps, w, n - 1);
      k := LastMoveAmong(points, steps, w, i, n - 1);
    }
  }

  /** A worker in a call has made a last step, which brought it where it stands. */
  lemma LastMove(steps: seq<Step>, cfg: Config, w: Worker, n: nat) returns (i: nat)
    requires n <= |steps| && !PcOf(After(steps, cfg, n), w).Idle?
    ensures NextIs(steps, w, i, n) && steps[i].Advance? && steps[i].worker == w
    ensures PcOf(After(steps, cfg, i + 1), w) == PcOf(After(steps, cfg, n), w)
  {
    var points := PointsFollowSteps(steps, cfg, w);
    var k := LastMoveAmong(points, steps, w, 0, n);
    assert points[0] == PcOf(INITIAL, w);
    MoveIsAdvance(points, steps, w, k);
    i := k - 1;
  }

  lemma MoveIsAdvance(points: seq<Pc>, steps: seq<Step>, w: Worker, k: nat)
    requires |points| == |steps| + 1 && 0 < k <= |steps| && FollowsStep(points, steps, w, k - 1)
    requires Moves(steps[k - 1], w) && !points[k].Idle?
    ensures steps[k - 1].Advance? && steps[k - 1].worker == w
  {
  }

  /** Where others act, a worker stays. */
  lemma PointStays(steps: seq<Step>, cfg: Config, w: Worker, i: nat, n: nat)
    requires i <= n <= |steps| && forall j :: i <= j < n ==> !Moves(steps[j], w)
    ensures PcOf(After(steps, cfg, n), w) == PcOf(After(steps, cfg, i), w)
  {
    var points := PointsFollowSteps(steps, cfg, w);
    var k := LastMoveAmong(points, steps, w, i, n);
    assert k == i;
  }

  lemma OneStepGrows(steps: seq<Step>, cfg: Config, j: nat)
    requires j < |steps|
    ensures After(steps, cfg, j).requests.log <= After(steps, cfg, j + 1).requests.log
  {
    AfterKeepsInvariant(steps, cfg, j);
    NextIsLater(After(steps, cfg, j), steps[j], cfg);
  }

  lemma LogsOf(steps: seq<Step>, cfg: Config) returns (logs: seq<seq<BuildRequest>>)
    ensures |logs| == |steps| + 1
    ensures forall j :: 0 <= j <= |steps| ==> logs[j] == After(steps, cfg, j).requests.log
  {
    logs := seq(|steps| + 1, j requires 0 <= j <= |steps| => After(steps, cfg, j).requests.log);
  }

  lemma LogGrowsInStep(logs: seq<seq<BuildRequest>>, steps: seq<Step>, cfg: Config, j: nat)
    requires |logs| == |steps| + 1 && j < |steps|
    requires forall k :: 0 <= k <= |steps| ==> logs[k] == After(steps, cfg, k).requests.log
    ensures GrowsAt(logs, j)
  {
    OneStepGrows(steps, cfg, j);
  }

  lemma LogGrows(steps: seq<Step>, cfg: Config, i: nat, n: nat)
    requires i <= n <= |steps|
    ensures After(steps, cfg, i).requests.log <= After(steps, cfg, n).requests.log
  {
    var logs := LogsOf(steps, cfg);
    forall j | 0 <= j < |steps|
      ensures GrowsAt(logs, j)
    {
      LogGrowsInStep(logs, steps, cfg, j);
    }
    GrowsAlong(logs, i, n);
  }

  lemma PopLeadsIn(sys: System, w: Worker, o: Outcome, cfg: Config)
    requires RQ.Invariant(sys.requests) && PcOf(sys, w).Idle?
    ensures var sys' := AdvanceWorker(sys, w, o, cfg);
            PcOf(sys', w).Idle? || (PcOf(sys', w).Popped? && PcOf(sys', w).id < |sys'.requests.log|)
  {
  }

  /** Every further step of a call adds the fact that its next point stands for. */
  lemma StepFact(sys: System, w: Worker, o: Outcome, cfg: Config) returns (fact: Fact)
    requires !PcOf(sys, w).Idle? && PcOf(sys, w).id < |sys.requests.log|
    requires !PcOf(AdvanceWorker(sys, w, o, cfg), w).Idle?
    ensures var pc, pc' := PcOf(sys, w), PcOf(AdvanceWorker(sys, w, o, cfg), w);
            && pc'.id == pc.id
            && pc == PointOf(fact, pc.id)
            && Shows(fact, sys, pc.id, sys.requests.log[pc.id], o, cfg)
            && forall facts :: LeadTo(facts, pc) ==> LeadTo(facts + [fact], pc')
  {
    var msg := sys.requests.log[PcOf(sys, w).id];
    match PcOf(sys, w)
    case Popped(_) => fact := if o.shouldStop then Stopped else Live;
    case TaskLive(_) => fact := if DiffApplied(msg, o) then DiffOk else DiffFailed;
    case DiffDone(_) => fact := if PatchApplied(msg, o) then PatchOk else PatchFailed;
    case Failed(_) => fact := Exceeded;
    case PatchDone(_) => fact := BuildOk(o.taskDir);
    case Built(_, taskDir) => fact := Pushed(taskDir);
  }

  lemma OneFactMore(steps: seq<Step>, cfg: Config, w: Worker, path: seq<nat>, i: nat, n: nat, id: RQ.Id,
                    msg: BuildRequest, facts: seq<Fact>, fact: Fact)
    requires Call(steps, cfg, w, path, i, id, msg, facts)
    requires FoundAt(steps, cfg, w, i, fact, id, msg) && NextIs(steps, w, i, n)
    ensures Call(steps, cfg, w, path + [i], n, id, msg, facts + [fact])
  {
    var path', facts' := path + [i], facts + [fact];
    forall k | 0 <= k < |facts'|
      ensures FoundAt(steps, cfg, w, path'[k + 1], facts'[k], id, msg) && NextIs(steps, w, path'[k], path'[k + 1])
    {
      if k < |facts| {
        assert facts'[k] == facts[k] && path'[k + 1] == path[k + 1];
      }
    }
  }

  /** In every run a worker that stands at a point is in one call, in which all that leads to this point was
      found, in this order and by this worker, since the request was handed to it. */
  lemma {:induction false} EveryWorkerIsInACall(steps: seq<Step>, cfg: Config, w: Worker, n: nat)
    returns (path: seq<nat>, facts: seq<Fact>)
    requires n <= |steps| && !PcOf(After(steps, cfg, n), w).Idle?
    ensures var sys, id := After(steps, cfg, n), PcOf(After(steps, cfg, n), w).id;
            && id < |sys.requests.log|
            && Call(steps, cfg, w, path, n, id, sys.requests.log[id], facts)
            && LeadTo(facts, PcOf(sys, w))
    decreases n
  {
    var i := LastMove(steps, cfg, w, n);
    var before := After(steps, cfg, i);
    LogGrows(steps, cfg, i, n);
    LogGrows(steps, cfg, i + 1, n);
    AfterKeepsInvariant(steps, cfg, i);
    if PcOf(before, w).Idle? {
      PopLeadsIn(before, w, steps[i].outcome, cfg);
      path, facts := [i], [];
    } else {
      path, facts := EveryWorkerIsInACall(steps, cfg, w, i);
      var fact := StepFact(before, w, steps[i].outcome, cfg);
      var id := PcOf(before, w).id;
      OneFactMore(steps, cfg, w, path, i, n, id, before.requests.log[id], facts, fact);
      path, facts := path + [i], facts + [fact];
    }
  }

  /** The same for a worker that stands at `pc`, with the request as the whole run has it. */
  lemma CallUpTo(steps: seq<Step>, cfg: Config, w: Worker, n: nat, pc: Pc)
    returns (path: seq<nat>, facts: seq<Fact>)
    requires n <= |steps| && PcOf(After(steps, cfg, n), w) == pc && !pc.Idle?
    ensures pc.id < |After(steps, cfg, n).requests.log|
    ensures pc.id < |Run(steps, cfg).requests.log|
    ensures Run(steps, cfg).requests.log[pc.id] == After(steps, cfg, n).requests.log[pc.id]
    ensures Call(steps, cfg, w, path, n, pc.id, Run(steps, cfg).requests.log[pc.id], facts)
    ensures LeadTo(facts, pc)
  {
    path, facts := EveryWorkerIsInACall(steps, cfg, w, n);
    LogGrows(steps, cfg, n, |steps|);
  }

  // ---- Outputs, events and acknowledgements ----

  /** What a step adds to the outputs comes from a worker that has built. */
  lemma StepPushes(sys: System, step: Step, cfg: Config, output: BuildOutput)
    requires output in Next(sys, step, cfg).outputs && output !in sys.outputs
    ensures step.Advance? && PcOf(sys, step.worker).Built? && PcOf(sys, step.worker).id < |sys.requests.log|
    ensures output == OutputFor(sys.requests.log[PcOf(sys, step.worker).id], PcOf(sys, step.worker).taskDir)
  {
  }

  /** The point of a worker that has just logged the event. */
  function PointAfter(event: Event): Pc
    requires !event.Delivered?
  {
    if event.GaveUp? then TriesExceeded(event.id) else TaskStopped(event.id)
  }

  lemma StepLogs(sys: System, step: Step, cfg: Config, event: Event) returns (w: Worker, pc: Pc)
    requires event in Next(sys, step, cfg).history && event !in sys.history && !event.Delivered?
    ensures PcOf(Next(sys, step, cfg), w) == pc == PointAfter(event) && !pc.Idle? && pc.id == event.id
  {
    w, pc := step.worker, PointAfter(event);
  }

  /** What a run leaves behind. */
  datatype Mark = Output(output: BuildOutput) | Logged(event: Event) | Acked(id: RQ.Id)

  predicate BearsAfter(steps: seq<Step>, cfg: Config, mark: Mark, n: nat)
    requires n <= |steps|
  {
    match mark
    case Output(output) => output in After(steps, cfg, n).outputs
    case Logged(event) => event in After(steps, cfg, n).history
    case Acked(id) => id in After(steps, cfg, n).requests.acked
  }

  lemma MarkFlags(steps: seq<Step>, cfg: Config, mark: Mark) returns (flags: seq<bool>)
    ensures |flags| == |steps| + 1 && forall n :: 0 <= n <= |steps| ==> flags[n] == BearsAfter(steps, cfg, mark, n)
  {
    flags := seq(|steps| + 1, n requires 0 <= n <= |steps| => BearsAfter(steps, cfg, mark, n));
  }

  /** Every mark was left by some step. */
  lemma FirstMarked(steps: seq<Step>, cfg: Config, mark: Mark) returns (n: nat)
    requires BearsAfter(steps, cfg, mark, |steps|)
    ensures n < |steps| && !BearsAfter(steps, cfg, mark, n) && BearsAfter(steps, cfg, mark, n + 1)
  {
    var flags := MarkFlags(steps, cfg, mark);
    assert !flags[0];
    n := FirstTime(flags);
  }

  /** An output was pushed by a worker that had built it. */
  lemma OutputWasPushed(steps: seq<Step>, cfg: Config, output: BuildOutput) returns (n: nat)
    requires output in Run(steps, cfg).outputs
    ensures n < |steps| && steps[n].Advance?
    ensures var sys := After(steps, cfg, n);
            && PcOf(sys, steps[n].worker).Built?
            && PcOf(sys, steps[n].worker).id < |sys.requests.log|
            && output == OutputFor(sys.requests.log[PcOf(sys, steps[n].worker).id], PcOf(sys, steps[n].worker).taskDir)
  {
    n := FirstMarked(steps, cfg, Output(output));
    StepPushes(After(steps, cfg, n), steps[n], cfg, output);
  }

  /** A build output is pushed only in a call in which the diff of its request applied (if it asked for one and
      the task is in delta mode), then the patch (if it carries one), and then the build succeeded in the
      output's directory. */
  lemma OutputsAreEarned(steps: seq<Step>, cfg: Config, output: BuildOutput)
    returns (w: Worker, path: seq<nat>, n: nat, id: RQ.Id)
    requires output in Run(steps, cfg).outputs
    ensures id < |Run(steps, cfg).requests.log|
    ensures var msg := Run(steps, cfg).requests.log[id];
            && output.taskId == msg.taskId
            && output.engine == msg.engine && output.sanitizer == msg.sanitizer
            && output.buildType == msg.buildType && output.applyDiff == msg.applyDiff
            && output.patchId == msg.patchId
    ensures FoundAt(steps, cfg, w, n, Pushed(output.taskDir), id, Run(steps, cfg).requests.log[id])
    ensures Call(steps, cfg, w, path, n, id, Run(steps, cfg).requests.log[id], BuiltFacts(output.taskDir))
  {
    n := OutputWasPushed(steps, cfg, output);
    w := steps[n].worker;
    id := PcOf(After(steps, cfg, n), w).id;
    var facts;
    path, facts := CallUpTo(steps, cfg, w, n, Built(id, output.taskDir));
  }

  lemma LoggedInStep(steps: seq<Step>, cfg: Config, event: Event) returns (i: nat)
    requires event in Run(steps, cfg).history
    ensures i < |steps| && event !in After(steps, cfg, i).history
    ensures event in Next(After(steps, cfg, i), steps[i], cfg).history
  {
    i := FirstMarked(steps, cfg, Logged(event));
  }

  /** An event was logged by the step that brought a worker to its point. */
  lemma EventWasLogged(steps: seq<Step>, cfg: Config, event: Event) returns (w: Worker, n: nat, pc: Pc)
    requires event in Run(steps, cfg).history && !event.Delivered?
    ensures n <= |steps| && PcOf(After(steps, cfg, n), w) == pc
    ensures pc == PointAfter(event) && !pc.Idle? && pc.id == event.id
  {
    var i := LoggedInStep(steps, cfg, event);
    w, pc := StepLogs(After(steps, cfg, i), steps[i], cfg, event);
    n := i + 1;
  }

  /** A request counts as stopped only in a call in which the registry said so, and is given up only in a call
      in which its diff or patch failed and then the count exceeded the limit. */
  lemma EventsAreTrue(steps: seq<Step>, cfg: Config, event: Event)
    returns (w: Worker, path: seq<nat>, n: nat, facts: seq<Fact>)
    requires event in Run(steps, cfg).history && !event.Delivered?
    ensures event.id < |Run(steps, cfg).requests.log|
    ensures Call(steps, cfg, w, path, n, event.id, Run(steps, cfg).requests.log[event.id], facts)
    ensures LeadTo(facts, PointAfter(event))
  {
    var pc;
    w, n, pc := EventWasLogged(steps, cfg, event);
    path, facts := CallUpTo(steps, cfg, w, n, pc);
  }

  lemma NewlyAcked(sys: System, step: Step, cfg: Config, id: RQ.Id)
    requires id in Next(sys, step, cfg).requests.acked && id !in sys.requests.acked
    ensures step.Advance? && !PcOf(sys, step.worker).Idle? && PcOf(sys, step.worker).id == id
    ensures var pc := PcOf(sys, step.worker); pc.TaskStopped? || pc.TriesExceeded? || pc.OutputPushed?
  {
  }

  lemma AckedAtStep(steps: seq<Step>, cfg: Config, id: RQ.Id) returns (a: nat)
    requires id in Run(steps, cfg).requests.acked
    ensures a < |steps| && steps[a].Advance?
    ensures id !in After(steps, cfg, a).requests.acked && id in After(steps, cfg, a + 1).requests.acked
    ensures var pc := PcOf(After(steps, cfg, a), steps[a].worker);
            (pc.TaskStopped? || pc.TriesExceeded? || pc.OutputPushed?) && pc.id == id
  {
    a := FirstMarked(steps, cfg, Acked(id));
    NewlyAcked(After(steps, cfg, a), steps[a], cfg, id);
  }

  lemma PushedOutputIsThere(steps: seq<Step>, cfg: Config, n: nat, w: Worker)
    requires n <= |steps| && PcOf(After(steps, cfg, n), w).OutputPushed?
    ensures var sys, pc := After(steps, cfg, n), PcOf(After(steps, cfg, n), w);
            && pc.id < |sys.requests.log|
            && exists output :: output in sys.outputs && IsOutputOf(output, sys.requests.log[pc.id], pc.taskDir)
  {
    AfterKeepsInvariant(steps, cfg, n);
    assert PcOk(After(steps, cfg, n), PcOf(After(steps, cfg, n), w), cfg);
  }

  /** The facts of a call that ends with an acknowledgement. */
  ghost predicate IsReason(facts: seq<Fact>, msg: BuildRequest, outputs: seq<BuildOutput>) {
    || facts == [Stopped]
    || facts == [Live, DiffFailed, Exceeded]
    || facts == [Live, DiffOk, PatchFailed, Exceeded]
    || exists taskDir, output ::
         facts == BuiltFacts(taskDir) + [Pushed(taskDir)] && output in outputs && IsOutputOf(output, msg, taskDir)
  }

  /** In every run an acknowledged request was acknowledged by a worker that, in this very call, was told that
      the task is stopped; or saw the diff or the patch fail and then found the count over the limit; or saw
      diff, patch and build succeed and pushed the output. */
  lemma AcknowledgedForAReason(steps: seq<Step>, cfg: Config, id: RQ.Id)
    returns (w: Worker, path: seq<nat>, a: nat, facts: seq<Fact>)
    requires id in Run(steps, cfg).requests.acked
    ensures a < |steps| && steps[a].Advance? && steps[a].worker == w
    ensures id !in After(steps, cfg, a).requests.acked && id in After(steps, cfg, a + 1).requests.acked
    ensures id < |Run(steps, cfg).requests.log|
    ensures Call(steps, cfg, w, path, a, id, Run(steps, cfg).requests.log[id], facts)
    ensures IsReason(facts, Run(steps, cfg).requests.log[id], After(steps, cfg, a).outputs)
  {
    a := AckedAtStep(steps, cfg, id);
    w := steps[a].worker;
    path, facts := CallUpTo(steps, cfg, w, a, PcOf(After(steps, cfg, a), w));
    if PcOf(After(steps, cfg, a), w).OutputPushed? {
      PushedOutputIsThere(steps, cfg, a, w);
      var taskDir := PcOf(After(steps, cfg, a), w).taskDir;
      assert facts == BuiltFacts(taskDir) + [Pushed(taskDir)];
    }
  }

  // ---- Failing builds are not limited ----

  /** The answer a worker at `pc` gets: the task is live, the diff applies, the patch applies, the build fails. */
  predicate OnlyBuildFails(pc: Pc, msg: BuildRequest, o: Outcome) {
    match pc
    case Popped(_) => !o.shouldStop
    case TaskLive(_) => msg.applyDiff && o.deltaMode ==> o.diffOk
    case DiffDone(_) => msg.patch != "" && msg.patchId != "" ==> o.patchOk
    case PatchDone(_) => !o.buildOk
    case _ => true
  }

  /** Step `i` of the run moves a worker that is at `pc`. */
  ghost predicate At(steps: seq<Step>, cfg: Config, i: nat, pc: Pc) {
    i < |steps| && steps[i].Advance? && PcOf(After(steps, cfg, i), steps[i].worker) == pc
  }

  /** So it is for every worker on request `id` in the run; nothing is said of other requests. */
  ghost predicate OnlyBuildsFail(steps: seq<Step>, cfg: Config, id: RQ.Id, msg: BuildRequest) {
    forall i: nat, pc :: At(steps, cfg, i, pc) && !pc.Idle? && pc.id == id ==> OnlyBuildFails(pc, msg, steps[i].outcome)
  }

  /** Facts that no worker finds about a request of which only the build fails. */
  predicate IsRuledOut(fact: Fact) {
    fact.Stopped? || fact.DiffFailed? || fact.PatchFailed? || fact.BuildOk?
  }

  lemma NothingElseFound(steps: seq<Step>, cfg: Config, w: Worker, path: seq<nat>, n: nat, id: RQ.Id,
                         msg: BuildRequest, facts: seq<Fact>)
    requires OnlyBuildsFail(steps, cfg, id, msg) && Call(steps, cfg, w, path, n, id, msg, facts)
    ensures forall fact :: fact in facts ==> !IsRuledOut(fact)
  {
    forall k | 0 <= k < |facts|
      ensures !IsRuledOut(facts[k])
    {
      assert FoundAt(steps, cfg, w, path[k + 1], facts[k], id, msg);
      assert At(steps, cfg, path[k + 1], PointOf(facts[k], id));
    }
  }

  lemma ReasonIsRuledOut(facts: seq<Fact>, msg: BuildRequest, outputs: seq<BuildOutput>)
    requires IsReason(facts, msg, outputs)
    ensures exists fact :: fact in facts && IsRuledOut(fact)
  {
    if facts == [Stopped] {
      assert Stopped in facts;
    } else if facts == [Live, DiffFailed, Exceeded] {
      assert DiffFailed in facts;
    } else if facts == [Live, DiffOk, PatchFailed, Exceeded] {
      assert PatchFailed in facts;
    } else {
      assert facts[3] in facts;
    }
  }

  lemma BuiltIsRuledOut(taskDir: string)
    ensures exists fact :: fact in BuiltFacts(taskDir) && IsRuledOut(fact)
  {
    assert BuildOk(taskDir) in BuiltFacts(taskDir);
  }

  lemma OnlyBuildsFailUnacknowledged(steps: seq<Step>, cfg: Config, id: RQ.Id)
    requires id < |Run(steps, cfg).requests.log|
    requires OnlyBuildsFail(steps, cfg, id, Run(steps, cfg).requests.log[id])
    ensures id !in Run(steps, cfg).requests.acked
  {
    if id in Run(steps, cfg).requests.acked {
      var w, path, a, facts := AcknowledgedForAReason(steps, cfg, id);
      ReasonIsRuledOut(facts, Run(steps, cfg).requests.log[id], After(steps, cfg, a).outputs);
      NothingElseFound(steps, cfg, w, path, a, id, Run(steps, cfg).requests.log[id], facts);
    }
  }

  lemma OnlyBuildsFailUnbuilt(steps: seq<Step>, cfg: Config, id: RQ.Id, msg: BuildRequest, w: Worker)
    requires var sys := Run(steps, cfg); id < |sys.requests.log| && msg == sys.requests.log[id]
    requires OnlyBuildsFail(steps, cfg, id, msg)
    requires !PcOf(Run(steps, cfg), w).Idle? && PcOf(Run(steps, cfg), w).id == id
    ensures !PcOf(Run(steps, cfg), w).Built? && !PcOf(Run(steps, cfg), w).OutputPushed?
  {
    var path, facts := EveryWorkerIsInACall(steps, cfg, w, |steps|);
    NothingElseFound(steps, cfg, w, path, |steps|, id, msg, facts);
    assert |facts| >= 4 ==> facts[3] in facts;
  }

  /** The limit on tries does not count for builds: a request of which only the build fails is never
      acknowledged, however often it is delivered and whatever becomes of other requests. */
  lemma FailingBuildsAreNeverAcknowledged(steps: seq<Step>, cfg: Config, id: RQ.Id)
    requires id < |Run(steps, cfg).requests.log|
    requires OnlyBuildsFail(steps, cfg, id, Run(steps, cfg).requests.log[id])
    ensures var s := Run(steps, cfg).requests;
            id !in s.acked && (RQ.Undelivered(s, id) || id in s.pending)
    ensures forall w :: !PcOf(Run(steps, cfg), w).Idle? && PcOf(Run(steps, cfg), w).id == id ==>
              !PcOf(Run(steps, cfg), w).Built? && !PcOf(Run(steps, cfg), w).OutputPushed?
  {
    OnlyBuildsFailUnacknowledged(steps, cfg, id);
    EveryRequestIsKeptOrJustified(steps, cfg, id);
    forall w | !PcOf(Run(steps, cfg), w).Idle? && PcOf(Run(steps, cfg), w).id == id
      ensures !PcOf(Run(steps, cfg), w).Built? && !PcOf(Run(steps, cfg), w).OutputPushed?
    {
      OnlyBuildsFailUnbuilt(steps, cfg, id, Run(steps, cfg).requests.log[id], w);
    }
  }

  /** If so it is for every request, nothing is ever acknowledged or pushed. */
  lemma NothingBuildsNothingAcknowledged(steps: seq<Step>, cfg: Config)
    requires forall id: RQ.Id :: id < |Run(steps, cfg).requests.log| ==>
               OnlyBuildsFail(steps, cfg, id, Run(steps, cfg).requests.log[id])
    ensures Run(steps, cfg).requests.acked == {} && Run(steps, cfg).outputs == []
  {
    var sys := Run(steps, cfg);
    forall id: RQ.Id
      ensures id !in sys.requests.acked
    {
      if id in sys.requests.acked {
        var w, path, a, facts := AcknowledgedForAReason(steps, cfg, id);
        FailingBuildsAreNeverAcknowledged(steps, cfg, id);
      }
    }
    if sys.outputs != [] {
      var w, path, n, id := OutputsAreEarned(steps, cfg, sys.outputs[0]);
      BuiltIsRuledOut(sys.outputs[0].taskDir);
      NothingElseFound(steps, cfg, w, path, n, id, sys.requests.log[id], BuiltFacts(sys.outputs[0].taskDir));
    }
  }

  /** The worker finds the first message idle, the task live and everything in order but the build. */
  const BUILD_FAILS: Outcome := Outcome([0], false, false, true, true, false, "")

  /** Some time passes and the worker serves one item. */
  function Retry(w: Worker, cfg: Config): seq<Step> {
    var next := Advance(w, BUILD_FAILS);
    [Elapse(cfg.taskTimeout), next, next, next, next, next]
  }

  function Retries(msg: BuildRequest, w: Worker, cfg: Config, n: nat): seq<Step> {
    if n == 0 then [PushRequest(msg)] else Retries(msg, w, cfg, n - 1) + Retry(w, cfg)
  }

  /** The only request has been handed out `n` times, and its worker is idle again. */
  ghost predicate HandedOut(sys: System, msg: BuildRequest, w: Worker, n: nat) {
    && sys.requests.log == [msg]
    && sys.requests.acked == {}
    && PcOf(sys, w).Idle?
    && RQ.TimesDelivered(sys.requests, 0) == n
    && if n == 0 then sys.requests.next == 0 && sys.requests.pending == map[]
       else && sys.requests.next == 1
            && sys.requests.pending.Keys == {0}
            && sys.requests.pending[0].deliveredAt <= sys.requests.now
  }

  lemma PopsAgain(sys: System, msg: BuildRequest, w: Worker, cfg: Config, n: nat)
    requires HandedOut(sys, msg, w, n)
    ensures var sys1 := Next(Next(sys, Elapse(cfg.taskTimeout), cfg), Advance(w, BUILD_FAILS), cfg);
            PcOf(sys1, w) == Popped(0) && HandedOut(Goto(sys1, w, Idle), msg, w, n + 1)
  {
    var scan: seq<RQ.Id> := [0];
    assert scan[0] == 0;
  }

  lemma FailsAgain(sys: System, msg: BuildRequest, w: Worker, cfg: Config)
    requires PcOf(sys, w) == Popped(0) && sys.requests.log == [msg]
    ensures Continue(sys, w, BUILD_FAILS, cfg, 4).requests == sys.requests
    ensures PcOf(Continue(sys, w, BUILD_FAILS, cfg, 4), w).Idle?
  {
    var sys1 := Next(sys, Advance(w, BUILD_FAILS), cfg);
    assert PcOf(sys1, w) == TaskLive(0);
    var sys2 := Next(sys1, Advance(w, BUILD_FAILS), cfg);
    assert PcOf(sys2, w) == DiffDone(0);
    var sys3 := Next(sys2, Advance(w, BUILD_FAILS), cfg);
    assert PcOf(sys3, w) == PatchDone(0);
    var sys4 := Next(sys3, Advance(w, BUILD_FAILS), cfg);
    assert Continue(sys3, w, BUILD_FAILS, cfg, 1) == Continue(sys4, w, BUILD_FAILS, cfg, 0) == sys4;
    assert Continue(sys2, w, BUILD_FAILS, cfg, 2) == sys4;
    assert Continue(sys1, w, BUILD_FAILS, cfg, 3) == sys4;
  }

  lemma RetryHandsOut(steps: seq<Step>, msg: BuildRequest, w: Worker, cfg: Config, n: nat)
    requires HandedOut(Run(steps, cfg), msg, w, n)
    ensures HandedOut(Run(steps + Retry(w, cfg), cfg), msg, w, n + 1)
  {
    var elapse, next := Elapse(cfg.taskTimeout), Advance(w, BUILD_FAILS);
    var popped := steps + [elapse] + [next];
    RunOneMore(steps, elapse, cfg);
    RunOneMore(steps + [elapse], next, cfg);
    PopsAgain(Run(steps, cfg), msg, w, cfg, n);
    FailsAgain(Run(popped, cfg), msg, w, cfg);
    ContinueIsARun(popped, w, BUILD_FAILS, cfg, 4);
    assert steps + Retry(w, cfg) == popped + Advances(w, BUILD_FAILS, 4);
  }

  /** For every request, limit and number there is a run in which only builds fail and the request has been
      handed out that many times; it is still pending. */
  lemma {:induction false} RetriedForEver(msg: BuildRequest, w: Worker, cfg: Config, n: nat)
    ensures HandedOut(Run(Retries(msg, w, cfg, n), cfg), msg, w, n)
    ensures forall i :: 0 <= i < |Retries(msg, w, cfg, n)| && Retries(msg, w, cfg, n)[i].Advance? ==>
              Retries(msg, w, cfg, n)[i].outcome == BUILD_FAILS
    ensures OnlyBuildsFail(Retries(msg, w, cfg, n), cfg, 0, msg)
  {
    if n == 0 {
      var push := [PushRequest(msg)];
      assert After(push, cfg, 1) == Next(INITIAL, push[0], cfg);
    } else {
      RetriedForEver(msg, w, cfg, n - 1);
      RetryHandsOut(Retries(msg, w, cfg, n - 1), msg, w, cfg, n - 1);
    }
  }

  // ---- Which deliveries the limit counts ----

  lemma PoppedIsPending(sys: System, w: Worker, o: Outcome, cfg: Config, id: RQ.Id)
    requires PcOf(sys, w).Idle? && PcOf(AdvanceWorker(sys, w, o, cfg), w) == Popped(id)
    ensures id in AdvanceWorker(sys, w, o, cfg).requests.pending
  {
  }

  /** How often a request had been handed out after `n` steps. */
  function HandOuts(steps: seq<Step>, cfg: Config, id: RQ.Id, n: nat): nat
    requires n <= |steps|
  {
    DeliveryCount(After(steps, cfg, n).history, id)
  }

  lemma CountIsHandOuts(steps: seq<Step>, cfg: Config, id: RQ.Id, n: nat)
    requires n <= |steps| && id in After(steps, cfg, n).requests.pending
    ensures RQ.TimesDelivered(After(steps, cfg, n).requests, id) == HandOuts(steps, cfg, id, n)
  {
    AfterKeepsInvariant(steps, cfg, n);
    assert CountOk(After(steps, cfg, n).requests, After(steps, cfg, n).history, id);
  }

  lemma OwnDelivery(steps: seq<Step>, cfg: Config, w: Worker, q: nat, id: RQ.Id)
    requires PoppedAt(steps, cfg, w, q, id)
    ensures RQ.TimesDelivered(After(steps, cfg, q + 1).requests, id) == HandOuts(steps, cfg, id, q + 1)
  {
    PoppedIsPending(After(steps, cfg, q), w, steps[q].outcome, cfg, id);
    CountIsHandOuts(steps, cfg, id, q + 1);
  }

  /** The count that exceeded the limit is the count of the worker's own delivery plus all hand-outs of the
      request since then, to whatever reader. So the failed delivery was over the limit itself exactly if
      taking these off leaves more than the limit; if there were none, it was. */
  lemma LimitCountsLaterHandOuts(steps: seq<Step>, cfg: Config, w: Worker, path: seq<nat>, n: nat, id: RQ.Id,
                                 msg: BuildRequest, facts: seq<Fact>)
    requires Call(steps, cfg, w, path, n, id, msg, facts) && cfg.maxTries >= 0
    requires facts == [Live, DiffFailed, Exceeded] || facts == [Live, DiffOk, PatchFailed, Exceeded]
    ensures path[0] + 1 < path[|facts|] < |steps|
    ensures var own := RQ.TimesDelivered(After(steps, cfg, path[0] + 1).requests, id);
            var later := HandOuts(steps, cfg, id, path[|facts|]) - HandOuts(steps, cfg, id, path[0] + 1);
            && RQ.TimesDelivered(After(steps, cfg, path[|facts|]).requests, id) == own + later > cfg.maxTries
            && (later == 0 ==> own > cfg.maxTries)
  {
    var g := path[|facts|];
    assert FoundAt(steps, cfg, w, path[|facts| - 1 + 1], facts[|facts| - 1], id, msg);
    assert NextIs(steps, w, path[0], path[1]) && NextIs(steps, w, path[1], path[2]);
    assert NextIs(steps, w, path[2], path[3]);
    assert |facts| == 4 ==> NextIs(steps, w, path[3], path[4]);
    OwnDelivery(steps, cfg, w, path[0], id);
    CountIsHandOuts(steps, cfg, id, g);
  }

  /** The worker finds the first message, and its diff does not apply. */
  const DIFF_FAILS: Outcome := Outcome([0], false, true, false, true, true, "")

  function FirstFailure(msg: BuildRequest, w: Worker): seq<Step> {
    [PushRequest(msg), Advance(w, DIFF_FAILS), Advance(w, DIFF_FAILS), Advance(w, DIFF_FAILS)]
  }

  /** Worker `w` gets the request and its diff fails; before it looks at the count, worker `v` is handed the
      request `n` times. */
  function Overtaking(msg: BuildRequest, w: Worker, v: Worker, cfg: Config, n: nat): seq<Step> {
    if n == 0 then FirstFailure(msg, w) else Overtaking(msg, w, v, cfg, n - 1) + Retry(v, cfg)
  }

  /** Worker `w` looks at the count at last, and acknowledges. */
  function GivingUp(msg: BuildRequest, w: Worker, v: Worker, cfg: Config, n: nat): seq<Step> {
    Overtaking(msg, w, v, cfg, n) + [Advance(w, DIFF_FAILS), Advance(w, DIFF_FAILS)]
  }

  lemma PopsFirst(sys: System, msg: BuildRequest, w: Worker, v: Worker, cfg: Config)
    requires sys == Next(INITIAL, PushRequest(msg), cfg) && v != w
    ensures PcOf(sys, w).Idle?
    ensures PcOf(Next(sys, Advance(w, DIFF_FAILS), cfg), w) == Popped(0)
    ensures HandedOut(Next(sys, Advance(w, DIFF_FAILS), cfg), msg, v, 1)
  {
  }

  lemma DiffFailsNext(sys: System, msg: BuildRequest, w: Worker, v: Worker, cfg: Config)
    requires msg.applyDiff && v != w && HandedOut(sys, msg, v, 1) && PcOf(sys, w) == Popped(0)
    ensures var sys1 := Next(sys, Advance(w, DIFF_FAILS), cfg);
            && PcOf(sys1, w) == TaskLive(0)
            && HandedOut(Next(sys1, Advance(w, DIFF_FAILS), cfg), msg, v, 1)
            && PcOf(Next(sys1, Advance(w, DIFF_FAILS), cfg), w) == Failed(0)
  {
  }

  lemma LooksAtCount(sys: System, msg: BuildRequest, w: Worker, v: Worker, cfg: Config, n: nat)
    requires HandedOut(sys, msg, v, n) && n > cfg.maxTries && n > 0 && PcOf(sys, w) == Failed(0)
    ensures var sys1 := Next(sys, Advance(w, DIFF_FAILS), cfg);
            var sys2 := Next(sys1, Advance(w, DIFF_FAILS), cfg);
            PcOf(sys1, w) == TriesExceeded(0) && 0 in sys2.requests.acked && sys2.requests.log == [msg]
  {
  }

  /** The diff of `w` has failed, and `v` holds the request, which was handed out `n` times in all. */
  ghost predicate Overtaken(sys: System, msg: BuildRequest, w: Worker, v: Worker, n: nat) {
    HandedOut(sys, msg, v, n) && PcOf(sys, w) == Failed(0)
  }

  lemma FirstDeliveryFails(steps: seq<Step>, msg: BuildRequest, w: Worker, v: Worker, cfg: Config)
    requires msg.applyDiff && v != w && FirstFailure(msg, w) <= steps
    ensures PcOf(After(steps, cfg, 1), w).Idle? && PcOf(After(steps, cfg, 2), w) == Popped(0)
    ensures HandedOut(After(steps, cfg, 2), msg, v, 1)
    ensures Overtaken(After(steps, cfg, 4), msg, w, v, 1)
  {
    assert forall i :: 0 <= i < 4 ==> steps[i] == FirstFailure(msg, w)[i];
    assert After(steps, cfg, 1) == Next(INITIAL, PushRequest(msg), cfg);
    PopsFirst(After(steps, cfg, 1), msg, w, v, cfg);
    assert After(steps, cfg, 2) == Next(After(steps, cfg, 1), Advance(w, DIFF_FAILS), cfg);
    DiffFailsNext(After(steps, cfg, 2), msg, w, v, cfg);
  }

  lemma RetryOvertakes(steps: seq<Step>, msg: BuildRequest, w: Worker, v: Worker, cfg: Config, n: nat)
    requires Overtaken(Run(steps, cfg), msg, w, v, n) && v != w
    ensures Overtaken(Run(steps + Retry(v, cfg), cfg), msg, w, v, n + 1)
  {
    var all := steps + Retry(v, cfg);
    RetryHandsOut(steps, msg, v, cfg, n);
    AfterInPrefix(steps, Retry(v, cfg), cfg, |steps|);
    PointStays(all, cfg, w, |steps|, |all|);
  }

  lemma {:induction false} StillFailed(msg: BuildRequest, w: Worker, v: Worker, cfg: Config, n: nat)
    requires msg.applyDiff && v != w
    ensures Overtaken(Run(Overtaking(msg, w, v, cfg, n), cfg), msg, w, v, n + 1)
  {
    if n == 0 {
      FirstDeliveryFails(FirstFailure(msg, w), msg, w, v, cfg);
    } else {
      StillFailed(msg, w, v, cfg, n - 1);
      RetryOvertakes(Overtaking(msg, w, v, cfg, n - 1), msg, w, v, cfg, n);
    }
  }

  /** After its first four steps the run is made of retries of `v`. */
  lemma {:induction false} OvertakingShape(msg: BuildRequest, w: Worker, v: Worker, cfg: Config, n: nat)
    ensures var steps := Overtaking(msg, w, v, cfg, n);
            && FirstFailure(msg, w) <= steps
            && forall i :: 4 <= i < |steps| ==> steps[i].Elapse? || steps[i] == Advance(v, BUILD_FAILS)
  {
    if n > 0 {
      OvertakingShape(msg, w, v, cfg, n - 1);
    }
  }

  lemma FailureFound(steps: seq<Step>, cfg: Config, u: Worker, i: nat, fact: Fact, msg: BuildRequest)
    requires FoundAt(steps, cfg, u, i, fact, 0, msg) && (fact == DiffFailed || fact == PatchFailed)
    requires steps[i].outcome == BUILD_FAILS || steps[i] == Advance(u, DIFF_FAILS)
    ensures fact == DiffFailed && steps[i] == Advance(u, DIFF_FAILS) && PcOf(After(steps, cfg, i), u).TaskLive?
  {
  }

  /** All steps of `w` come first or last, and at the first, second and last two of them no diff is applied. */
  ghost predicate FailsOnce(steps: seq<Step>, cfg: Config, w: Worker, v: Worker, n: nat) {
    && 4 <= n && |steps| == n + 2 && v != w && !steps[0].Advance?
    && (forall k :: 0 <= k < |steps| && steps[k].Advance? ==>
          steps[k] == if 4 <= k < n then Advance(v, BUILD_FAILS) else Advance(w, DIFF_FAILS))
    && !PcOf(After(steps, cfg, 1), w).TaskLive? && !PcOf(After(steps, cfg, 2), w).TaskLive?
    && !PcOf(After(steps, cfg, n), w).TaskLive? && !PcOf(After(steps, cfg, n + 1), w).TaskLive?
  }

  /** In such a run the only failure is found at the fourth step. */
  lemma OneFailureOnly(steps: seq<Step>, cfg: Config, msg: BuildRequest, w: Worker, v: Worker, n: nat, i: nat,
                       u: Worker, fact: Fact)
    requires fact == DiffFailed || fact == PatchFailed
    ensures FailsOnce(steps, cfg, w, v, n) && FoundAt(steps, cfg, u, i, fact, 0, msg) ==> fact == DiffFailed && i == 3
  {
    if FailsOnce(steps, cfg, w, v, n) && FoundAt(steps, cfg, u, i, fact, 0, msg) {
      FailureFound(steps, cfg, u, i, fact, msg);
      assert i == 1 || i == 2 || i == 3 || i == n || i == n + 1;
    }
  }

  lemma LastTwo(steps: seq<Step>, cfg: Config, k: nat, sys: System)
    requires |steps| == k + 2 && sys == After(steps, cfg, k)
    ensures After(steps, cfg, k + 1) == Next(sys, steps[k], cfg)
    ensures Run(steps, cfg) == Next(Next(sys, steps[k], cfg), steps[k + 1], cfg)
  {
    assert Run(steps, cfg) == Next(After(steps, cfg, k + 1), steps[k + 1], cfg);
  }

  lemma OvertakenBefore(msg: BuildRequest, w: Worker, v: Worker, cfg: Config, n: nat) returns (sys: System)
    requires msg.applyDiff && v != w
    ensures |GivingUp(msg, w, v, cfg, n)| == |Overtaking(msg, w, v, cfg, n)| + 2
    ensures sys == After(GivingUp(msg, w, v, cfg, n), cfg, |Overtaking(msg, w, v, cfg, n)|)
    ensures Overtaken(sys, msg, w, v, n + 1)
  {
    var failed := Overtaking(msg, w, v, cfg, n);
    StillFailed(msg, w, v, cfg, n);
    AfterInPrefix(failed, [Advance(w, DIFF_FAILS), Advance(w, DIFF_FAILS)], cfg, |failed|);
    sys := Run(failed, cfg);
  }

  lemma GivingUpRun(msg: BuildRequest, w: Worker, v: Worker, cfg: Config, n: nat)
    requires msg.applyDiff && v != w && n >= cfg.maxTries
    ensures var steps, k := GivingUp(msg, w, v, cfg, n), |Overtaking(msg, w, v, cfg, n)|;
            && PcOf(After(steps, cfg, k), w) == Failed(0)
            && PcOf(After(steps, cfg, k + 1), w) == TriesExceeded(0)
            && 0 in Run(steps, cfg).requests.acked
            && Run(steps, cfg).requests.log == [msg]
  {
    var steps, k := GivingUp(msg, w, v, cfg, n), |Overtaking(msg, w, v, cfg, n)|;
    var sys := OvertakenBefore(msg, w, v, cfg, n);
    LooksAtCount(sys, msg, w, v, cfg, n + 1);
    LastTwo(steps, cfg, k, sys);
  }

  /** So the limit does not speak of the failing delivery: for every limit of at least one there is a run in
      which a request is given up and acknowledged although its diff failed in one delivery only, its first. */
  lemma GivenUpOnFirstDelivery(msg: BuildRequest, w: Worker, v: Worker, cfg: Config)
    requires msg.applyDiff && v != w && cfg.maxTries >= 1
    ensures var steps := GivingUp(msg, w, v, cfg, cfg.maxTries);
            && 0 in Run(steps, cfg).requests.acked && Run(steps, cfg).requests.log == [msg]
            && PoppedAt(steps, cfg, w, 1, 0)
            && RQ.TimesDelivered(After(steps, cfg, 2).requests, 0) == 1
            && (forall i: nat, u: Worker :: FoundAt(steps, cfg, u, i, DiffFailed, 0, msg) ==> i == 3)
            && (forall i: nat, u: Worker :: !FoundAt(steps, cfg, u, i, PatchFailed, 0, msg))
  {
    var steps, k := GivingUp(msg, w, v, cfg, cfg.maxTries), |Overtaking(msg, w, v, cfg, cfg.maxTries)|;
    GivingUpRun(msg, w, v, cfg, cfg.maxTries);
    OvertakingShape(msg, w, v, cfg, cfg.maxTries);
    FirstDeliveryFails(steps, msg, w, v, cfg);
    ShapeOfGivingUp(steps, msg, w, v, cfg);
    assert FailsOnce(steps, cfg, w, v, k);
    forall i: nat, u: Worker, fact |
      FoundAt(steps, cfg, u, i, fact, 0, msg) && (fact == DiffFailed || fact == PatchFailed)
      ensures fact == DiffFailed && i == 3
    {
      OneFailureOnly(steps, cfg, msg, w, v, k, i, u, fact);
    }
  }

  lemma ShapeOfGivingUp(steps: seq<Step>, msg: BuildRequest, w: Worker, v: Worker, cfg: Config)
    requires cfg.maxTries >= 0 && steps == GivingUp(msg, w, v, cfg, cfg.maxTries)
    ensures var k := |Overtaking(msg, w, v, cfg, cfg.maxTries)|;
            && 4 <= k && |steps| == k + 2 && steps[0] == PushRequest(msg) && FirstFailure(msg, w) <= steps
            && forall i :: 0 <= i < |steps| && steps[i].Advance? ==>
                 steps[i] == if 4 <= i < k then Advance(v, BUILD_FAILS) else Advance(w, DIFF_FAILS)
  {
    OvertakingShape(msg, w, v, cfg, cfg.maxTries);
    assert forall i :: 0 <= i < 4 ==> steps[i] == FirstFailure(msg, w)[i];
  }
}
