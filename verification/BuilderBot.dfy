/** The build workers: each pops a request, checks its task, applies the challenge diff and the patch,
    builds, pushes the output and acknowledges, and may crash between any two of these. What the tools
    answer at each point is an outcome given from outside. */
module BuilderBot {
  import opened Outcomes
  import RQ = ReliableQueue

  type Worker = RQ.Reader

  datatype BuildRequest = BuildRequest(
    taskId: string, engine: string, sanitizer: string, buildType: nat, applyDiff: bool, patch: string, patchId: string)

  datatype BuildOutput = BuildOutput(
    taskId: string, engine: string, sanitizer: string, buildType: nat, applyDiff: bool, patchId: string,
    taskDir: string)

  function OutputFor(msg: BuildRequest, taskDir: string): BuildOutput {
    BuildOutput(msg.taskId, msg.engine, msg.sanitizer, msg.buildType, msg.applyDiff, msg.patchId, taskDir)
  }

  /** The output carries the request's fields and the directory. */
  ghost predicate IsOutputOf(output: BuildOutput, msg: BuildRequest, taskDir: string) {
    && output.taskId == msg.taskId
    && output.engine == msg.engine
    && output.sanitizer == msg.sanitizer
    && output.buildType == msg.buildType
    && output.applyDiff == msg.applyDiff
    && output.patchId == msg.patchId
    && output.taskDir == taskDir
  }

  datatype Config = Config(maxTries: int, taskTimeout: nat)

  /** `scan` is where XAUTOCLAIM looks; `shouldStop` is the registry's answer (cancelled or expired). */
  datatype Outcome = Outcome(
    scan: seq<RQ.Id>, shouldStop: bool, deltaMode: bool, diffOk: bool, patchOk: bool, buildOk: bool, taskDir: string)

  predicate DiffApplied(msg: BuildRequest, o: Outcome) {
    msg.applyDiff && o.deltaMode ==> o.diffOk
  }

  predicate PatchApplied(msg: BuildRequest, o: Outcome) {
    msg.patch != "" && msg.patchId != "" ==> o.patchOk
  }

  // ---- Many workers, one command at a time ----

  datatype Pc =
    | Idle
    | Popped(id: RQ.Id)
    | TaskStopped(id: RQ.Id)
    | TaskLive(id: RQ.Id)
    | DiffDone(id: RQ.Id)
    | Failed(id: RQ.Id)
    | TriesExceeded(id: RQ.Id)
    | PatchDone(id: RQ.Id)
    | Built(id: RQ.Id, taskDir: string)
    | OutputPushed(id: RQ.Id, taskDir: string)

  datatype Event = Delivered(id: RQ.Id) | SawStopped(id: RQ.Id) | GaveUp(id: RQ.Id)

  datatype System = System(
    requests: RQ.Stream<BuildRequest>, outputs: seq<BuildOutput>, workers: map<Worker, Pc>, history: seq<Event>)

  datatype Step =
    | Advance(worker: Worker, outcome: Outcome)
    | Crash(worker: Worker)
    | PushRequest(msg: BuildRequest)
    | Elapse(time: nat)
    | ClaimByHand(reader: RQ.Reader, id: RQ.Id, minIdle: nat)

  function PcOf(sys: System, w: Worker): Pc {
    if w in sys.workers then sys.workers[w] else Idle
  }

  function Goto(sys: System, w: Worker, pc: Pc): System {
    sys.(workers := sys.workers[w := pc])
  }

  function Log(sys: System, event: Event): System {
    sys.(history := sys.history + [event])
  }

  /** The request with a given id; ids outside the log are never asked for in a run. */
  function Request(sys: System, id: RQ.Id): Option<BuildRequest> {
    if id < |sys.requests.log| then Some(sys.requests.log[id]) else None
  }

  /** The next command of `serve_item` at the worker's current point. */
  function AdvanceWorker(sys: System, w: Worker, o: Outcome, cfg: Config): System {
    match PcOf(sys, w)
    case Idle =>
      var (stream, id) := RQ.PopFresh(sys.requests, w, cfg.taskTimeout, o.scan);
      var popped := sys.(requests := stream);
      if id.Some? then Goto(Log(popped, Delivered(id.value)), w, Popped(id.value)) else popped
    case Popped(id) =>
      if o.shouldStop then Goto(Log(sys, SawStopped(id)), w, TaskStopped(id)) else Goto(sys, w, TaskLive(id))
    case TaskLive(id) =>
      var msg := Request(sys, id);
      if msg.None? then sys else Goto(sys, w, if DiffApplied(msg.value, o) then DiffDone(id) else Failed(id))
    case DiffDone(id) =>
      var msg := Request(sys, id);
      if msg.None? then sys else Goto(sys, w, if PatchApplied(msg.value, o) then PatchDone(id) else Failed(id))
    case Failed(id) =>
      if RQ.TimesDelivered(sys.requests, id) > cfg.maxTries then Goto(Log(sys, GaveUp(id)), w, TriesExceeded(id))
      else Goto(sys, w, Idle)
    case PatchDone(id) => Goto(sys, w, if o.buildOk then Built(id, o.taskDir) else Idle)
    case Built(id, taskDir) =>
      var msg := Request(sys, id);
      if msg.None? then sys
      else Goto(sys.(outputs := sys.outputs + [OutputFor(msg.value, taskDir)]), w, OutputPushed(id, taskDir))
    case TaskStopped(id) => Goto(sys.(requests := RQ.Ack(sys.requests, id)), w, Idle)
    case TriesExceeded(id) => Goto(sys.(requests := RQ.Ack(sys.requests, id)), w, Idle)
    case OutputPushed(id, _) => Goto(sys.(requests := RQ.Ack(sys.requests, id)), w, Idle)
  }

  function Next(sys: System, step: Step, cfg: Config): System {
    match step
    case Advance(w, o) => AdvanceWorker(sys, w, o, cfg)
    case Crash(w) => Goto(sys, w, Idle)
    case PushRequest(msg) => sys.(requests := RQ.Add(sys.requests, msg))
    case Elapse(time) => sys.(requests := RQ.Wait(sys.requests, time))
    case ClaimByHand(reader, id, minIdle) =>
      var claimed := sys.(requests := RQ.Claim(sys.requests, reader, id, minIdle));
      if RQ.Claimable(sys.requests, id, minIdle) then Log(claimed, Delivered(id)) else claimed
  }

  const INITIAL: System := System(RQ.EmptyStream(), [], map[], [])

  /** The system after the first `n` steps. */
  function After(steps: seq<Step>, cfg: Config, n: nat): System
    requires n <= |steps|
  {
    if n == 0 then INITIAL else Next(After(steps, cfg, n - 1), steps[n - 1], cfg)
  }

  function Run(steps: seq<Step>, cfg: Config): System {
    After(steps, cfg, |steps|)
  }

  lemma {:induction false} AfterInPrefix(steps: seq<Step>, more: seq<Step>, cfg: Config, n: nat)
    requires n <= |steps|
    ensures After(steps + more, cfg, n) == After(steps, cfg, n)
    decreases n
  {
    if n > 0 {
      AfterInPrefix(steps, more, cfg, n - 1);
    }
  }

  // ---- Why a request may be acknowledged ----

  /** How often a request had been handed out. */
  function DeliveryCount(history: seq<Event>, id: RQ.Id): nat {
    if history == [] then 0
    else DeliveryCount(history[..|history| - 1], id) + if history[|history| - 1] == Delivered(id) then 1 else 0
  }

  /** An output that carries the request's task, engine, sanitizer, type, diff flag and patch id was pushed. */
  ghost predicate HasOutput(sys: System, id: RQ.Id) {
    && id < |sys.requests.log|
    && exists output :: output in sys.outputs && IsOutputOf(output, sys.requests.log[id], output.taskDir)
  }

  /** The request was given up when it had been handed out more than `maxTries` times. */
  ghost predicate GaveUpAt(history: seq<Event>, i: nat, id: RQ.Id, cfg: Config)
    requires i < |history|
  {
    history[i] == GaveUp(id) && DeliveryCount(history[..i], id) > cfg.maxTries
  }

  /** The request was given up at some point for that reason. */
  ghost predicate RanOutOfTries(sys: System, id: RQ.Id, cfg: Config) {
    exists i :: 0 <= i < |sys.history| && GaveUpAt(sys.history, i, id, cfg)
  }

  ghost predicate Justified(sys: System, id: RQ.Id, cfg: Config) {
    SawStopped(id) in sys.history || HasOutput(sys, id) || RanOutOfTries(sys, id, cfg)
  }

  ghost predicate PcOk(sys: System, pc: Pc, cfg: Config) {
    match pc
    case Idle => true
    case TaskStopped(id) => SawStopped(id) in sys.history
    case TriesExceeded(id) => RanOutOfTries(sys, id, cfg)
    case OutputPushed(id, taskDir) =>
      id < |sys.requests.log| && OutputFor(sys.requests.log[id], taskDir) in sys.outputs
    case _ => pc.id < sys.requests.next
  }

  ghost predicate Invariant(sys: System, cfg: Config) {
    && RQ.Invariant(sys.requests)
    && (forall id: RQ.Id :: CountOk(sys.requests, sys.history, id))
    && (forall w :: w in sys.workers ==> PcOk(sys, sys.workers[w], cfg))
    && (forall id: RQ.Id :: id in sys.requests.acked ==> Justified(sys, id, cfg))
  }

  /** `sys'` comes after `sys`: logs have only grown. */
  ghost predicate Later(sys: System, sys': System) {
    && sys.requests.log <= sys'.requests.log
    && sys.requests.next <= sys'.requests.next
    && sys.outputs <= sys'.outputs
    && sys.history <= sys'.history
  }

  lemma JustificationStays(sys: System, sys': System, id: RQ.Id, cfg: Config)
    requires Later(sys, sys')
    ensures SawStopped(id) in sys.history ==> SawStopped(id) in sys'.history
    ensures HasOutput(sys, id) ==> HasOutput(sys', id)
    ensures RanOutOfTries(sys, id, cfg) ==> RanOutOfTries(sys', id, cfg)
  {
    if RanOutOfTries(sys, id, cfg) {
      var i :| 0 <= i < |sys.history| && GaveUpAt(sys.history, i, id, cfg);
      assert sys'.history[..i] == sys.history[..i];
      assert GaveUpAt(sys'.history, i, id, cfg);
    }
    if HasOutput(sys, id) {
      var output :| output in sys.outputs && IsOutputOf(output, sys.requests.log[id], output.taskDir);
      assert output in sys'.outputs;
    }
  }

  lemma PcStaysOk(sys: System, sys': System, pc: Pc, cfg: Config)
    requires Later(sys, sys') && PcOk(sys, pc, cfg)
    ensures PcOk(sys', pc, cfg)
  {
    if !pc.Idle? {
      JustificationStays(sys, sys', pc.id, cfg);
    }
  }

  /** Every step acts on the request queue as some queue step does, and logs what that step delivers. */
  lemma QueueStepOf(sys: System, step: Step, cfg: Config) returns (q: RQ.Step<BuildRequest>, e: Option<Event>)
    ensures Next(sys, step, cfg).requests == RQ.Next(sys.requests, q)
    ensures Next(sys, step, cfg).history == if e.Some? then sys.history + [e.value] else sys.history
    ensures RQ.Delivers(sys.requests, q) == if e.Some? && e.value.Delivered? then Some(e.value.id) else None
    ensures sys.outputs <= Next(sys, step, cfg).outputs
  {
    var sys' := Next(sys, step, cfg);
    match step {
      case Advance(w, o) =>
        match PcOf(sys, w) {
          case Idle => q := RQ.PopStep(w, RQ.New, cfg.taskTimeout, o.scan);
          case TaskStopped(id) => q := RQ.AckStep(id);
          case TriesExceeded(id) => q := RQ.AckStep(id);
          case OutputPushed(id, _) => q := RQ.AckStep(id);
          case _ => q := RQ.Tick(0);
        }
      case Crash(_) => q := RQ.Tick(0);
      case PushRequest(msg) => q := RQ.PushStep(msg);
      case Elapse(time) => q := RQ.Tick(time);
      case ClaimByHand(reader, id, minIdle) => q := RQ.ClaimStep(reader, id, minIdle);
    }
    e := if |sys'.history| > |sys.history| then Some(sys'.history[|sys.history|]) else None;
  }

  lemma NextIsLater(sys: System, step: Step, cfg: Config)
    requires RQ.Invariant(sys.requests)
    ensures Later(sys, Next(sys, step, cfg))
    ensures RQ.Invariant(Next(sys, step, cfg).requests)
  {
    var q, e := QueueStepOf(sys, step, cfg);
    RQ.NextKeepsInvariant(sys.requests, q);
    RQ.NextIsLater(sys.requests, q);
  }

  /** The count in the pending table is the number of deliveries logged. */
  ghost predicate CountOk(requests: RQ.Stream<BuildRequest>, history: seq<Event>, id: RQ.Id) {
    && (id in requests.pending ==> requests.pending[id].count == DeliveryCount(history, id))
    && (id >= requests.next ==> DeliveryCount(history, id) == 0)
  }

  lemma CountFollows(sys: System, step: Step, cfg: Config, id: RQ.Id)
    requires RQ.Invariant(sys.requests) && CountOk(sys.requests, sys.history, id)
    ensures CountOk(Next(sys, step, cfg).requests, Next(sys, step, cfg).history, id)
  {
    var q, e := QueueStepOf(sys, step, cfg);
    RQ.CountStep(sys.requests, q, id);
    if e.Some? {
      assert (sys.history + [e.value])[..|sys.history|] == sys.history;
    }
    RQ.NextIsLater(sys.requests, q);
  }

  /** The worker that a step moves is where its next point allows it to be. */
  lemma MovedWorkerOk(sys: System, w: Worker, o: Outcome, cfg: Config)
    requires Invariant(sys, cfg)
    ensures PcOk(AdvanceWorker(sys, w, o, cfg), PcOf(AdvanceWorker(sys, w, o, cfg), w), cfg)
  {
    var sys' := AdvanceWorker(sys, w, o, cfg);
    NextIsLater(sys, Advance(w, o), cfg);
    assert PcOk(sys, PcOf(sys, w), cfg);
    match PcOf(sys, w)
    case Popped(id) =>
      if o.shouldStop {
        assert sys'.history[|sys.history|] == SawStopped(id);
      }
    case Failed(id) =>
      assert CountOk(sys.requests, sys.history, id);
      if PcOf(sys', w).TriesExceeded? {
        assert sys'.history[..|sys.history|] == sys.history;
        assert GaveUpAt(sys'.history, |sys.history|, id, cfg);
      }
    case Built(id, taskDir) =>
      assert sys'.outputs[|sys.outputs|] == OutputFor(sys.requests.log[id], taskDir);
      assert OutputFor(sys.requests.log[id], taskDir) in sys'.outputs;
    case _ =>
  }

  predicate Moves(step: Step, w: Worker) {
    (step.Advance? || step.Crash?) && step.worker == w
  }

  lemma OthersStay(sys: System, step: Step, cfg: Config, w: Worker)
    ensures !Moves(step, w) ==> PcOf(Next(sys, step, cfg), w) == PcOf(sys, w)
    ensures step.Crash? && step.worker == w ==> PcOf(Next(sys, step, cfg), w).Idle?
  {
  }

  lemma OtherWorkerOk(sys: System, sys': System, cfg: Config, w: Worker)
    requires Invariant(sys, cfg) && Later(sys, sys')
    requires PcOf(sys', w) == PcOf(sys, w) || PcOf(sys', w).Idle?
    ensures PcOk(sys', PcOf(sys', w), cfg)
  {
    PcStaysOk(sys, sys', PcOf(sys, w), cfg);
  }

  lemma WorkerStaysOk(sys: System, step: Step, cfg: Config, w: Worker)
    requires Invariant(sys, cfg)
    ensures PcOk(Next(sys, step, cfg), PcOf(Next(sys, step, cfg), w), cfg)
  {
    if step.Advance? && step.worker == w {
      MovedWorkerOk(sys, w, step.outcome, cfg);
    } else {
      NextIsLater(sys, step, cfg);
      OthersStay(sys, step, cfg, w);
      OtherWorkerOk(sys, Next(sys, step, cfg), cfg, w);
    }
  }

  lemma AckedStaysJustified(sys: System, step: Step, cfg: Config, id: RQ.Id)
    requires Invariant(sys, cfg) && id in Next(sys, step, cfg).requests.acked
    ensures Justified(Next(sys, step, cfg), id, cfg)
  {
    NextIsLater(sys, step, cfg);
    JustificationStays(sys, Next(sys, step, cfg), id, cfg);
    if id !in sys.requests.acked {
      assert PcOk(sys, PcOf(sys, step.worker), cfg);
    }
  }

  lemma NextKeepsInvariant(sys: System, step: Step, cfg: Config)
    requires Invariant(sys, cfg)
    ensures Invariant(Next(sys, step, cfg), cfg)
  {
    var sys' := Next(sys, step, cfg);
    NextIsLater(sys, step, cfg);
    forall id: RQ.Id
      ensures CountOk(sys'.requests, sys'.history, id)
    {
      CountFollows(sys, step, cfg, id);
    }
    forall w | w in sys'.workers
      ensures PcOk(sys', sys'.workers[w], cfg)
    {
      WorkerStaysOk(sys, step, cfg, w);
    }
    forall id: RQ.Id | id in sys'.requests.acked
      ensures Justified(sys', id, cfg)
    {
      AckedStaysJustified(sys, step, cfg, id);
    }
  }

  lemma {:induction false} AfterKeepsInvariant(steps: seq<Step>, cfg: Config, n: nat)
    requires n <= |steps|
    ensures Invariant(After(steps, cfg, n), cfg)
    decreases n
  {
    if n > 0 {
      AfterKeepsInvariant(steps, cfg, n - 1);
      NextKeepsInvariant(After(steps, cfg, n - 1), steps[n - 1], cfg);
    }
  }

  lemma RunKeepsInvariant(steps: seq<Step>, cfg: Config)
    ensures Invariant(Run(steps, cfg), cfg)
  {
    AfterKeepsInvariant(steps, cfg, |steps|);
  }

  /** In every run with any interleaving, crashes and redeliveries, a request that is neither still to be
      delivered nor pending was acknowledged for one of the three reasons. */
  lemma EveryRequestIsKeptOrJustified(steps: seq<Step>, cfg: Config, id: RQ.Id)
    requires id < |Run(steps, cfg).requests.log|
    ensures var sys := Run(steps, cfg);
            || RQ.Undelivered(sys.requests, id)
            || id in sys.requests.pending
            || (id in sys.requests.acked && Justified(sys, id, cfg))
  {
    RunKeepsInvariant(steps, cfg);
  }

  // ---- serve_item ----

  /** What one call does when no other worker acts during it: the new streams and the returned flag. */
  function ServeItem(requests: RQ.Stream<BuildRequest>, outputs: seq<BuildOutput>, w: Worker, o: Outcome, cfg: Config)
    : (RQ.Stream<BuildRequest>, seq<BuildOutput>, bool)
    requires RQ.Invariant(requests)
  {
    var (stream, item) := RQ.PopFresh(requests, w, cfg.taskTimeout, o.scan);
    if item.None? then (stream, outputs, false)
    else
      var id := item.value;
      var msg := stream.log[id];
      if o.shouldStop then (RQ.Ack(stream, id), outputs, false)
      else if !DiffApplied(msg, o) || !PatchApplied(msg, o) then
        (if RQ.TimesDelivered(stream, id) > cfg.maxTries then RQ.Ack(stream, id) else stream, outputs, true)
      else if !o.buildOk then (stream, outputs, true)
      else (RQ.Ack(stream, id), outputs + [OutputFor(msg, o.taskDir)], true)
  }

  predicate FailsToApply(msg: BuildRequest, o: Outcome) {
    || (msg.applyDiff && o.deltaMode && !o.diffOk)
    || (msg.patch != "" && msg.patchId != "" && !o.patchOk)
  }

  /** What a call comes to, case by case: nothing was popped; the task was stopped; a diff or patch failed; the
      build failed; or one output with the request's fields was pushed. */
  lemma ServeItemCases(requests: RQ.Stream<BuildRequest>, outputs: seq<BuildOutput>, w: Worker, o: Outcome, cfg: Config)
    requires RQ.Invariant(requests)
    ensures var (popped, item) := RQ.PopFresh(requests, w, cfg.taskTimeout, o.scan);
            var (requests', outputs', worked) := ServeItem(requests, outputs, w, o, cfg);
            && (item.None? ==> !worked && requests' == popped && outputs' == outputs)
            && (item.Some? ==>
                  && var id, msg := item.value, popped.log[item.value];
                  && id in popped.pending
                  && (worked <==> !o.shouldStop)
                  && (id in requests'.acked <==>
                        || o.shouldStop
                        || (FailsToApply(msg, o) && popped.pending[id].count > cfg.maxTries)
                        || (!FailsToApply(msg, o) && o.buildOk))
                  && requests' == (if id in requests'.acked then RQ.Ack(popped, id) else popped)
                  && (!o.shouldStop && !FailsToApply(msg, o) && o.buildOk ==>
                        && |outputs'| == |outputs| + 1
                        && outputs <= outputs'
                        && IsOutputOf(outputs'[|outputs|], msg, o.taskDir))
                  && (o.shouldStop || FailsToApply(msg, o) || !o.buildOk ==> outputs' == outputs))
  {
  }

  function Advances(w: Worker, o: Outcome, n: nat): seq<Step> {
    seq(n, _ => Advance(w, o))
  }

  /** `n` more steps of one worker with the same outcome. */
  function Continue(sys: System, w: Worker, o: Outcome, cfg: Config, n: nat): System
    decreases n
  {
    if n == 0 then sys else Continue(Next(sys, Advance(w, o), cfg), w, o, cfg, n - 1)
  }

  lemma RunOfLast(steps: seq<Step>, cfg: Config, sys: System)
    requires steps != [] && sys == After(steps, cfg, |steps| - 1)
    ensures Run(steps, cfg) == Next(sys, steps[|steps| - 1], cfg)
  {
  }

  lemma RunOneMore(steps: seq<Step>, step: Step, cfg: Config)
    ensures Run(steps + [step], cfg) == Next(Run(steps, cfg), step, cfg)
  {
    AfterInPrefix(steps, [step], cfg, |steps|);
    RunOfLast(steps + [step], cfg, Run(steps, cfg));
  }

  lemma {:induction false} ContinueIsARun(steps: seq<Step>, w: Worker, o: Outcome, cfg: Config, n: nat)
    ensures Run(steps + Advances(w, o, n), cfg) == Continue(Run(steps, cfg), w, o, cfg, n)
    decreases n
  {
    if n == 0 {
      assert steps + Advances(w, o, 0) == steps;
    } else {
      RunOneMore(steps, Advance(w, o), cfg);
      ContinueIsARun(steps + [Advance(w, o)], w, o, cfg, n - 1);
      assert steps + Advances(w, o, n) == steps + [Advance(w, o)] + Advances(w, o, n - 1);
    }
  }

  /** The worker has come to rest with these streams after `n` steps. */
  ghost predicate RestsAt(sys: System, w: Worker, o: Outcome, cfg: Config, n: nat,
                          requests: RQ.Stream<BuildRequest>, outputs: seq<BuildOutput>)
  {
    var sys' := Continue(sys, w, o, cfg, n);
    sys'.requests == requests && sys'.outputs == outputs && PcOf(sys', w).Idle?
  }

  lemma OneStepEarlier(sys: System, w: Worker, o: Outcome, cfg: Config, n: nat,
                       requests: RQ.Stream<BuildRequest>, outputs: seq<BuildOutput>)
    requires RestsAt(Next(sys, Advance(w, o), cfg), w, o, cfg, n, requests, outputs)
    ensures RestsAt(sys, w, o, cfg, n + 1, requests, outputs)
  {
    assert Continue(sys, w, o, cfg, n + 1) == Continue(Next(sys, Advance(w, o), cfg), w, o, cfg, n);
  }

  /** What is left of a call at each point of it. */
  function Rest(sys: System, w: Worker, o: Outcome, cfg: Config): (RQ.Stream<BuildRequest>, seq<BuildOutput>)
    requires !PcOf(sys, w).Idle? && PcOf(sys, w).id < |sys.requests.log|
  {
    var id, requests, outputs := PcOf(sys, w).id, sys.requests, sys.outputs;
    var msg := requests.log[id];
    var failed := (if RQ.TimesDelivered(requests, id) > cfg.maxTries then RQ.Ack(requests, id) else requests, outputs);
    var built := if o.buildOk then (RQ.Ack(requests, id), outputs + [OutputFor(msg, o.taskDir)])
                 else (requests, outputs);
    match PcOf(sys, w)
    case Popped(_) =>
      if o.shouldStop then (RQ.Ack(requests, id), outputs)
      else if !DiffApplied(msg, o) || !PatchApplied(msg, o) then failed else built
    case TaskLive(_) => if !DiffApplied(msg, o) || !PatchApplied(msg, o) then failed else built
    case DiffDone(_) => if !PatchApplied(msg, o) then failed else built
    case Failed(_) => failed
    case PatchDone(_) => built
    case Built(_, taskDir) => (RQ.Ack(requests, id), outputs + [OutputFor(msg, taskDir)])
    case _ => (RQ.Ack(requests, id), outputs)
  }

  function StepsLeft(pc: Pc): nat {
    match pc
    case Idle => 0
    case Popped(_) => 6
    case TaskLive(_) => 5
    case DiffDone(_) => 4
    case PatchDone(_) => 3
    case Failed(_) => 2
    case Built(_, _) => 2
    case _ => 1
  }

  /** One step of a call brings its end nearer and does not change what it comes to. */
  ghost predicate Progress(sys: System, w: Worker, o: Outcome, cfg: Config)
    requires !PcOf(sys, w).Idle? && PcOf(sys, w).id < |sys.requests.log|
  {
    var sys' := Next(sys, Advance(w, o), cfg);
    && StepsLeft(PcOf(sys', w)) < StepsLeft(PcOf(sys, w))
    && if PcOf(sys', w).Idle? then Rest(sys, w, o, cfg) == (sys'.requests, sys'.outputs)
       else PcOf(sys', w).id < |sys'.requests.log| && Rest(sys', w, o, cfg) == Rest(sys, w, o, cfg)
  }

  lemma ChecksProgress(sys: System, w: Worker, o: Outcome, cfg: Config)
    requires PcOf(sys, w).Popped? || PcOf(sys, w).TaskLive? || PcOf(sys, w).DiffDone?
    requires PcOf(sys, w).id < |sys.requests.log|
    ensures Progress(sys, w, o, cfg)
  {
  }

  lemma EndProgresses(sys: System, w: Worker, o: Outcome, cfg: Config)
    requires !PcOf(sys, w).Idle? && PcOf(sys, w).id < |sys.requests.log|
    requires !(PcOf(sys, w).Popped? || PcOf(sys, w).TaskLive? || PcOf(sys, w).DiffDone?)
    ensures Progress(sys, w, o, cfg)
  {
  }

  lemma {:induction false} WorkerComesToRest(sys: System, w: Worker, o: Outcome, cfg: Config) returns (n: nat)
    requires !PcOf(sys, w).Idle? && PcOf(sys, w).id < |sys.requests.log|
    ensures n <= StepsLeft(PcOf(sys, w))
    ensures RestsAt(sys, w, o, cfg, n, Rest(sys, w, o, cfg).0, Rest(sys, w, o, cfg).1)
    decreases StepsLeft(PcOf(sys, w))
  {
    if PcOf(sys, w).Popped? || PcOf(sys, w).TaskLive? || PcOf(sys, w).DiffDone? {
      ChecksProgress(sys, w, o, cfg);
    } else {
      EndProgresses(sys, w, o, cfg);
    }
    var sys' := Next(sys, Advance(w, o), cfg);
    var (requests, outputs) := Rest(sys, w, o, cfg);
    if PcOf(sys', w).Idle? {
      n := 0;
    } else {
      n := WorkerComesToRest(sys', w, o, cfg);
    }
    OneStepEarlier(sys, w, o, cfg, n, requests, outputs);
    n := n + 1;
  }

  lemma PopFollows(sys: System, w: Worker, o: Outcome, cfg: Config)
    requires PcOf(sys, w).Idle? && RQ.Invariant(sys.requests)
    ensures var sys' := Next(sys, Advance(w, o), cfg);
            var (requests, outputs, _) := ServeItem(sys.requests, sys.outputs, w, o, cfg);
            if PcOf(sys', w).Idle? then sys'.requests == requests && sys'.outputs == outputs
            else && PcOf(sys', w).Popped?
                 && PcOf(sys', w).id < |sys'.requests.log|
                 && Rest(sys', w, o, cfg) == (requests, outputs)
  {
  }

  lemma ServeItemRests(sys: System, w: Worker, o: Outcome, cfg: Config) returns (n: nat)
    requires PcOf(sys, w).Idle? && RQ.Invariant(sys.requests)
    ensures n <= 7
    ensures RestsAt(sys, w, o, cfg, n, ServeItem(sys.requests, sys.outputs, w, o, cfg).0,
                                       ServeItem(sys.requests, sys.outputs, w, o, cfg).1)
  {
    var sys' := Next(sys, Advance(w, o), cfg);
    var (requests, outputs, _) := ServeItem(sys.requests, sys.outputs, w, o, cfg);
    PopFollows(sys, w, o, cfg);
    if PcOf(sys', w).Idle? {
      n := 0;
    } else {
      n := WorkerComesToRest(sys', w, o, cfg);
    }
    OneStepEarlier(sys, w, o, cfg, n, requests, outputs);
    n := n + 1;
  }

  /** An undisturbed call is at most seven steps of the worker, after which it is idle again: what holds of
      all runs holds of runs made of calls. */
  lemma ServeItemIsARun(steps: seq<Step>, w: Worker, o: Outcome, cfg: Config) returns (n: nat)
    requires PcOf(Run(steps, cfg), w).Idle?
    ensures n <= 7 && RQ.Invariant(Run(steps, cfg).requests)
    ensures var sys, sys' := Run(steps, cfg), Run(steps + Advances(w, o, n), cfg);
            var (requests, outputs, _) := ServeItem(sys.requests, sys.outputs, w, o, cfg);
            sys'.requests == requests && sys'.outputs == outputs && PcOf(sys', w).Idle?
  {
    RunKeepsInvariant(steps, cfg);
    n := ServeItemRests(Run(steps, cfg), w, o, cfg);
    ContinueIsARun(steps, w, o, cfg, n);
  }

  class BuilderBot {
    const requests: RQ.ReliableQueue<BuildRequest>
    const outputs: RQ.RedisStream<BuildOutput>
    const maxTries: int

    constructor (requests: RQ.ReliableQueue<BuildRequest>, outputs: RQ.RedisStream<BuildOutput>, maxTries: int)
      ensures this.requests == requests && this.outputs == outputs && this.maxTries == maxTries
    {
      this.requests, this.outputs, this.maxTries := requests, outputs, maxTries;
    }

    method ApplyChallengeDiff(msg: BuildRequest, o: Outcome) returns (ok: bool)
      ensures ok == DiffApplied(msg, o)
      ensures !ok <==> msg.applyDiff && o.deltaMode && !o.diffOk
    {
      if msg.applyDiff && o.deltaMode {
        if !o.diffOk {
          return false;
        }
      }
      return true;
    }

    method ApplyPatch(msg: BuildRequest, o: Outcome) returns (ok: bool)
      ensures ok == PatchApplied(msg, o)
      ensures !ok <==> msg.patch != "" && msg.patchId != "" && !o.patchOk
    {
      if msg.patch != "" && msg.patchId != "" {
        if !o.patchOk {
          return false;
        }
      }
      return true;
    }

    method AckIfTriesExceeded(id: RQ.Id)
      modifies requests.redis`pending, requests.redis`acked
      ensures requests.redis.View()
           == if RQ.TimesDelivered(old(requests.redis.View()), id) > maxTries
              then RQ.Ack(old(requests.redis.View()), id)
              else old(requests.redis.View())
    {
      var times := requests.GetTimesDelivered(id);
      if times > maxTries {
        requests.AckItem(id);
      }
    }

    method Serve(o: Outcome) returns (worked: bool)
      requires RQ.Invariant(requests.redis.View()) && requests.lastStreamId == RQ.New
      modifies requests, requests.redis, outputs`log
      ensures (requests.redis.View(), outputs.log, worked)
           == ServeItem(old(requests.redis.View()), old(outputs.log), requests.reader, o,
                        Config(maxTries, requests.taskTimeout))
      ensures requests.lastStreamId == RQ.New
      ensures var (popped, item) :=
                RQ.PopFresh(old(requests.redis.View()), requests.reader, requests.taskTimeout, o.scan);
              item.Some? && !o.shouldStop && !FailsToApply(popped.log[item.value], o) && o.buildOk ==>
                && var output, msg := outputs.log[|outputs.log| - 1], popped.log[item.value];
                && outputs.log == old(outputs.log) + [output]
                && output.taskId == msg.taskId
                && output.engine == msg.engine && output.sanitizer == msg.sanitizer
                && output.buildType == msg.buildType && output.applyDiff == msg.applyDiff
                && output.patchId == msg.patchId && output.taskDir == o.taskDir
    {
      ServeItemCases(requests.redis.View(), outputs.log, requests.reader, o, Config(maxTries, requests.taskTimeout));
      var item := requests.PopItem(o.scan);
      if item.None? {
        return false;
      }
      var id := item.value;
      assert id < |requests.redis.log|;
      var msg := requests.redis.log[id];
      if o.shouldStop {
        requests.AckItem(id);
        return false;
      }
      var diffOk := ApplyChallengeDiff(msg, o);
      if !diffOk {
        AckIfTriesExceeded(id);
        return true;
      }
      var patchOk := ApplyPatch(msg, o);
      if !patchOk {
        AckIfTriesExceeded(id);
        return true;
      }
      if !o.buildOk {
        return true;
      }
      outputs.log := outputs.log + [OutputFor(msg, o.taskDir)];
      requests.AckItem(id);
      return true;
    }
  }
}
