/** The reliable queue: one Redis stream with one consumer group, and readers that pop, acknowledge and
    claim. The stream commands are modelled by their documented effect on a log, the group's
    last-delivered position and its table of pending entries. A message id is its position in the log. */
module ReliableQueue {
  import opened Outcomes

  type Id = nat
  type Reader = nat

  datatype Entry = Entry(owner: Reader, deliveredAt: nat, count: nat)

  /** `acked` is history: the ids that were pending and then acknowledged. */
  datatype Stream<M> = Stream(log: seq<M>, next: nat, pending: map<Id, Entry>, acked: set<Id>, now: nat)

  function EmptyStream<M>(): Stream<M> {
    Stream([], 0, map[], {}, 0)
  }

  function Idle<M>(s: Stream<M>, id: Id): int
    requires id in s.pending
  {
    s.now - s.pending[id].deliveredAt
  }

  // ---- The stream commands ----

  /** A delivery of a pending entry to `reader` restarts its idle time and counts. */
  function Redeliver<M>(s: Stream<M>, reader: Reader, id: Id): Stream<M>
    requires id in s.pending
  {
    s.(pending := s.pending[id := Entry(reader, s.now, s.pending[id].count + 1)])
  }

  /** XADD. */
  function Add<M>(s: Stream<M>, msg: M): Stream<M> {
    s.(log := s.log + [msg])
  }

  function Wait<M>(s: Stream<M>, elapsed: nat): Stream<M> {
    s.(now := s.now + elapsed)
  }

  /** XREADGROUP with ">": the next message nobody was given yet. */
  function ReadNew<M>(s: Stream<M>, reader: Reader): (Stream<M>, Option<Id>) {
    if s.next < |s.log| then
      (s.(next := s.next + 1, pending := s.pending[s.next := Entry(reader, s.now, 1)]), Some(s.next))
    else (s, None)
  }

  /** XREADGROUP with an id: the first entry of the reader's own from there on. */
  function ReadOwn<M>(s: Stream<M>, reader: Reader, from: nat): (Stream<M>, Option<Id>) {
    var id := OwnPending(s, reader, from);
    (if id.Some? then Redeliver(s, reader, id.value) else s, id)
  }

  /** The first id from `from` on that is pending for `reader`. */
  function OwnPending<M>(s: Stream<M>, reader: Reader, from: nat): (id: Option<Id>)
    ensures id.Some? ==> from <= id.value && id.value in s.pending && s.pending[id.value].owner == reader
    ensures forall i :: from <= i < s.next && i in s.pending && s.pending[i].owner == reader ==>
              id.Some? && id.value <= i
    decreases s.next - from
  {
    if from >= s.next then None
    else if from in s.pending && s.pending[from].owner == reader then Some(from)
    else OwnPending(s, reader, from + 1)
  }

  /** XAUTOCLAIM looks at some of the pending entries only: here, at the ids in `scan`. */
  function FirstIdle<M>(s: Stream<M>, scan: seq<Id>, minIdle: nat): (id: Option<Id>)
    ensures id.Some? ==> id.value in scan && id.value in s.pending && Idle(s, id.value) >= minIdle
  {
    if scan == [] then None
    else if scan[0] in s.pending && Idle(s, scan[0]) >= minIdle then Some(scan[0])
    else FirstIdle(s, scan[1..], minIdle)
  }

  function AutoClaim<M>(s: Stream<M>, reader: Reader, scan: seq<Id>, minIdle: nat): (Stream<M>, Option<Id>) {
    var id := FirstIdle(s, scan, minIdle);
    if id.Some? then (Redeliver(s, reader, id.value), id) else (s, None)
  }

  /** XACK takes an entry out of the pending table, whoever owns it, and does nothing to other ids. */
  function Ack<M>(s: Stream<M>, id: Id): Stream<M> {
    if id in s.pending then s.(pending := s.pending - {id}, acked := s.acked + {id}) else s
  }

  /** XCLAIM. */
  function Claim<M>(s: Stream<M>, reader: Reader, id: Id, minIdle: nat): Stream<M> {
    if Claimable(s, id, minIdle) then Redeliver(s, reader, id) else s
  }

  predicate Claimable<M>(s: Stream<M>, id: Id, minIdle: nat) {
    id in s.pending && Idle(s, id) >= minIdle
  }

  function TimesDelivered<M>(s: Stream<M>, id: Id): nat {
    if id in s.pending then s.pending[id].count else 0
  }

  // ---- pop ----

  /** `last_stream_id`: ">" or an id after which the reader wants its own pending entries first. */
  datatype Position = New | From(first: nat)

  /** A new message, and only when there is none an entry that has been idle for the timeout. */
  function PopFresh<M>(s: Stream<M>, reader: Reader, timeout: nat, scan: seq<Id>): (Stream<M>, Option<Id>) {
    var (s1, unseen) := ReadNew(s, reader);
    if unseen.Some? then (s1, unseen) else AutoClaim(s, reader, scan, timeout)
  }

  /** `pop`: own pending entries while the position asks for them, then fresh ones. */
  function Pop<M>(s: Stream<M>, reader: Reader, last: Position, timeout: nat, scan: seq<Id>)
    : (Stream<M>, Position, Option<Id>)
  {
    if last.From? && OwnPending(s, reader, last.first).Some? then
      var (s1, own) := ReadOwn(s, reader, last.first);
      (s1, last, own)
    else
      var (s1, id) := PopFresh(s, reader, timeout, scan);
      (s1, New, id)
  }

  // ---- Runs of any number of readers ----

  /** A pop without interruption, and the single commands of pops that other readers may interrupt. Each
      brings its reader's position, timeout and scan along, so readers may differ in all three. */
  datatype Step<M> =
    | PushStep(msg: M)
    | PopStep(reader: Reader, last: Position, timeout: nat, scan: seq<Id>)
    | ReadNewStep(reader: Reader)
    | ReadOwnStep(reader: Reader, first: nat)
    | AutoClaimStep(reader: Reader, timeout: nat, scan: seq<Id>)
    | AckStep(id: Id)
    | ClaimStep(reader: Reader, id: Id, minIdle: nat)
    | Tick(elapsed: nat)

  function Next<M>(s: Stream<M>, step: Step<M>): Stream<M> {
    match step
    case PushStep(msg) => Add(s, msg)
    case PopStep(reader, last, timeout, scan) => Pop(s, reader, last, timeout, scan).0
    case ReadNewStep(reader) => ReadNew(s, reader).0
    case ReadOwnStep(reader, first) => ReadOwn(s, reader, first).0
    case AutoClaimStep(reader, timeout, scan) => AutoClaim(s, reader, scan, timeout).0
    case AckStep(id) => Ack(s, id)
    case ClaimStep(reader, id, minIdle) => Claim(s, reader, id, minIdle)
    case Tick(elapsed) => Wait(s, elapsed)
  }

  /** The id that a step hands to a reader, if any. */
  function Delivers<M>(s: Stream<M>, step: Step<M>): Option<Id> {
    match step
    case PopStep(reader, last, timeout, scan) => Pop(s, reader, last, timeout, scan).2
    case ReadNewStep(reader) => ReadNew(s, reader).1
    case ReadOwnStep(reader, first) => ReadOwn(s, reader, first).1
    case AutoClaimStep(reader, timeout, scan) => AutoClaim(s, reader, scan, timeout).1
    case ClaimStep(reader, id, minIdle) => if Claimable(s, id, minIdle) then Some(id) else None
    case _ => None
  }

  /** A pop is its commands one after the other: read one's own if the position asks for it; if that gave
      nothing, read what is new; if that gave nothing either, claim. */
  lemma PopIsItsCommands<M>(s: Stream<M>, reader: Reader, last: Position, timeout: nat, scan: seq<Id>)
    ensures var own := if last.From? then Delivers(s, ReadOwnStep(reader, last.first)) else None;
            Next(s, PopStep(reader, last, timeout, scan))
            == if own.Some? then Next(s, ReadOwnStep(reader, last.first))
               else if Delivers(s, ReadNewStep(reader)).Some? then Next(s, ReadNewStep(reader))
               else Next(Next(s, ReadNewStep(reader)), AutoClaimStep(reader, timeout, scan))
  {
  }

  // ---- What each step does ----

  /** `id` is pending and idle for long enough. */
  predicate IsIdle<M>(s: Stream<M>, id: Id, minIdle: nat) {
    id in s.pending && s.now - s.pending[id].deliveredAt >= minIdle
  }

  /** `reader` owns the pending entry `id`, and its position does not pass it over. */
  predicate IsOwn<M>(s: Stream<M>, reader: Reader, last: Position, id: Id) {
    last.From? && last.first <= id && id in s.pending && s.pending[id].owner == reader
  }

  lemma {:induction false} FirstIdleIsFirst<M>(s: Stream<M>, scan: seq<Id>, minIdle: nat)
    ensures FirstIdle(s, scan, minIdle).None? ==> forall k :: 0 <= k < |scan| ==> !IsIdle(s, scan[k], minIdle)
    ensures FirstIdle(s, scan, minIdle).Some? ==>
              exists k :: 0 <= k < |scan| && FirstIdle(s, scan, minIdle) == Some(scan[k]) && IsIdle(s, scan[k], minIdle)
                          && forall j :: 0 <= j < k ==> !IsIdle(s, scan[j], minIdle)
  {
    if scan != [] && !IsIdle(s, scan[0], minIdle) {
      FirstIdleIsFirst(s, scan[1..], minIdle);
      if FirstIdle(s, scan[1..], minIdle).Some? {
        var k :| 0 <= k < |scan[1..]| && FirstIdle(s, scan[1..], minIdle) == Some(scan[1..][k])
                 && IsIdle(s, scan[1..][k], minIdle) && forall j :: 0 <= j < k ==> !IsIdle(s, scan[1..][j], minIdle);
        assert scan[k + 1] == scan[1..][k];
        assert forall j :: 1 <= j < k + 1 ==> scan[j] == scan[1..][j - 1];
      }
    }
  }

  lemma OwnIff<M>(s: Stream<M>, reader: Reader, last: Position)
    requires Invariant(s)
    ensures (exists id: Id :: IsOwn(s, reader, last, id)) <==> last.From? && OwnPending(s, reader, last.first).Some?
  {
    if last.From? && OwnPending(s, reader, last.first).Some? {
      assert IsOwn(s, reader, last, OwnPending(s, reader, last.first).value);
    }
    forall id: Id | IsOwn(s, reader, last, id)
      ensures OwnPending(s, reader, last.first).Some?
    {
      assert id < s.next;
    }
  }

  /** Which message a pop hands out: the first own pending one if the position asks for them; else the next
      undelivered one; else the first idle one of those looked at; and none only if there is none of these. */
  lemma PopGives<M>(s: Stream<M>, reader: Reader, last: Position, timeout: nat, scan: seq<Id>)
    requires Invariant(s)
    ensures var given := Delivers(s, PopStep(reader, last, timeout, scan));
            if exists id: Id :: IsOwn(s, reader, last, id) then
              && given.Some? && IsOwn(s, reader, last, given.value)
              && forall id: Id :: IsOwn(s, reader, last, id) ==> given.value <= id
            else if s.next < |s.log| then given == Some(s.next)
            else
              && (given.None? ==> forall k :: 0 <= k < |scan| ==> !IsIdle(s, scan[k], timeout))
              && (given.Some? ==> exists k :: 0 <= k < |scan| && given == Some(scan[k]) && IsIdle(s, scan[k], timeout)
                                              && forall j :: 0 <= j < k ==> !IsIdle(s, scan[j], timeout))
  {
    FirstIdleIsFirst(s, scan, timeout);
    OwnIff(s, reader, last);
  }

  /** A claim by hand hands a message out exactly if it is pending and idle for long enough. */
  lemma ClaimGives<M>(s: Stream<M>, reader: Reader, id: Id, minIdle: nat)
    ensures Delivers(s, ClaimStep(reader, id, minIdle))
         == if id in s.pending && s.now - s.pending[id].deliveredAt >= minIdle then Some(id) else None
  {
  }

  /** An acknowledgement turns that pending message into an acknowledged one, and touches nothing else. */
  lemma AckTakesOut<M>(s: Stream<M>, id: Id)
    ensures var s' := Next(s, AckStep(id));
            && id !in s'.pending
            && (forall other: Id :: other in s'.acked <==> other in s.acked || (other == id && id in s.pending))
            && (forall other: Id :: other != id ==> (other in s'.pending <==> other in s.pending))
            && (forall other: Id :: other in s'.pending ==> s'.pending[other] == s.pending[other])
            && s'.log == s.log && s'.next == s.next && s'.now == s.now
  {
  }

  /** A push adds the message at the end, undelivered, and touches nothing else. */
  lemma PushAppends<M>(s: Stream<M>, msg: M)
    requires Invariant(s)
    ensures var s' := Next(s, PushStep(msg));
            && |s'.log| == |s.log| + 1 && s'.log[|s.log|] == msg && s.log <= s'.log
            && Undelivered(s', |s.log|)
            && s'.next == s.next && s'.pending == s.pending && s'.acked == s.acked && s'.now == s.now
  {
  }

  function Run<M>(steps: seq<Step<M>>): Stream<M> {
    if steps == [] then EmptyStream() else Next(Run(steps[..|steps| - 1]), steps[|steps| - 1])
  }

  /** How many steps of a run handed out `id`. */
  function Deliveries<M>(steps: seq<Step<M>>, id: Id): nat {
    if steps == [] then 0
    else
      var before := steps[..|steps| - 1];
      Deliveries(before, id) + if Delivers(Run(before), steps[|steps| - 1]) == Some(id) then 1 else 0
  }

  ghost predicate Undelivered<M>(s: Stream<M>, id: Id) {
    s.next <= id < |s.log|
  }

  ghost predicate Invariant<M>(s: Stream<M>) {
    && s.next <= |s.log|
    && s.pending.Keys !! s.acked
    && (forall id: Id :: id < s.next <==> id in s.pending || id in s.acked)
    && (forall id: Id :: id in s.pending ==> s.pending[id].deliveredAt <= s.now && s.pending[id].count >= 1)
  }

  lemma NextKeepsInvariant<M>(s: Stream<M>, step: Step<M>)
    requires Invariant(s)
    ensures Invariant(Next(s, step))
  {
  }

  lemma {:induction false} RunKeepsInvariant<M>(steps: seq<Step<M>>)
    ensures Invariant(Run(steps))
  {
    if steps == [] {
      assert Run(steps).pending == map[] && Run(steps).acked == {} && Run(steps).next == 0;
    } else {
      RunKeepsInvariant(steps[..|steps| - 1]);
      NextKeepsInvariant(Run(steps[..|steps| - 1]), steps[|steps| - 1]);
    }
  }

  /** Every pushed message is in exactly one of undelivered, pending and acknowledged, and nothing else is
      in any of them. */
  lemma MessagesArePartitioned<M>(steps: seq<Step<M>>, id: Id)
    ensures var s := Run(steps);
            && (id < |s.log| <==> Undelivered(s, id) || id in s.pending || id in s.acked)
            && !(Undelivered(s, id) && id in s.pending)
            && !(Undelivered(s, id) && id in s.acked)
            && !(id in s.pending && id in s.acked)
  {
    RunKeepsInvariant(steps);
  }

  /** After any run a step may take a pending message over from another reader only by claiming it, in a pop
      that may be interrupted or not, after it has been idle for the timeout, or by hand after the idle time
      named; an uninterrupted pop that does so found no new message and nothing of its own to give. */
  lemma TakeoverNeedsIdleTime<M>(steps: seq<Step<M>>, step: Step<M>, id: Id)
    ensures var s, s' := Run(steps), Next(Run(steps), step);
            id in s.pending && id in s'.pending && s'.pending[id].owner != s.pending[id].owner ==>
              && (step.PopStep? || step.AutoClaimStep? || step.ClaimStep?)
              && s'.pending[id].owner == step.reader
              && (step.ClaimStep? ==> Idle(s, id) >= step.minIdle)
              && (step.PopStep? || step.AutoClaimStep? ==> Idle(s, id) >= step.timeout)
              && (step.PopStep? ==>
                    && s.next == |s.log|
                    && (step.last.From? ==> OwnPending(s, step.reader, step.last.first).None?))
  {
    RunKeepsInvariant(steps);
  }

  /** What a step keeps: the log and the delivered part of it grow, acknowledgements stay, and an entry
      leaves the pending table only by being acknowledged. */
  lemma NextIsLater<M>(s: Stream<M>, step: Step<M>)
    requires Invariant(s)
    ensures s.log <= Next(s, step).log && s.next <= Next(s, step).next && s.acked <= Next(s, step).acked
    ensures forall id: Id :: id in s.pending ==> id in Next(s, step).pending || id in Next(s, step).acked
    ensures forall id: Id :: id in Next(s, step).acked && id !in s.acked ==> step == AckStep(id)
  {
  }

  /** Being handed out makes the reader the owner and restarts the idle time; nothing else changes an
      entry. */
  lemma DeliveryGivesOwnership<M>(s: Stream<M>, step: Step<M>, id: Id)
    requires Invariant(s)
    ensures Delivers(s, step) == Some(id) ==>
              && id in Next(s, step).pending
              && Next(s, step).pending[id].owner == step.reader
              && Idle(Next(s, step), id) == 0
    ensures Delivers(s, step) != Some(id) && id in s.pending && id in Next(s, step).pending ==>
              Next(s, step).pending[id] == s.pending[id]
  {
  }

  /** Messages are never lost: an id leaves the pending table only by being acknowledged, is never
      unacknowledged, and keeps its message. */
  lemma {:induction false} LaterStream<M>(steps: seq<Step<M>>, more: seq<Step<M>>)
    ensures Run(steps).log <= Run(steps + more).log
    ensures Run(steps).next <= Run(steps + more).next
    ensures Run(steps).acked <= Run(steps + more).acked
    ensures forall id: Id :: id in Run(steps).pending ==>
              id in Run(steps + more).pending || id in Run(steps + more).acked
    decreases |more|
  {
    if more == [] {
      assert steps + more == steps;
    } else {
      var shorter := more[..|more| - 1];
      LaterStream(steps, shorter);
      RunKeepsInvariant(steps + shorter);
      NextIsLater(Run(steps + shorter), more[|more| - 1]);
      assert (steps + more)[..|steps + more| - 1] == steps + shorter;
    }
  }

  /** While a message is pending, `times_delivered` is the number of times it was handed out, over all
      readers; an unknown, undelivered or acknowledged one reads as 0. */
  lemma {:induction false} TimesDeliveredCountsDeliveries<M>(steps: seq<Step<M>>, id: Id)
    ensures TimesDelivered(Run(steps), id) == if id in Run(steps).pending then Deliveries(steps, id) else 0
    ensures id >= Run(steps).next ==> Deliveries(steps, id) == 0
  {
    if steps != [] {
      var before, step := steps[..|steps| - 1], steps[|steps| - 1];
      TimesDeliveredCountsDeliveries(before, id);
      RunKeepsInvariant(before);
      CountStep(Run(before), step, id);
    }
  }

  lemma CountStep<M>(s: Stream<M>, step: Step<M>, id: Id)
    requires Invariant(s)
    ensures id in Next(s, step).pending ==>
              Next(s, step).pending[id].count
              == TimesDelivered(s, id) + (if Delivers(s, step) == Some(id) then 1 else 0)
    ensures Delivers(s, step) == Some(id) ==> id < Next(s, step).next
    ensures id in Next(s, step).pending && id !in s.pending ==> id == s.next
  {
  }

  /** First deliveries follow the log: a message is handed out for the first time only when all earlier
      ones have been. */
  lemma FirstDeliveriesFollowLog<M>(steps: seq<Step<M>>, step: Step<M>, id: Id)
    requires Delivers(Run(steps), step) == Some(id) && Undelivered(Run(steps), id)
    ensures id == Run(steps).next
    ensures forall earlier: Id :: earlier < id ==> earlier in Run(steps).pending || earlier in Run(steps).acked
  {
    RunKeepsInvariant(steps);
  }

  // ---- The position of a reader ----

  /** Readers that keep their positions between pops. */
  datatype Handles<M> = Handles(stream: Stream<M>, positions: map<Reader, Position>)

  datatype HandleStep<M> = PopBy(reader: Reader, timeout: nat, scan: seq<Id>) | Other(step: Step<M>)

  function PositionOf<M>(h: Handles<M>, reader: Reader): Position {
    if reader in h.positions then h.positions[reader] else New
  }

  function NextHandles<M>(h: Handles<M>, step: HandleStep<M>): Handles<M> {
    match step
    case PopBy(reader, timeout, scan) =>
      var (stream, position, _) := Pop(h.stream, reader, PositionOf(h, reader), timeout, scan);
      Handles(stream, h.positions[reader := position])
    case Other(step) => h.(stream := Next(h.stream, step))
  }

  function HandlesAfter<M>(h: Handles<M>, steps: seq<HandleStep<M>>, n: nat): Handles<M>
    requires n <= |steps|
  {
    if n == 0 then h else NextHandles(HandlesAfter(h, steps, n - 1), steps[n - 1])
  }

  /** Step `i` is a pop of `reader` at which no pending entry of its own, from its first position on, is left. */
  ghost predicate FindsNoneOfItsOwn<M>(h: Handles<M>, steps: seq<HandleStep<M>>, reader: Reader, i: nat)
    requires i < |steps|
  {
    && steps[i].PopBy? && steps[i].reader == reader
    && forall id: Id :: !IsOwn(HandlesAfter(h, steps, i).stream, reader, PositionOf(h, reader), id)
  }

  lemma PositionAfterPop<M>(s: Stream<M>, reader: Reader, last: Position, timeout: nat, scan: seq<Id>)
    requires Invariant(s)
    ensures Pop(s, reader, last, timeout, scan).1
         == if forall id: Id :: !IsOwn(s, reader, last, id) then New else last
  {
    OwnIff(s, reader, last);
  }

  lemma {:induction false} HandlesKeepInvariant<M>(h: Handles<M>, steps: seq<HandleStep<M>>, n: nat)
    requires Invariant(h.stream) && n <= |steps|
    ensures Invariant(HandlesAfter(h, steps, n).stream)
    decreases n
  {
    if n > 0 {
      HandlesKeepInvariant(h, steps, n - 1);
      var before, step := HandlesAfter(h, steps, n - 1), steps[n - 1];
      if step.PopBy? {
        var last := PositionOf(before, step.reader);
        NextKeepsInvariant(before.stream, PopStep(step.reader, last, step.timeout, step.scan));
      } else {
        NextKeepsInvariant(before.stream, step.step);
      }
    }
  }

  lemma PositionInStep<M>(h: Handles<M>, step: HandleStep<M>, reader: Reader)
    requires Invariant(h.stream)
    ensures PositionOf(NextHandles(h, step), reader)
         == if step.PopBy? && step.reader == reader
               && forall id: Id :: !IsOwn(h.stream, reader, PositionOf(h, reader), id)
            then New else PositionOf(h, reader)
  {
    if step.PopBy? && step.reader == reader {
      PositionAfterPop(h.stream, reader, PositionOf(h, reader), step.timeout, step.scan);
    }
  }

  ghost predicate FoundNone<M>(h: Handles<M>, steps: seq<HandleStep<M>>, reader: Reader, n: nat)
    requires n <= |steps|
  {
    exists i :: 0 <= i < n && FindsNoneOfItsOwn(h, steps, reader, i)
  }

  /** Over any run of any readers, a reader's position stays as it was while its pops find entries of its own,
      and is ">" from the first pop on that finds none. */
  lemma {:induction false} PositionStaysWhileOwn<M>(h: Handles<M>, steps: seq<HandleStep<M>>, reader: Reader, n: nat)
    requires Invariant(h.stream) && n <= |steps|
    ensures PositionOf(HandlesAfter(h, steps, n), reader)
         == if FoundNone(h, steps, reader, n) then New else PositionOf(h, reader)
    decreases n
  {
    if n > 0 {
      PositionStaysWhileOwn(h, steps, reader, n - 1);
      HandlesKeepInvariant(h, steps, n - 1);
      PositionInStep(HandlesAfter(h, steps, n - 1), steps[n - 1], reader);
      FoundOneMore(h, steps, reader, n);
    }
  }

  lemma FoundOneMore<M>(h: Handles<M>, steps: seq<HandleStep<M>>, reader: Reader, n: nat)
    requires 0 < n <= |steps|
    ensures FoundNone(h, steps, reader, n)
       <==> FoundNone(h, steps, reader, n - 1) || FindsNoneOfItsOwn(h, steps, reader, n - 1)
  {
  }

  // ---- The objects ----

  class RedisStream<M> {
    var log: seq<M>
    var next: nat
    var pending: map<Id, Entry>
    var now: nat
    ghost var acked: set<Id>

    ghost function View(): Stream<M>
      reads this
    {
      Stream(log, next, pending, acked, now)
    }

    constructor ()
      ensures View() == EmptyStream()
    {
      log, next, pending, now := [], 0, map[], 0;
      acked := {};
    }

    method XReadGroupNew(reader: Reader) returns (id: Option<Id>)
      modifies this`next, this`pending
      ensures (View(), id) == ReadNew(old(View()), reader)
    {
      if next >= |log| {
        return None;
      }
      id := Some(next);
      pending := pending[next := Entry(reader, now, 1)];
      next := next + 1;
    }

    method XReadGroupOwn(reader: Reader, first: nat) returns (id: Option<Id>)
      modifies this`pending
      ensures id == OwnPending(old(View()), reader, first)
      ensures View() == if id.Some? then Redeliver(old(View()), reader, id.value) else old(View())
    {
      var i := first;
      while i < next
        invariant OwnPending(View(), reader, i) == OwnPending(View(), reader, first)
      {
        if i in pending && pending[i].owner == reader {
          pending := pending[i := Entry(reader, now, pending[i].count + 1)];
          return Some(i);
        }
        i := i + 1;
      }
      return None;
    }

    method XAutoClaim(reader: Reader, scan: seq<Id>, minIdle: nat) returns (id: Option<Id>)
      modifies this`pending
      ensures (View(), id) == AutoClaim(old(View()), reader, scan, minIdle)
    {
      for k := 0 to |scan|
        invariant FirstIdle(View(), scan[k..], minIdle) == FirstIdle(View(), scan, minIdle)
      {
        var i := scan[k];
        assert scan[k..][0] == i && scan[k..][1..] == scan[k + 1..];
        if i in pending && now - pending[i].deliveredAt >= minIdle {
          pending := pending[i := Entry(reader, now, pending[i].count + 1)];
          return Some(i);
        }
      }
      return None;
    }
  }

  /** A reader's handle on the queue. */
  class ReliableQueue<M> {
    const redis: RedisStream<M>
    const reader: Reader
    const taskTimeout: nat
    var lastStreamId: Position

    constructor (redis: RedisStream<M>, reader: Reader, taskTimeout: nat, lastStreamId: Position)
      ensures this.redis == redis && this.reader == reader && this.taskTimeout == taskTimeout
      ensures this.lastStreamId == lastStreamId
    {
      this.redis, this.reader, this.taskTimeout, this.lastStreamId := redis, reader, taskTimeout, lastStreamId;
    }

    method Push(item: M)
      modifies redis`log
      ensures redis.View() == Next(old(redis.View()), PushStep(item))
    {
      redis.log := redis.log + [item];
    }

    /** Calls itself at most once, after setting the position back to ">". */
    method PopItem(scan: seq<Id>) returns (id: Option<Id>)
      modifies redis, this`lastStreamId
      ensures (redis.View(), lastStreamId, id)
           == Pop(old(redis.View()), reader, old(lastStreamId), taskTimeout, scan)
      decreases lastStreamId.From?
    {
      match lastStreamId {
        case New =>
          id := redis.XReadGroupNew(reader);
          if id.None? {
            id := redis.XAutoClaim(reader, scan, taskTimeout);
          }
        case From(first) =>
          id := redis.XReadGroupOwn(reader, first);
          if id.None? {
            lastStreamId := New;
            id := PopItem(scan);
          }
      }
    }

    method AckItem(id: Id)
      modifies redis`pending, redis`acked
      ensures redis.View() == Ack(old(redis.View()), id)
    {
      if id in redis.pending {
        redis.pending := redis.pending - {id};
        redis.acked := redis.acked + {id};
      }
    }

    method GetTimesDelivered(id: Id) returns (times: nat)
      ensures times == TimesDelivered(redis.View(), id)
    {
      if id !in redis.pending {
        return 0;
      }
      return redis.pending[id].count;
    }

    method ClaimItem(id: Id, minIdle: nat)
      modifies redis`pending
      ensures redis.View() == Claim(old(redis.View()), reader, id, minIdle)
    {
      if id in redis.pending && redis.now - redis.pending[id].deliveredAt >= minIdle {
        redis.pending := redis.pending[id := Entry(reader, redis.now, redis.pending[id].count + 1)];
      }
    }
  }
}
