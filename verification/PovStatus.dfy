/** The status of PoV reproduction requests: four shared sets, and clients that read the verdicts through
    a cache which also remembers that there was no verdict yet. A request stands for its serialized key. */
module PovStatus {
  import opened Outcomes

  const CACHE_SIZE: nat := 1000

  datatype Request = Request(taskId: string, patchId: string, povPath: string, sanitizer: string, harness: string)

  datatype Store = Store(
    pending: set<Request>,
    mitigated: set<Request>,
    nonMitigated: set<Request>,
    expired: set<Request>)
  {
    predicate Disjoint() {
      pending !! mitigated && pending !! nonMitigated && mitigated !! nonMitigated
    }

    /** What the two verdict sets say: did the PoV crash the patched build? */
    function Verdict(key: Request): Option<bool> {
      if key in mitigated then Some(false)
      else if key in nonMitigated then Some(true)
      else None
    }

    predicate Known(key: Request) {
      key in pending || key in mitigated || key in nonMitigated || key in expired
    }
  }

  const EMPTY: Store := Store({}, {}, {}, {})

  /** The part of `request_status` after the verdict lookup, whatever the lookup said. */
  function Ask(s: Store, key: Request, lookup: Option<bool>): (Store, Option<bool>) {
    if lookup.Some? then (s, lookup)
    else if key in s.pending then (s, None)
    else if key in s.mitigated then (s, Some(false))
    else if key in s.nonMitigated then (s, Some(true))
    else (s.(pending := s.pending + {key}), None)
  }

  datatype Mark = Mitigated | NonMitigated | Expired

  /** Redis SMOVE from the pending set; nothing happens to a key that is not pending. */
  function Move(s: Store, key: Request, mark: Mark): Store {
    if key !in s.pending then s
    else
      var s1 := s.(pending := s.pending - {key});
      match mark
      case Mitigated => s1.(mitigated := s1.mitigated + {key})
      case NonMitigated => s1.(nonMitigated := s1.nonMitigated + {key})
      case Expired => s1.(expired := s1.expired + {key})
  }

  // ---- Runs of many clients ----

  type Client = nat

  type Cache = map<Request, Option<bool>>

  datatype System = System(store: Store, caches: map<Client, Cache>)

  datatype Step =
    | RequestStatus(client: Client, key: Request)
    | MarkAs(key: Request, mark: Mark)
    | Evict(client: Client, key: Request)

  datatype Answer = Status(didCrash: Option<bool>) | Moved(moved: bool) | Silent

  function CacheOf(sys: System, client: Client): Cache {
    if client in sys.caches then sys.caches[client] else map[]
  }

  /** The cached `_did_crash`. */
  function Lookup(cache: Cache, s: Store, key: Request): Option<bool> {
    if key in cache then cache[key] else s.Verdict(key)
  }

  function Next(sys: System, step: Step): (System, Answer) {
    match step
    case RequestStatus(client, key) =>
      var cache := CacheOf(sys, client);
      var lookup := Lookup(cache, sys.store, key);
      var (store, status) := Ask(sys.store, key, lookup);
      (System(store, sys.caches[client := cache[key := lookup]]), Status(status))
    case MarkAs(key, mark) =>
      (sys.(store := Move(sys.store, key, mark)), Moved(key in sys.store.pending))
    case Evict(client, key) =>
      (sys.(caches := sys.caches[client := CacheOf(sys, client) - {key}]), Silent)
  }

  /** The same step with every lookup made in the live sets. */
  function NextLive(s: Store, step: Step): (Store, Answer) {
    match step
    case RequestStatus(_, key) =>
      var (store, status) := Ask(s, key, s.Verdict(key));
      (store, Status(status))
    case MarkAs(key, mark) => (Move(s, key, mark), Moved(key in s.pending))
    case Evict(_, _) => (s, Silent)
  }

  function Run(steps: seq<Step>): (System, seq<Answer>) {
    if steps == [] then (System(EMPTY, map[]), [])
    else
      var (sys, answers) := Run(steps[..|steps| - 1]);
      var (sys', answer) := Next(sys, steps[|steps| - 1]);
      (sys', answers + [answer])
  }

  function RunLive(steps: seq<Step>): (Store, seq<Answer>) {
    if steps == [] then (EMPTY, [])
    else
      var (s, answers) := RunLive(steps[..|steps| - 1]);
      var (s', answer) := NextLive(s, steps[|steps| - 1]);
      (s', answers + [answer])
  }

  /** A cached verdict is the live one; a cached "no verdict" says nothing. */
  ghost predicate Coherent(cache: Cache, s: Store) {
    forall key :: key in cache && cache[key].Some? ==> cache[key] == s.Verdict(key)
  }

  ghost predicate Invariant(sys: System) {
    sys.store.Disjoint() && forall client :: client in sys.caches ==> Coherent(sys.caches[client], sys.store)
  }

  lemma NextKeepsInvariant(sys: System, step: Step)
    requires Invariant(sys)
    ensures Invariant(Next(sys, step).0)
  {
    assert Coherent(map[], sys.store);
    var sys' := Next(sys, step).0;
    forall client | client in sys'.caches
      ensures Coherent(sys'.caches[client], sys'.store)
    {
      assert Coherent(CacheOf(sys, client), sys.store);
    }
  }

  /** A stale cached "no verdict" is harmless, and a cached verdict is right. */
  lemma NextAgreesWithLive(sys: System, step: Step)
    requires Invariant(sys)
    ensures NextLive(sys.store, step) == (Next(sys, step).0.store, Next(sys, step).1)
  {
    if step.RequestStatus? {
      assert Coherent(CacheOf(sys, step.client), sys.store);
    }
  }

  lemma {:induction false} RunKeepsInvariant(steps: seq<Step>)
    ensures Invariant(Run(steps).0)
  {
    if steps != [] {
      RunKeepsInvariant(steps[..|steps| - 1]);
      NextKeepsInvariant(Run(steps[..|steps| - 1]).0, steps[|steps| - 1]);
    }
  }

  /** Over every run, with any number of clients and any evictions, the cached and the live version give
      the same answers and leave the same sets. */
  lemma {:induction false} CachedRunAgreesWithLive(steps: seq<Step>)
    ensures RunLive(steps) == (Run(steps).0.store, Run(steps).1)
  {
    if steps != [] {
      var before := steps[..|steps| - 1];
      CachedRunAgreesWithLive(before);
      RunKeepsInvariant(before);
      NextAgreesWithLive(Run(before).0, steps[|steps| - 1]);
    }
  }

  // ---- What every run keeps ----

  ghost function StoreAfter(steps: seq<Step>): Store {
    Run(steps).0.store
  }

  /** In every reachable state the pending set and the two verdict sets are pairwise disjoint. */
  lemma ReachableStoresAreDisjoint(steps: seq<Step>)
    ensures StoreAfter(steps).Disjoint()
  {
    RunKeepsInvariant(steps);
  }

  lemma {:induction false} LaterStore(steps: seq<Step>, more: seq<Step>)
    ensures StoreAfter(steps).mitigated <= StoreAfter(steps + more).mitigated
    ensures StoreAfter(steps).nonMitigated <= StoreAfter(steps + more).nonMitigated
    ensures forall key :: StoreAfter(steps).Known(key) ==> StoreAfter(steps + more).Known(key)
    decreases |more|
  {
    if more == [] {
      assert steps + more == steps;
    } else {
      LaterStore(steps, more[..|more| - 1]);
      assert (steps + more)[..|steps + more| - 1] == steps + more[..|more| - 1];
    }
  }

  /** A verdict is permanent: it stays, and its request is never pending again. */
  lemma VerdictIsPermanent(steps: seq<Step>, more: seq<Step>, key: Request)
    requires StoreAfter(steps).Verdict(key).Some?
    ensures StoreAfter(steps + more).Verdict(key) == StoreAfter(steps).Verdict(key)
    ensures key !in StoreAfter(steps + more).pending
  {
    LaterStore(steps, more);
    ReachableStoresAreDisjoint(steps + more);
    if key in StoreAfter(steps).mitigated {
      assert key in StoreAfter(steps + more).mitigated;
    } else {
      assert key in StoreAfter(steps + more).nonMitigated;
    }
  }

  /** A pending request leaves the pending set only by a mark. */
  lemma {:induction false} LeftByMark(steps: seq<Step>, until: seq<Step>, key: Request) returns (i: nat)
    requires key in StoreAfter(steps).pending && key !in StoreAfter(steps + until).pending
    ensures i < |until| && until[i].MarkAs? && until[i].key == key
    ensures key in StoreAfter(steps + until[..i]).pending
    decreases |until|
  {
    assert steps + [] == steps;
    if until != [] {
      var n := |until| - 1;
      assert (steps + until)[..|steps + until| - 1] == steps + until[..n];
      if key in StoreAfter(steps + until[..n]).pending {
        i := n;
      } else {
        i := LeftByMark(steps, until[..n], key);
        assert until[..n][..i] == until[..i];
      }
    }
  }

  lemma MarkedNow(steps: seq<Step>, key: Request, mark: Mark)
    requires key in StoreAfter(steps).pending
    ensures StoreAfter(steps + [MarkAs(key, mark)]) == Move(StoreAfter(steps), key, mark)
  {
    assert (steps + [MarkAs(key, mark)])[..|steps|] == steps;
  }

  /** A request that was pending, then was not, and then is pending again was marked as expired in between,
      while it was pending, and had no verdict. */
  lemma OnlyExpiredBecomesPendingAgain(steps: seq<Step>, until: seq<Step>, again: seq<Step>, key: Request)
    returns (i: nat)
    requires key in StoreAfter(steps).pending
    requires key !in StoreAfter(steps + until).pending
    requires key in StoreAfter(steps + until + again).pending
    ensures i < |until| && until[i] == MarkAs(key, Expired)
    ensures key in StoreAfter(steps + until[..i]).pending
    ensures StoreAfter(steps + until).Verdict(key).None?
  {
    if StoreAfter(steps + until).Verdict(key).Some? {
      VerdictIsPermanent(steps + until, again, key);
    }
    i := LeftByMark(steps, until, key);
    var marked := steps + until[..i] + [until[i]];
    MarkedNow(steps + until[..i], key, until[i].mark);
    assert marked + until[i + 1..] == steps + until;
    LaterStore(marked, until[i + 1..]);
  }

  /** An answer tells where the request now is: no status means pending (newly or still), a status is its
      verdict. So a first request is scheduled, and asking never leaves a request nowhere. */
  lemma AnswerTellsWhere(steps: seq<Step>, client: Client, key: Request)
    ensures var (sys, answer) := Next(Run(steps).0, RequestStatus(client, key));
            && answer.Status?
            && answer.didCrash == sys.store.Verdict(key)
            && (answer.didCrash.None? <==> key in sys.store.pending)
            && sys.store == Run(steps).0.store.(pending := sys.store.pending)
            && sys.store.pending <= Run(steps).0.store.pending + {key}
  {
    RunKeepsInvariant(steps);
    NextAgreesWithLive(Run(steps).0, RequestStatus(client, key));
  }

  /** Expiring takes a pending request out without a verdict, and the next time anyone asks it is pending
      again. */
  lemma ExpiredIsScheduledAgain(steps: seq<Step>, client: Client, key: Request)
    requires key in StoreAfter(steps).pending
    ensures var expired := Run(steps + [MarkAs(key, Expired)]).0;
            && key in expired.store.expired
            && key !in expired.store.pending
            && expired.store.Verdict(key).None?
            && key in Next(expired, RequestStatus(client, key)).0.store.pending
            && Next(expired, RequestStatus(client, key)).1 == Status(None)
  {
    var marked := steps + [MarkAs(key, Expired)];
    assert marked[..|marked| - 1] == steps;
    ReachableStoresAreDisjoint(steps);
    AnswerTellsWhere(marked, client, key);
  }

  /** Once a pending request is marked, every client is told so ever after: no crash for a mitigated PoV,
      a crash for one that is not, whatever happened in between and whatever its cache held. */
  lemma MarkDecidesEveryLaterAnswer(steps: seq<Step>, mark: Mark, more: seq<Step>, client: Client, key: Request)
    requires key in StoreAfter(steps).pending && mark != Expired
    ensures Next(Run(steps + [MarkAs(key, mark)] + more).0, RequestStatus(client, key)).1
         == Status(Some(mark == NonMitigated))
  {
    var marked := steps + [MarkAs(key, mark)];
    assert marked[..|marked| - 1] == steps;
    ReachableStoresAreDisjoint(steps);
    VerdictIsPermanent(marked, more, key);
    RunKeepsInvariant(marked + more);
    NextAgreesWithLive(Run(marked + more).0, RequestStatus(client, key));
  }

  // ---- The lookup and the add as two commands ----

  /** `looked` holds, for each client between the two commands of `request_status`, the key it is about to
      add. */
  datatype SplitSystem = SplitSystem(store: Store, looked: map<Client, Request>)

  datatype SplitStep = Look(client: Client, key: Request) | Add(client: Client) | SplitMark(key: Request, mark: Mark)

  function NextSplit(sys: SplitSystem, step: SplitStep): SplitSystem {
    match step
    case Look(client, key) =>
      if key in sys.store.pending || sys.store.Verdict(key).Some? then sys
      else sys.(looked := sys.looked[client := key])
    case Add(client) =>
      if client !in sys.looked then sys
      else SplitSystem(sys.store.(pending := sys.store.pending + {sys.looked[client]}), sys.looked - {client})
    case SplitMark(key, mark) => sys.(store := Move(sys.store, key, mark))
  }

  ghost function RunSplit(steps: seq<SplitStep>): SplitSystem {
    if steps == [] then SplitSystem(EMPTY, map[]) else NextSplit(RunSplit(steps[..|steps| - 1]), steps[|steps| - 1])
  }

  /** `key` is in at most one of the three sets. */
  ghost predicate Clear(s: Store, key: Request) {
    && !(key in s.pending && s.Verdict(key).Some?)
    && !(key in s.mitigated && key in s.nonMitigated)
  }

  /** A verdict for `key` arrives between the lookup of a client, at step `l`, and its add, at step `i`. */
  ghost predicate OvertakenAdd(steps: seq<SplitStep>, l: nat, m: nat, i: nat, key: Request) {
    && l < m < i < |steps|
    && steps[i].Add?
    && steps[l] == Look(steps[i].client, key)
    && IsPlanned(RunSplit(steps[..i]), steps[i].client, key)
    && VerdictGiven(steps, m, key)
  }

  /** The client's next add will be of `key`. */
  ghost predicate IsPlanned(sys: SplitSystem, client: Client, key: Request) {
    client in sys.looked && sys.looked[client] == key
  }

  /** Step `m` moves `key` from the pending set to one of the verdict sets. */
  ghost predicate VerdictGiven(steps: seq<SplitStep>, m: nat, key: Request) {
    && m < |steps|
    && steps[m].SplitMark? && steps[m].key == key && steps[m].mark != Expired
    && key in RunSplit(steps[..m]).store.pending
  }

  lemma SplitPrefix(steps: seq<SplitStep>, n: nat)
    requires n < |steps|
    ensures RunSplit(steps[..n + 1]) == NextSplit(RunSplit(steps[..n]), steps[n])
  {
    assert steps[..n + 1][..n] == steps[..n];
  }

  lemma {:induction false} SplitVerdictStays(steps: seq<SplitStep>, m: nat, n: nat, key: Request)
    requires m <= n <= |steps| && RunSplit(steps[..m]).store.Verdict(key).Some?
    ensures RunSplit(steps[..n]).store.Verdict(key).Some?
    decreases n
  {
    if m < n {
      SplitVerdictStays(steps, m, n - 1, key);
      SplitPrefix(steps, n - 1);
    }
  }

  /** A verdict that appears was given by a mark. */
  lemma {:induction false} VerdictWasGiven(steps: seq<SplitStep>, l: nat, n: nat, key: Request) returns (m: nat)
    requires l <= n <= |steps|
    requires RunSplit(steps[..l]).store.Verdict(key).None? && RunSplit(steps[..n]).store.Verdict(key).Some?
    ensures l <= m < n && VerdictGiven(steps, m, key)
    decreases n
  {
    SplitPrefix(steps, n - 1);
    if RunSplit(steps[..n - 1]).store.Verdict(key).Some? {
      m := VerdictWasGiven(steps, l, n - 1, key);
    } else {
      m := n - 1;
    }
  }

  /** What a client is about to add it has looked up, and found neither pending nor with a verdict. */
  lemma {:induction false} PlannedWasLookedUp(steps: seq<SplitStep>, n: nat, client: Client, key: Request)
    returns (l: nat)
    requires n <= |steps| && IsPlanned(RunSplit(steps[..n]), client, key)
    ensures l < n && steps[l] == Look(client, key)
    ensures RunSplit(steps[..l]).store.Verdict(key).None?
    decreases n
  {
    SplitPrefix(steps, n - 1);
    if IsPlanned(RunSplit(steps[..n - 1]), client, key) {
      l := PlannedWasLookedUp(steps, n - 1, client, key);
    } else {
      l := n - 1;
    }
  }

  lemma ClearOrBadAdd(sys: SplitSystem, step: SplitStep, key: Request)
    requires Clear(sys.store, key)
    ensures Clear(NextSplit(sys, step).store, key)
       <==> !(step.Add? && IsPlanned(sys, step.client, key) && sys.store.Verdict(key).Some?)
  {
  }

  /** An add of a request that has a verdict was overtaken. */
  lemma LateAddWasOvertaken(steps: seq<SplitStep>, i: nat, key: Request) returns (l: nat, m: nat)
    requires i < |steps| && steps[i].Add? && IsPlanned(RunSplit(steps[..i]), steps[i].client, key)
    requires RunSplit(steps[..i]).store.Verdict(key).Some?
    ensures OvertakenAdd(steps, l, m, i, key)
  {
    l := PlannedWasLookedUp(steps, i, steps[i].client, key);
    m := VerdictWasGiven(steps, l, i, key);
  }

  /** A request that is in two sets got there by an overtaken add. */
  lemma {:induction false} UnclearWasOvertaken(steps: seq<SplitStep>, n: nat, key: Request)
    returns (l: nat, m: nat, i: nat)
    requires n <= |steps| && !Clear(RunSplit(steps[..n]).store, key)
    ensures OvertakenAdd(steps, l, m, i, key) && i < n
    decreases n
  {
    SplitPrefix(steps, n - 1);
    if !Clear(RunSplit(steps[..n - 1]).store, key) {
      l, m, i := UnclearWasOvertaken(steps, n - 1, key);
    } else {
      i := n - 1;
      ClearOrBadAdd(RunSplit(steps[..i]), steps[i], key);
      l, m := LateAddWasOvertaken(steps, i, key);
    }
  }

  lemma OvertakenIsUnclear(steps: seq<SplitStep>, l: nat, m: nat, i: nat, key: Request)
    requires OvertakenAdd(steps, l, m, i, key)
    ensures !Clear(RunSplit(steps[..i + 1]).store, key)
  {
    SplitPrefix(steps, m);
    SplitVerdictStays(steps, m + 1, i, key);
    SplitPrefix(steps, i);
  }

  /** With the lookup and the add as two commands, a request stays in at most one set over a whole run exactly
      if none of its adds is overtaken: no verdict for it arrives between a client's lookup and its add. */
  lemma SplitRunIsClearIff(steps: seq<SplitStep>, key: Request)
    ensures (forall n: nat :: n <= |steps| ==> Clear(RunSplit(steps[..n]).store, key))
       <==> !(exists l: nat, m: nat, i: nat :: OvertakenAdd(steps, l, m, i, key))
  {
    if l: nat, m: nat, i: nat :| OvertakenAdd(steps, l, m, i, key) {
      OvertakenIsUnclear(steps, l, m, i, key);
    }
    if n: nat :| n <= |steps| && !Clear(RunSplit(steps[..n]).store, key) {
      var l, m, i := UnclearWasOvertaken(steps, n, key);
    }
  }

  lemma DisjointIffClear(s: Store)
    ensures s.Disjoint() <==> forall key :: Clear(s, key)
  {
    if !s.Disjoint() {
      var key :| (key in s.pending && key in s.mitigated) || (key in s.pending && key in s.nonMitigated)
                 || (key in s.mitigated && key in s.nonMitigated);
      assert !Clear(s, key);
    }
  }

  /** So the three sets stay disjoint over a whole run exactly if no add is overtaken. */
  lemma SplitRunIsDisjointIff(steps: seq<SplitStep>)
    ensures (forall n: nat :: n <= |steps| ==> RunSplit(steps[..n]).store.Disjoint())
       <==> !(exists l: nat, m: nat, i: nat, key :: OvertakenAdd(steps, l, m, i, key))
  {
    if l: nat, m: nat, i: nat, key :| OvertakenAdd(steps, l, m, i, key) {
      OvertakenIsUnclear(steps, l, m, i, key);
      DisjointIffClear(RunSplit(steps[..i + 1]).store);
    }
    if n: nat :| n <= |steps| && !RunSplit(steps[..n]).store.Disjoint() {
      DisjointIffClear(RunSplit(steps[..n]).store);
      var key :| !Clear(RunSplit(steps[..n]).store, key);
      var l, m, i := UnclearWasOvertaken(steps, n, key);
    }
  }

  lemma VerdictChange(sys: SplitSystem, step: SplitStep, key: Request)
    requires sys.store.Verdict(key).Some?
    ensures NextSplit(sys, step).store.Verdict(key) != sys.store.Verdict(key)
       <==> sys.store.Verdict(key) == Some(true) && step == SplitMark(key, Mitigated) && key in sys.store.pending
    ensures NextSplit(sys, step).store.Verdict(key) != sys.store.Verdict(key) ==>
              NextSplit(sys, step).store.Verdict(key) == Some(false)
  {
  }

  /** No mark of `key` in the steps from `i` to before `k`. */
  ghost predicate Unmarked(steps: seq<SplitStep>, i: nat, k: nat, key: Request)
    requires k <= |steps|
  {
    forall q :: i <= q < k ==> !(steps[q].SplitMark? && steps[q].key == key)
  }

  /** An add, at step `i`, of a request already found to crash, overtaken by that verdict; the next mark of the
      request, at step `k`, says that it does not crash. */
  ghost predicate Flip(steps: seq<SplitStep>, l: nat, m: nat, i: nat, k: nat, key: Request) {
    && OvertakenAdd(steps, l, m, i, key)
    && RunSplit(steps[..i]).store.Verdict(key) == Some(true)
    && i < k < |steps|
    && steps[k] == SplitMark(key, Mitigated)
    && Unmarked(steps, i, k, key)
  }

  lemma PendingVerdictStep(sys: SplitSystem, step: SplitStep, key: Request)
    requires key in NextSplit(sys, step).store.pending && NextSplit(sys, step).store.Verdict(key).Some?
    ensures NextSplit(sys, step).store.Verdict(key) == sys.store.Verdict(key)
    ensures !(step.SplitMark? && step.key == key)
    ensures key in sys.store.pending || (step.Add? && IsPlanned(sys, step.client, key))
  {
  }

  /** A request that is pending although it has a verdict was added late, and not marked since. */
  lemma {:induction false} PendingWithVerdict(steps: seq<SplitStep>, k: nat, key: Request)
    returns (l: nat, m: nat, i: nat)
    requires k <= |steps| && key in RunSplit(steps[..k]).store.pending
    requires RunSplit(steps[..k]).store.Verdict(key).Some?
    ensures OvertakenAdd(steps, l, m, i, key) && i < k && Unmarked(steps, i, k, key)
    ensures RunSplit(steps[..i]).store.Verdict(key) == RunSplit(steps[..k]).store.Verdict(key)
    decreases k
  {
    SplitPrefix(steps, k - 1);
    PendingVerdictStep(RunSplit(steps[..k - 1]), steps[k - 1], key);
    if key in RunSplit(steps[..k - 1]).store.pending {
      l, m, i := PendingWithVerdict(steps, k - 1, key);
    } else {
      i := k - 1;
      l, m := LateAddWasOvertaken(steps, i, key);
    }
  }

  /** A late add stays pending, and its verdict stays, until it is marked. */
  lemma {:induction false} LateAddStays(steps: seq<SplitStep>, i: nat, k: nat, key: Request)
    requires i < k <= |steps| && steps[i].Add? && IsPlanned(RunSplit(steps[..i]), steps[i].client, key)
    requires Unmarked(steps, i, k, key)
    ensures key in RunSplit(steps[..k]).store.pending
    ensures RunSplit(steps[..k]).store.Verdict(key) == RunSplit(steps[..i]).store.Verdict(key)
    decreases k
  {
    SplitPrefix(steps, k - 1);
    if i < k - 1 {
      LateAddStays(steps, i, k - 1, key);
    }
  }

  lemma {:induction false} MitigatedStays(steps: seq<SplitStep>, j: nat, n: nat, key: Request)
    requires j <= n <= |steps| && key in RunSplit(steps[..j]).store.mitigated
    ensures key in RunSplit(steps[..n]).store.mitigated
    decreases n
  {
    if j < n {
      SplitPrefix(steps, n - 1);
      MitigatedStays(steps, j, n - 1, key);
    }
  }

  /** A changed verdict was changed by a flip, from "crashes" to "does not crash". */
  lemma {:induction false} ChangeWasFlip(steps: seq<SplitStep>, j: nat, n: nat, key: Request)
    returns (l: nat, m: nat, i: nat, k: nat)
    requires j <= n <= |steps| && RunSplit(steps[..j]).store.Verdict(key).Some?
    requires RunSplit(steps[..n]).store.Verdict(key) != RunSplit(steps[..j]).store.Verdict(key)
    ensures Flip(steps, l, m, i, k, key) && j <= k < n
    ensures RunSplit(steps[..j]).store.Verdict(key) == Some(true)
    ensures RunSplit(steps[..n]).store.Verdict(key) == Some(false)
    decreases n
  {
    SplitPrefix(steps, n - 1);
    SplitVerdictStays(steps, j, n - 1, key);
    VerdictChange(RunSplit(steps[..n - 1]), steps[n - 1], key);
    if RunSplit(steps[..n - 1]).store.Verdict(key) != RunSplit(steps[..j]).store.Verdict(key) {
      l, m, i, k := ChangeWasFlip(steps, j, n - 1, key);
    } else {
      k := n - 1;
      l, m, i := PendingWithVerdict(steps, k, key);
    }
  }

  lemma FlipChanges(steps: seq<SplitStep>, l: nat, m: nat, i: nat, k: nat, key: Request)
    requires Flip(steps, l, m, i, k, key)
    ensures RunSplit(steps[..k]).store.Verdict(key) == Some(true)
    ensures key in RunSplit(steps[..k + 1]).store.mitigated
  {
    LateAddStays(steps, i, k, key);
    SplitPrefix(steps, k);
  }

  /** Over any run, a verdict given by one point has changed at a later one exactly if there was a flip in
      between, and it can change only from "crashes" to "does not crash". So a verdict cached at the one point
      is wrong at the other exactly then. */
  lemma SplitVerdictChangesIff(steps: seq<SplitStep>, j: nat, n: nat, key: Request)
    requires j <= n <= |steps| && RunSplit(steps[..j]).store.Verdict(key).Some?
    ensures RunSplit(steps[..n]).store.Verdict(key) != RunSplit(steps[..j]).store.Verdict(key)
       <==> exists l: nat, m: nat, i: nat, k: nat :: Flip(steps, l, m, i, k, key) && j <= k < n
    ensures RunSplit(steps[..n]).store.Verdict(key) != RunSplit(steps[..j]).store.Verdict(key) ==>
              && RunSplit(steps[..j]).store.Verdict(key) == Some(true)
              && RunSplit(steps[..n]).store.Verdict(key) == Some(false)
  {
    if RunSplit(steps[..n]).store.Verdict(key) != RunSplit(steps[..j]).store.Verdict(key) {
      var l, m, i, k := ChangeWasFlip(steps, j, n, key);
    } else if l: nat, m: nat, i: nat, k: nat :| Flip(steps, l, m, i, k, key) && j <= k < n {
      FlipChanges(steps, l, m, i, k, key);
      MitigatedStays(steps, k + 1, n, key);
      if key in RunSplit(steps[..j]).store.mitigated {
        MitigatedStays(steps, j, k, key);
      }
    }
  }

  /** Every verdict is permanent over a whole run exactly if there is no flip in it. */
  lemma SplitVerdictsArePermanentIff(steps: seq<SplitStep>, key: Request)
    ensures (forall j: nat, n: nat :: j <= n <= |steps| && RunSplit(steps[..j]).store.Verdict(key).Some? ==>
               RunSplit(steps[..n]).store.Verdict(key) == RunSplit(steps[..j]).store.Verdict(key))
       <==> !(exists l: nat, m: nat, i: nat, k: nat :: Flip(steps, l, m, i, k, key))
  {
    if l: nat, m: nat, i: nat, k: nat :| Flip(steps, l, m, i, k, key) {
      FlipChanges(steps, l, m, i, k, key);
      SplitVerdictChangesIff(steps, k, k + 1, key);
    }
    forall j: nat, n: nat |
      j <= n <= |steps| && RunSplit(steps[..j]).store.Verdict(key).Some?
      && RunSplit(steps[..n]).store.Verdict(key) != RunSplit(steps[..j]).store.Verdict(key)
      ensures exists l: nat, m: nat, i: nat, k: nat :: Flip(steps, l, m, i, k, key)
    {
      var l, m, i, k := ChangeWasFlip(steps, j, n, key);
    }
  }

  /** Two clients ask for the same new key; the verdict for the first arrives before the second adds. */
  ghost function OvertakingRun(key: Request, mark: Mark): seq<SplitStep> {
    [Look(0, key), Look(1, key), Add(0), SplitMark(key, mark), Add(1)]
  }

  lemma AfterOvertaking(key: Request, mark: Mark)
    ensures RunSplit(OvertakingRun(key, mark)).store == Move(EMPTY.(pending := {key}), key, mark).(pending := {key})
  {
    var steps := OvertakingRun(key, mark);
    assert RunSplit(steps[..0]) == SplitSystem(EMPTY, map[]);
    SplitPrefix(steps, 0);
    SplitPrefix(steps, 1);
    assert RunSplit(steps[..2]) == SplitSystem(EMPTY, map[0 := key, 1 := key]);
    SplitPrefix(steps, 2);
    SplitPrefix(steps, 3);
    SplitPrefix(steps, 4);
    assert steps[..5] == steps;
  }

  lemma SplitRunBreaksDisjointness(key: Request)
    ensures var s := RunSplit(OvertakingRun(key, Mitigated)).store;
            key in s.pending && key in s.mitigated && !s.Disjoint()
  {
    AfterOvertaking(key, Mitigated);
    assert key in RunSplit(OvertakingRun(key, Mitigated)).store.pending;
  }

  /** The request is handed out again although it has a verdict, and the second answer replaces the first:
      permanence of verdicts fails too. */
  lemma SplitRunChangesVerdict(key: Request)
    ensures var steps := OvertakingRun(key, NonMitigated);
            && RunSplit(steps).store.Verdict(key) == Some(true)
            && RunSplit(steps + [SplitMark(key, Mitigated)]).store.Verdict(key) == Some(false)
  {
    AfterOvertaking(key, NonMitigated);
    var steps := OvertakingRun(key, NonMitigated);
    assert (steps + [SplitMark(key, Mitigated)])[..|steps|] == steps;
  }

  // ---- The objects ----

  class RedisSets {
    var pending: set<Request>
    var mitigated: set<Request>
    var nonMitigated: set<Request>
    var expired: set<Request>

    ghost function View(): Store
      reads this
    {
      Store(pending, mitigated, nonMitigated, expired)
    }

    constructor ()
      ensures View() == EMPTY
    {
      pending, mitigated, nonMitigated, expired := {}, {}, {}, {};
    }
  }

  /** The sequence without `key`. */
  function Without(recency: seq<Request>, key: Request): (rest: seq<Request>)
    ensures forall k :: k in rest <==> k in recency && k != key
    ensures |rest| <= |recency| && (key in recency ==> |rest| < |recency|)
  {
    if recency == [] then []
    else (if recency[0] == key then [] else [recency[0]]) + Without(recency[1..], key)
  }

  /** The keys by last use, the least recent first: with a full cache, a new key drives out the first. */
  function Used(recency: seq<Request>, key: Request): seq<Request> {
    if key in recency then Without(recency, key) + [key]
    else if |recency| < 1000 then recency + [key]
    else recency[1..] + [key]
  }

  lemma WithoutFirst(recency: seq<Request>)
    requires recency != [] && NoRepeats(recency)
    ensures Without(recency, recency[0]) == recency[1..]
  {
    FirstIsNotLater(recency);
    WithoutAbsent(recency[1..], recency[0]);
    assert [] + Without(recency[1..], recency[0]) == Without(recency[1..], recency[0]);
  }

  lemma FirstIsNotLater(recency: seq<Request>)
    requires recency != [] && NoRepeats(recency)
    ensures recency[0] !in recency[1..]
  {
    forall i | 0 <= i < |recency| - 1
      ensures recency[1..][i] != recency[0]
    {
      assert recency[1..][i] == recency[i + 1];
    }
  }

  lemma {:induction false} WithoutAbsent(recency: seq<Request>, key: Request)
    requires key !in recency
    ensures Without(recency, key) == recency
  {
    if recency != [] {
      WithoutAbsent(recency[1..], key);
    }
  }

  ghost predicate NoRepeats(recency: seq<Request>) {
    forall i, j :: 0 <= i < j < |recency| ==> recency[i] != recency[j]
  }

  lemma {:induction false} WithoutHasNoRepeats(recency: seq<Request>, key: Request)
    requires NoRepeats(recency)
    ensures NoRepeats(Without(recency, key))
  {
    if recency != [] {
      WithoutHasNoRepeats(recency[1..], key);
      OneInFront(recency[0], Without(recency[1..], key));
    }
  }

  lemma OneInFront(key: Request, recency: seq<Request>)
    ensures NoRepeats(recency) && key !in recency ==> NoRepeats([key] + recency)
  {
  }

  lemma OneAtEnd(recency: seq<Request>, key: Request)
    ensures NoRepeats(recency) && key !in recency ==> NoRepeats(recency + [key])
  {
  }

  lemma UsedKeepsCache(recency: seq<Request>, key: Request)
    requires NoRepeats(recency) && |recency| <= 1000
    ensures NoRepeats(Used(recency, key)) && |Used(recency, key)| <= 1000
    ensures forall k :: k in Used(recency, key) <==>
              k == key || (k in recency && !(key !in recency && |recency| == 1000 && k == recency[0]))
  {
    if key in recency {
      WithoutHasNoRepeats(recency, key);
      OneAtEnd(Without(recency, key), key);
    } else if |recency| < 1000 {
      OneAtEnd(recency, key);
    } else {
      WithoutFirst(recency);
      OneAtEnd(recency[1..], key);
    }
  }

  class PoVReproduceStatus {
    const redis: RedisSets
    /** The least-recently-used cache of `_did_crash`: its entries, and their keys, oldest first. */
    var cache: Cache
    var recency: seq<Request>

    ghost predicate Valid()
      reads this
    {
      && |recency| <= CACHE_SIZE
      && NoRepeats(recency)
      && forall key :: key in cache <==> key in recency
    }

    constructor (redis: RedisSets)
      ensures Valid() && this.redis == redis && cache == map[]
    {
      this.redis := redis;
      cache, recency := map[], [];
    }

    /** On a miss the oldest entry may have to go: an eviction of some key other than the one asked for. */
    method DidCrash(key: Request) returns (didCrash: Option<bool>, ghost evicted: set<Request>)
      requires Valid()
      modifies this
      ensures Valid()
      ensures didCrash == Lookup(old(cache), redis.View(), key)
      ensures cache == old(cache)[key := didCrash] - evicted
      ensures key !in evicted && (key in old(cache) ==> evicted == {})
      ensures recency == Used(old(recency), key)
    {
      evicted := {};
      UsedKeepsCache(recency, key);
      if key in cache {
        recency := Without(recency, key) + [key];
        return cache[key], {};
      }
      didCrash := if key in redis.mitigated then Some(false)
                  else if key in redis.nonMitigated then Some(true)
                  else None;
      cache := cache[key := didCrash];
      if |recency| == CACHE_SIZE {
        var oldest := recency[0];
        evicted := {oldest};
        cache := cache - {oldest};
        WithoutFirst(recency);
        recency := Without(recency, oldest);
      }
      recency := recency + [key];
    }

    /** `request_status` changes the pending set and answers as the atomic step of the machine does. */
    method RequestStatus(key: Request) returns (response: Option<bool>, ghost evicted: set<Request>)
      requires Valid()
      modifies this, redis`pending
      ensures Valid()
      ensures (redis.View(), response) == Ask(old(redis.View()), key, Lookup(old(cache), old(redis.View()), key))
      ensures cache == old(cache)[key := Lookup(old(cache), old(redis.View()), key)] - evicted
      ensures key !in evicted && recency == Used(old(recency), key)
      ensures redis.pending == old(redis.pending) + if response.None? then {key} else {}
    {
      var didCrash;
      didCrash, evicted := DidCrash(key);
      if didCrash.Some? {
        return didCrash, evicted;
      }
      if key in redis.pending {
        return None, evicted;
      }
      if key in redis.mitigated {
        return Some(false), evicted;
      }
      if key in redis.nonMitigated {
        return Some(true), evicted;
      }
      redis.pending := redis.pending + {key};
      return None, evicted;
    }

    method MarkMitigated(key: Request) returns (moved: bool)
      modifies redis`pending, redis`mitigated
      ensures redis.View() == Move(old(redis.View()), key, Mitigated)
      ensures moved == (key in old(redis.pending))
      ensures redis.pending == old(redis.pending) - {key}
      ensures redis.mitigated == old(redis.mitigated) + if moved then {key} else {}
    {
      if key !in redis.pending {
        return false;
      }
      redis.pending, redis.mitigated := redis.pending - {key}, redis.mitigated + {key};
      return true;
    }

    method MarkNonMitigated(key: Request) returns (moved: bool)
      modifies redis`pending, redis`nonMitigated
      ensures redis.View() == Move(old(redis.View()), key, NonMitigated)
      ensures moved == (key in old(redis.pending))
      ensures redis.pending == old(redis.pending) - {key}
      ensures redis.nonMitigated == old(redis.nonMitigated) + if moved then {key} else {}
    {
      if key !in redis.pending {
        return false;
      }
      redis.pending, redis.nonMitigated := redis.pending - {key}, redis.nonMitigated + {key};
      return true;
    }

    method MarkExpired(key: Request) returns (moved: bool)
      modifies redis`pending, redis`expired
      ensures redis.View() == Move(old(redis.View()), key, Expired)
      ensures moved == (key in old(redis.pending))
      ensures redis.pending == old(redis.pending) - {key}
      ensures redis.expired == old(redis.expired) + if moved then {key} else {}
    {
      if key !in redis.pending {
        return false;
      }
      redis.pending, redis.expired := redis.pending - {key}, redis.expired + {key};
      return true;
    }

    /** `get_one_pending`: some member of the pending set. */
    method GetOnePending() returns (key: Option<Request>)
      ensures key.None? <==> redis.pending == {}
      ensures key.Some? ==> key.value in redis.pending
    {
      if redis.pending == {} {
        return None;
      }
      var entry :| entry in redis.pending;
      return Some(entry);
    }
  }
}
