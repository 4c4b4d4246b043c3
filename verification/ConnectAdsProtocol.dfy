// The provider connection used by any number of threads: one step per lock region.
// queueMutex_, stateMutex_ and proxyMutex_ are each taken and released within one step;
// connectMutex_ is held across steps.

module ConnectAdsProtocol {
  import opened ConnectAds
  import opened Options

  datatype Pc =
    | Idle
    // notifyKit
    | NotifyRead(code: int)                         // about to read the state
    | NotifyAdd(code: int, seen: ConnectionState)   // about to enqueue
    | NotifyLock                                    // about to take connectMutex_
    | NotifyRecheck                                 // holds connectMutex_, from here to its release
    | NotifySet
    | NotifyConnect
    | NotifyFail
    // ProcessMessageQueue and SendMessage; temp is the swapped queue
    | DrainSwap
    | DrainState(temp: seq<int>)
    | DrainProxy(temp: seq<int>)
    | DrainPutBack(temp: seq<int>)
    | DrainNext(temp: seq<int>)
    | SendProxy(code: int, temp: seq<int>)
    | SendState(code: int, temp: seq<int>, hasProxy: bool)
    | SendCall(code: int, temp: seq<int>)
    | SendPutBack(code: int, temp: seq<int>)
    // OnAbilityConnectDone, OnAbilityDisconnectDone
    | ConnectDoneProxy(remote: bool)
    | ConnectDoneState
    | DisconnectDoneProxy
    | DisconnectDoneState
    // DisconnectService and DisconnectIfIdle
    | ServiceLock
    | IdleProxy                                     // holds connectMutex_, from here to its release
    | IdleState
    | IdleSet

  // What the threads share.
  datatype Shared = Shared(
    queue: seq<int>, codes: set<int>, conn: ConnectionState, proxy: bool,
    given: seq<int>,       // every code that notifyKit has enqueued
    sent: seq<int>,        // every SendRequest
    holder: Option<nat>,   // of connectMutex_
    connects: nat,         // connect calls issued
    drops: nat)            // steps that set the state to DISCONNECTED

  datatype State = State(shared: Shared, threads: seq<Pc>)

  function Initial(n: nat): State {
    State(Shared([], {}, DISCONNECTED, false, [], [], None, 0, 0), seq(n, _ => Idle))
  }

  // A thread starts an operation, or takes its next step; ok decides what the step leaves
  // open (whether a connect call or a send succeeds).
  datatype Action = Start(t: nat, entry: Pc) | Advance(t: nat, ok: bool)

  predicate IsEntry(pc: Pc) {
    pc.NotifyRead? || pc.ConnectDoneProxy? || pc.DisconnectDoneProxy? || pc.ServiceLock?
  }

  predicate Enabled(s: State, a: Action) {
    match a
    case Start(t, entry) => t < |s.threads| && s.threads[t].Idle? && IsEntry(entry)
    case Advance(t, _) =>
      && t < |s.threads| && !s.threads[t].Idle?
      && (s.threads[t].NotifyLock? || s.threads[t].ServiceLock? ==> s.shared.holder.None?)
  }

  function Add(g: Shared, code: int): Shared {
    g.(queue := Enqueue(g.queue, code), codes := g.codes + {code})
  }

  function Drop(g: Shared): Shared {
    g.(conn := DISCONNECTED, drops := g.drops + 1)
  }

  function Release(g: Shared): (Shared, Pc) {
    (g.(holder := None), Idle)
  }

  // One step of thread t at pc.
  function Advanced(g: Shared, t: nat, pc: Pc, ok: bool): (Shared, Pc) {
    match pc
    case Idle => (g, Idle)
    case NotifyRead(code) => (g, NotifyAdd(code, g.conn))
    case NotifyAdd(code, seen) =>
      (Add(g, code).(given := g.given + [code]),
       if seen == CONNECTED then DrainSwap else if seen == DISCONNECTED then NotifyLock else Idle)
    case NotifyLock => (g.(holder := Some(t)), NotifyRecheck)
    case NotifyRecheck => if g.conn == DISCONNECTED then (g, NotifySet) else Release(g)
    case NotifySet => (g.(conn := CONNECTING), NotifyConnect)
    case NotifyConnect =>
      var g' := g.(connects := g.connects + 1);
      if ok then Release(g') else (g', NotifyFail)
    case NotifyFail => Release(Drop(g))
    case DrainSwap =>
      if g.queue == [] then (g, Idle) else (g.(queue := [], codes := {}), DrainState(g.queue))
    case DrainState(temp) => (g, if g.conn == CONNECTED then DrainProxy(temp) else DrainPutBack(temp))
    case DrainProxy(temp) => (g, if g.proxy then DrainNext(temp) else DrainPutBack(temp))
    case DrainPutBack(temp) =>
      (g.(queue := EnqueueAll(g.queue, temp), codes := g.codes + Elements(temp)), Idle)
    case DrainNext(temp) => (g, if temp == [] then Idle else SendProxy(temp[0], temp[1..]))
    case SendProxy(code, temp) => (g, SendState(code, temp, g.proxy))
    case SendState(code, temp, hasProxy) =>
      (g, if g.conn == CONNECTED && hasProxy then SendCall(code, temp) else SendPutBack(code, temp))
    case SendCall(code, temp) =>
      if ok then (g.(sent := g.sent + [code]), DrainNext(temp)) else (g, SendPutBack(code, temp))
    case SendPutBack(code, temp) => (Add(g, code), DrainNext(temp))
    case ConnectDoneProxy(remote) => (g.(proxy := remote), ConnectDoneState)
    case ConnectDoneState => (g.(conn := CONNECTED), DrainSwap)
    case DisconnectDoneProxy => (g.(proxy := false), DisconnectDoneState)
    case DisconnectDoneState => (Drop(g), Idle)
    case ServiceLock => (g.(holder := Some(t)), IdleProxy)
    case IdleProxy => if g.proxy then (g, IdleState) else Release(g)
    case IdleState => if g.conn == CONNECTED then (g, IdleSet) else Release(g)
    case IdleSet => Release(Drop(g))
  }

  function Step(s: State, a: Action): State
    requires Enabled(s, a)
  {
    match a
    case Start(t, entry) => State(s.shared, s.threads[t := entry])
    case Advance(t, ok) =>
      var (g, pc) := Advanced(s.shared, t, s.threads[t], ok);
      State(g, s.threads[t := pc])
  }

  predicate Legal(s: State, run: seq<Action>)
    decreases |run|, 0
  {
    run == [] || (Legal(s, run[..|run| - 1]) && Enabled(After(s, run[..|run| - 1]), run[|run| - 1]))
  }

  function After(s: State, run: seq<Action>): State
    requires Legal(s, run)
    decreases |run|, 1
  {
    if run == [] then s else Step(After(s, run[..|run| - 1]), run[|run| - 1])
  }

  // ----- the queue and its hash set -----

  ghost predicate QueueConsistent(g: Shared) {
    NoDuplicates(g.queue) && g.codes == Elements(g.queue)
  }

  lemma {:induction false} ElementsHead(queue: seq<int>)
    requires queue != []
    ensures Elements(queue) == {queue[0]} + Elements(queue[1..])
  {
    if |queue| > 1 {
      var n := |queue| - 1;
      ElementsHead(queue[..n]);
      assert queue[..n][1..] == queue[1..][..n - 1];
    }
  }

  lemma {:induction false} EnqueueAllConsistent(queue: seq<int>, temp: seq<int>)
    requires NoDuplicates(queue)
    ensures NoDuplicates(EnqueueAll(queue, temp))
    ensures Elements(EnqueueAll(queue, temp)) == Elements(queue) + Elements(temp)
    decreases |temp|
  {
    if temp != [] {
      EnqueueConsistent(queue, temp[0]);
      EnqueueAllConsistent(Enqueue(queue, temp[0]), temp[1..]);
      ElementsHead(temp);
    }
  }

  lemma StepQueueConsistent(g: Shared, t: nat, pc: Pc, ok: bool)
    requires QueueConsistent(g)
    ensures QueueConsistent(Advanced(g, t, pc, ok).0)
  {
    hide EnqueueAll, Enqueue;
    match pc {
      case NotifyAdd(code, _) => EnqueueConsistent(g.queue, code);
      case SendPutBack(code, _) => EnqueueConsistent(g.queue, code);
      case DrainPutBack(temp) => EnqueueAllConsistent(g.queue, temp);
      case _ =>
    }
  }

  // ----- no message is lost -----

  // Codes that a thread has taken out of the queue and not yet sent or put back.
  function Held(pc: Pc): seq<int> {
    match pc
    case DrainState(temp) => temp
    case DrainProxy(temp) => temp
    case DrainPutBack(temp) => temp
    case DrainNext(temp) => temp
    case SendProxy(code, temp) => [code] + temp
    case SendState(code, temp, _) => [code] + temp
    case SendCall(code, temp) => [code] + temp
    case SendPutBack(code, temp) => [code] + temp
    case _ => []
  }

  ghost predicate HeldBy(s: State, t: nat, code: int) {
    t < |s.threads| && code in Held(s.threads[t])
  }

  // Queued, in some thread's temporary queue, or sent at or after a position of the log.
  ghost predicate Accounted(s: State, code: int, since: nat) {
    || code in s.shared.queue
    || (exists t :: HeldBy(s, t, code))
    || (since <= |s.shared.sent| && code in s.shared.sent[since..])
  }

  lemma {:induction false} EnqueueAllKeeps(queue: seq<int>, temp: seq<int>, code: int)
    requires code in queue || code in temp
    ensures code in EnqueueAll(queue, temp)
    decreases |temp|
  {
    if temp != [] {
      assert temp == [temp[0]] + temp[1..];
      EnqueueAllKeeps(Enqueue(queue, temp[0]), temp[1..], code);
    }
  }

  lemma EnqueueKeeps(queue: seq<int>, c: int, code: int)
    ensures code in Enqueue(queue, c) <==> code in queue || code == c
  {
  }

  lemma QueuedAfterStep(g: Shared, t: nat, pc: Pc, ok: bool, code: int)
    requires code in g.queue
    ensures var (g', pc') := Advanced(g, t, pc, ok);
            code in g'.queue || code in Held(pc')
  {
    hide Elements, Enqueue, EnqueueAll;
    match pc {
      case NotifyAdd(c, _) => EnqueueKeeps(g.queue, c, code);
      case DrainPutBack(temp) => EnqueueAllKeeps(g.queue, temp, code);
      case SendPutBack(c, _) => EnqueueKeeps(g.queue, c, code);
      case _ =>
    }
  }

  lemma HeldAfterStep(g: Shared, t: nat, pc: Pc, ok: bool, code: int)
    requires code in Held(pc)
    ensures var (g', pc') := Advanced(g, t, pc, ok);
            code in g'.queue || code in Held(pc') || g'.sent == g.sent + [code]
  {
    hide Elements, Enqueue, EnqueueAll;
    match pc {
      case DrainPutBack(temp) => EnqueueAllKeeps(g.queue, temp, code);
      case DrainNext(temp) => assert temp == [temp[0]] + temp[1..];
      case SendPutBack(c, _) => EnqueueKeeps(g.queue, c, code);
      case _ =>
    }
  }

  // What one step does with a code that is queued or that its thread holds.
  lemma CodeAfterStep(g: Shared, t: nat, pc: Pc, ok: bool, code: int)
    requires code in g.queue || code in Held(pc)
    ensures var (g', pc') := Advanced(g, t, pc, ok);
            code in g'.queue || code in Held(pc') || g'.sent == g.sent + [code]
  {
    hide Advanced, Held;
    if code in g.queue {
      QueuedAfterStep(g, t, pc, ok, code);
    } else {
      HeldAfterStep(g, t, pc, ok, code);
    }
  }

  lemma SentGrows(g: Shared, t: nat, pc: Pc, ok: bool)
    ensures g.sent <= Advanced(g, t, pc, ok).0.sent
  {
    hide EnqueueAll, Enqueue, Elements;
  }

  lemma StepAccounted(s: State, a: Action, code: int, since: nat)
    requires Enabled(s, a) && since <= |s.shared.sent| && Accounted(s, code, since)
    ensures Accounted(Step(s, a), code, since) && since <= |Step(s, a).shared.sent|
  {
    hide Advanced;
    var s' := Step(s, a);
    match a {
      case Start(t, entry) =>
        if u :| HeldBy(s, u, code) {
          assert HeldBy(s', u, code);
        }
      case Advance(t, ok) =>
        SentGrows(s.shared, t, s.threads[t], ok);
        if code in s.shared.queue || HeldBy(s, t, code) {
          CodeAfterStep(s.shared, t, s.threads[t], ok, code);
          assert code in Held(s'.threads[t]) ==> HeldBy(s', t, code);
          if s'.shared.sent == s.shared.sent + [code] {
            assert s'.shared.sent[since..] == s.shared.sent[since..] + [code];
          }
        } else if u :| HeldBy(s, u, code) {
          assert HeldBy(s', u, code);
        } else {
          assert s.shared.sent[since..] <= s'.shared.sent[since..];
        }
    }
  }

  lemma {:induction false} AccountedForever(s: State, run: seq<Action>, code: int, since: nat)
    requires Accounted(s, code, since) && since <= |s.shared.sent| && Legal(s, run)
    ensures Accounted(After(s, run), code, since) && since <= |After(s, run).shared.sent|
  {
    hide Enabled, Step, Accounted;
    if run != [] {
      var k := |run| - 1;
      AccountedForever(s, run[..k], code, since);
      StepAccounted(After(s, run[..k]), run[k], code, since);
    }
  }

  // From the step in which notifyKit enqueues a code on, whatever the threads do, the
  // code is queued, held by a draining thread, or has been sent since that step.
  lemma NoMessageLoss(s: State, t: nat, ok: bool, later: seq<Action>)
    requires t < |s.threads| && s.threads[t].NotifyAdd?
    requires Legal(Step(s, Advance(t, ok)), later)
    ensures Accounted(After(Step(s, Advance(t, ok)), later), s.threads[t].code, |s.shared.sent|)
  {
    var s1 := Step(s, Advance(t, ok));
    assert s.threads[t].code in s1.shared.queue;
    AccountedForever(s1, later, s.threads[t].code, |s.shared.sent|);
  }

  // ----- no message is invented -----

  function Count(codes: seq<int>, code: int): nat {
    if codes == [] then 0 else Count(codes[..|codes| - 1], code) + if codes[|codes| - 1] == code then 1 else 0
  }

  lemma {:induction false} CountConcat(a: seq<int>, b: seq<int>, code: int)
    ensures Count(a + b, code) == Count(a, code) + Count(b, code)
  {
    if b == [] {
      assert a + b == a;
    } else {
      var n := |b| - 1;
      CountConcat(a, b[..n], code);
      assert (a + b)[..|a| + n] == a + b[..n];
    }
  }

  lemma EnqueueCount(queue: seq<int>, c: int, code: int)
    ensures Count(Enqueue(queue, c), code) <= Count(queue, code) + Count([c], code)
  {
    CountConcat(queue, [c], code);
  }

  lemma {:induction false} EnqueueAllCount(queue: seq<int>, temp: seq<int>, code: int)
    ensures Count(EnqueueAll(queue, temp), code) <= Count(queue, code) + Count(temp, code)
    decreases |temp|
  {
    hide Enqueue;
    if temp != [] {
      assert temp == [temp[0]] + temp[1..];
      CountConcat([temp[0]], temp[1..], code);
      EnqueueCount(queue, temp[0], code);
      EnqueueAllCount(Enqueue(queue, temp[0]), temp[1..], code);
    }
  }

  function HeldCount(threads: seq<Pc>, code: int): nat {
    if threads == [] then 0 else HeldCount(threads[..|threads| - 1], code) + Count(Held(threads[|threads| - 1]), code)
  }

  lemma {:induction false} HeldCountUpdate(threads: seq<Pc>, t: nat, pc: Pc, code: int)
    requires t < |threads|
    ensures HeldCount(threads[t := pc], code) + Count(Held(threads[t]), code)
         == HeldCount(threads, code) + Count(Held(pc), code)
  {
    hide Held, Count;
    var n := |threads| - 1;
    if t < n {
      HeldCountUpdate(threads[..n], t, pc, code);
      assert threads[t := pc][..n] == threads[..n][t := pc];
    } else {
      assert threads[t := pc][..n] == threads[..n];
    }
  }

  // Where a code can be as far as one thread is concerned.
  function Present(g: Shared, pc: Pc, code: int): nat {
    Count(g.sent, code) + Count(g.queue, code) + Count(Held(pc), code)
  }

  lemma NoneCount(code: int)
    ensures Count([], code) == 0
  {
  }

  lemma StepPresent(g: Shared, t: nat, pc: Pc, ok: bool, code: int)
    ensures var (g', pc') := Advanced(g, t, pc, ok);
            Present(g', pc', code) + Count(g.given, code) <= Present(g, pc, code) + Count(g'.given, code)
  {
    hide Enqueue, EnqueueAll, Elements, Count;
    NoneCount(code);
    match pc {
      case NotifyAdd(c, _) =>
        EnqueueCount(g.queue, c, code);
        CountConcat(g.given, [c], code);
      case DrainPutBack(temp) =>
        EnqueueAllCount(g.queue, temp, code);
      case DrainNext(temp) =>
        assert temp != [] ==> temp == [temp[0]] + temp[1..];
      case SendCall(c, temp) =>
        CountConcat([c], temp, code);
        CountConcat(g.sent, [c], code);
      case SendPutBack(c, temp) =>
        CountConcat([c], temp, code);
        EnqueueCount(g.queue, c, code);
      case _ =>
    }
  }

  // Every code that is somewhere has been given at least as often.
  ghost predicate Conserved(s: State, code: int) {
    Count(s.shared.sent, code) + Count(s.shared.queue, code) + HeldCount(s.threads, code) <= Count(s.shared.given, code)
  }

  lemma EntriesHoldNothing(entry: Pc)
    requires IsEntry(entry)
    ensures Held(entry) == Held(Idle) == []
  {
  }

  lemma StepConserved(s: State, a: Action, code: int)
    requires Conserved(s, code) && Enabled(s, a)
    ensures Conserved(Step(s, a), code)
  {
    hide Advanced, HeldCount, Held, Count;
    match a {
      case Start(t, entry) =>
        HeldCountUpdate(s.threads, t, entry, code);
        EntriesHoldNothing(entry);
      case Advance(t, ok) =>
        var (g', pc') := Advanced(s.shared, t, s.threads[t], ok);
        HeldCountUpdate(s.threads, t, pc', code);
        StepPresent(s.shared, t, s.threads[t], ok, code);
    }
  }

  lemma {:induction false} HeldCountIdle(threads: seq<Pc>, code: int)
    requires forall t :: 0 <= t < |threads| ==> threads[t] == Idle
    ensures HeldCount(threads, code) == 0
  {
    if threads != [] {
      HeldCountIdle(threads[..|threads| - 1], code);
    }
  }

  // ----- connect calls -----

  predicate InConnect(pc: Pc) {
    || pc.NotifyRecheck? || pc.NotifySet? || pc.NotifyConnect? || pc.NotifyFail?
    || pc.IdleProxy? || pc.IdleState? || pc.IdleSet?
  }

  ghost predicate Exclusive(s: State) {
    && (forall t :: 0 <= t < |s.threads| ==> (InConnect(s.threads[t]) <==> s.shared.holder == Some(t)))
    && (s.shared.holder.Some? ==> s.shared.holder.value < |s.threads|)
  }

  function HolderPc(s: State): Pc {
    if s.shared.holder.Some? && s.shared.holder.value < |s.threads| then s.threads[s.shared.holder.value] else Idle
  }

  // Connect calls issued or decided, and one more that the state still allows, less the
  // steps that set the state to DISCONNECTED.
  function Potential(s: State): int {
    s.shared.connects - s.shared.drops
    + (if HolderPc(s).NotifyConnect? then 1 else 0)
    + (if HolderPc(s).NotifySet? || s.shared.conn == DISCONNECTED then 1 else 0)
  }

  lemma StepExclusive(s: State, a: Action)
    requires Exclusive(s) && Enabled(s, a)
    ensures Exclusive(Step(s, a))
  {
    hide EnqueueAll, Enqueue, Elements;
  }

  lemma StepPotential(s: State, a: Action)
    requires Exclusive(s) && Enabled(s, a)
    ensures Potential(Step(s, a)) <= Potential(s)
  {
    hide EnqueueAll, Enqueue, Elements;
  }

  // ----- every run -----

  lemma StepQueue(s: State, a: Action)
    requires QueueConsistent(s.shared) && Enabled(s, a)
    ensures QueueConsistent(Step(s, a).shared)
  {
    hide Advanced, QueueConsistent;
    if a.Advance? {
      StepQueueConsistent(s.shared, a.t, s.threads[a.t], a.ok);
    }
  }

  lemma InitialGood(n: nat, code: int)
    ensures Conserved(Initial(n), code) && Exclusive(Initial(n)) && Potential(Initial(n)) == 1
  {
    HeldCountIdle(Initial(n).threads, code);
  }

  lemma {:induction false} Invariants(n: nat, run: seq<Action>, code: int)
    requires Legal(Initial(n), run)
    ensures var s := After(Initial(n), run);
            QueueConsistent(s.shared) && Conserved(s, code) && Exclusive(s) && Potential(s) <= 1
  {
    hide Enabled, Step, Conserved, Exclusive, Potential;
    if run == [] {
      InitialGood(n, code);
    } else {
      var k := |run| - 1;
      var s := After(Initial(n), run[..k]);
      Invariants(n, run[..k], code);
      StepConserved(s, run[k], code);
      StepExclusive(s, run[k]);
      StepPotential(s, run[k]);
      StepQueue(s, run[k]);
    }
  }

  // Between any two steps the queue has no duplicates and the hash set holds exactly its
  // elements.
  lemma QueueMatchesSet(n: nat, run: seq<Action>)
    requires Legal(Initial(n), run)
    ensures var g := After(Initial(n), run).shared;
            NoDuplicates(g.queue) && forall code :: code in g.codes <==> code in g.queue
  {
    hide Legal, After, NoDuplicates;
    Invariants(n, run, 0);
    var g := After(Initial(n), run).shared;
    forall code ensures code in g.codes <==> code in g.queue {
      ElementsMember(g.queue, code);
    }
  }

  // No code is sent more often than notifyKit was given it.
  lemma NoMessageInvented(n: nat, run: seq<Action>, code: int)
    requires Legal(Initial(n), run)
    ensures var g := After(Initial(n), run).shared;
            Count(g.sent, code) <= Count(g.given, code)
  {
    hide Legal, After;
    Invariants(n, run, code);
  }

  // At most one connect call more than there were steps that set the state to
  // DISCONNECTED.
  lemma ConnectsBounded(n: nat, run: seq<Action>)
    requires Legal(Initial(n), run)
    ensures After(Initial(n), run).shared.connects <= 1 + After(Initial(n), run).shared.drops
  {
    hide Legal, After;
    Invariants(n, run, 0);
  }

  // ----- runs of one thread -----

  lemma Extend(s: State, run: seq<Action>, a: Action)
    requires Legal(s, run) && Enabled(After(s, run), a)
    ensures Legal(s, run + [a]) && After(s, run + [a]) == Step(After(s, run), a)
  {
    assert (run + [a])[..|run|] == run;
  }

  lemma {:induction false} Concat(s: State, run: seq<Action>, later: seq<Action>)
    requires Legal(s, run) && Legal(After(s, run), later)
    ensures Legal(s, run + later) && After(s, run + later) == After(After(s, run), later)
  {
    hide Enabled, Step;
    if later == [] {
      assert run + later == run;
    } else {
      var k := |later| - 1;
      Concat(s, run, later[..k]);
      assert (run + later)[..|run| + k] == run + later[..k];
    }
  }

  // Thread t starts an operation and takes its first n steps, in which calls succeed.
  function Operation(t: nat, entry: Pc, n: nat): seq<Action> {
    [Start(t, entry)] + seq(n, _ => Advance(t, true))
  }

  // What those steps make of the shared state, if no lock stops them.
  function Solo(g: Shared, t: nat, entry: Pc, n: nat): (Shared, Pc) {
    if n == 0 then (g, entry)
    else
      var (g', pc) := Solo(g, t, entry, n - 1);
      Advanced(g', t, pc, true)
  }

  predicate RunsSolo(g: Shared, t: nat, entry: Pc, n: nat) {
    n == 0 ||
    var (g', pc) := Solo(g, t, entry, n - 1);
    RunsSolo(g, t, entry, n - 1) && pc != Idle && (pc.NotifyLock? || pc.ServiceLock? ==> g'.holder.None?)
  }

  lemma {:induction false} OperationRuns(s: State, t: nat, entry: Pc, n: nat)
    requires t < |s.threads| && s.threads[t] == Idle && IsEntry(entry) && RunsSolo(s.shared, t, entry, n)
    ensures Legal(s, Operation(t, entry, n))
    ensures var (g, pc) := Solo(s.shared, t, entry, n);
            After(s, Operation(t, entry, n)) == State(g, s.threads[t := pc])
  {
    hide Advanced;
    if n == 0 {
      Extend(s, [], Start(t, entry));
      assert Operation(t, entry, 0) == [] + [Start(t, entry)];
    } else {
      OperationRuns(s, t, entry, n - 1);
      Extend(s, Operation(t, entry, n - 1), Advance(t, true));
      assert Operation(t, entry, n) == Operation(t, entry, n - 1) + [Advance(t, true)];
    }
  }

  lemma NoSteps(g: Shared, t: nat, entry: Pc)
    ensures RunsSolo(g, t, entry, 0) && Solo(g, t, entry, 0) == (g, entry)
  {
  }

  lemma SoloStep(g: Shared, t: nat, entry: Pc, n: nat, g': Shared, pc: Pc)
    requires RunsSolo(g, t, entry, n) && Solo(g, t, entry, n) == (g', pc)
    requires pc != Idle && (pc.NotifyLock? || pc.ServiceLock? ==> g'.holder.None?)
    ensures RunsSolo(g, t, entry, n + 1) && Solo(g, t, entry, n + 1) == Advanced(g', t, pc, true)
  {
    hide Advanced;
  }

  // The shared state after a notifyKit has found the state DISCONNECTED and connected.
  function AfterNotify(g: Shared, code: int): Shared {
    Add(g, code).(given := g.given + [code], conn := CONNECTING, holder := None, connects := g.connects + 1)
  }

  lemma AddKeeps(g: Shared, code: int)
    ensures Add(g, code) == g.(queue := Add(g, code).queue, codes := Add(g, code).codes)
  {
  }

  // notifyKit up to its connect call, when it finds the state DISCONNECTED.
  lemma NotifyDecides(g: Shared, t: nat, code: int)
    requires g.conn == DISCONNECTED && g.holder.None?
    ensures RunsSolo(g, t, NotifyRead(code), 5)
    ensures Solo(g, t, NotifyRead(code), 5)
         == (Add(g, code).(given := g.given + [code], conn := CONNECTING, holder := Some(t)), NotifyConnect)
  {
    hide Add, EnqueueAll, Enqueue, Elements, Solo, RunsSolo;
    var entry := NotifyRead(code);
    NoSteps(g, t, entry);
    AddKeeps(g, code);
    var added := Add(g, code).(given := g.given + [code]);
    SoloStep(g, t, entry, 0, g, entry);
    SoloStep(g, t, entry, 1, g, NotifyAdd(code, DISCONNECTED));
    SoloStep(g, t, entry, 2, added, NotifyLock);
    SoloStep(g, t, entry, 3, added.(holder := Some(t)), NotifyRecheck);
    SoloStep(g, t, entry, 4, added.(holder := Some(t)), NotifySet);
  }

  lemma NotifyConnects(g: Shared, t: nat, code: int)
    requires g.conn == DISCONNECTED && g.holder.None?
    ensures RunsSolo(g, t, NotifyRead(code), 6)
    ensures Solo(g, t, NotifyRead(code), 6) == (AfterNotify(g, code), Idle)
  {
    hide Add, EnqueueAll, Enqueue, Elements, Solo, RunsSolo;
    var decided := Add(g, code).(given := g.given + [code], conn := CONNECTING, holder := Some(t));
    NotifyDecides(g, t, code);
    AddKeeps(g, code);
    SoloStep(g, t, NotifyRead(code), 5, decided, NotifyConnect);
  }
}
