// When the queue of the provider connection is empty: for any number of threads, what is
// left behind, and for one thread alone, what a drain does.

module ConnectAdsDrain {
  import opened Options
  import opened Sequences
  import opened ConnectAds
  import opened ConnectAdsProtocol

  // ----- what is left in the queue -----

  // A code is left behind when it is enqueued by a notifyKit that has not read CONNECTED,
  // or put back by a drain or a send; the next swap takes whatever is left.
  predicate LeftBy(pc: Pc, left: bool) {
    match pc
    case NotifyAdd(_, seen) => left || seen != CONNECTED
    case DrainPutBack(_) => true
    case SendPutBack(_, _) => true
    case DrainSwap => false
    case _ => left
  }

  predicate Left(s: State, run: seq<Action>)
    requires Legal(s, run)
  {
    run != [] &&
    var k := |run| - 1;
    match run[k]
    case Start(_, _) => Left(s, run[..k])
    case Advance(t, _) => LeftBy(After(s, run[..k]).threads[t], Left(s, run[..k]))
  }

  // A swapped queue is not empty until its codes are sent.
  predicate HasSwapped(pc: Pc) {
    match pc
    case DrainState(temp) => temp != []
    case DrainProxy(temp) => temp != []
    case DrainPutBack(temp) => temp != []
    case _ => true
  }

  ghost predicate AtSwap(s: State, t: nat) {
    t < |s.threads| && s.threads[t] == DrainSwap
  }

  // What is left is queued, and what is queued is left or about to be swapped.
  ghost predicate LeftIsQueued(s: State, left: bool) {
    && (forall t :: 0 <= t < |s.threads| ==> HasSwapped(s.threads[t]))
    && (left ==> s.shared.queue != [])
    && (s.shared.queue != [] && !left ==> exists t :: AtSwap(s, t))
  }

  lemma AdvancedLeft(g: Shared, t: nat, pc: Pc, ok: bool, left: bool)
    requires HasSwapped(pc) && (left ==> g.queue != [])
    ensures var (g', pc') := Advanced(g, t, pc, ok);
            && HasSwapped(pc')
            && (LeftBy(pc, left) ==> g'.queue != [])
            && (g'.queue != [] && !LeftBy(pc, left) ==>
                  pc' == DrainSwap || (g.queue != [] && !left && pc != DrainSwap))
  {
    hide Elements, Enqueue, EnqueueAll;
    match pc {
      case NotifyAdd(code, _) => EnqueueKeeps(g.queue, code, code);
      case DrainPutBack(temp) => EnqueueAllKeeps(g.queue, temp, temp[0]);
      case SendPutBack(code, _) => EnqueueKeeps(g.queue, code, code);
      case _ =>
    }
  }

  lemma StepLeft(s: State, t: nat, ok: bool, left: bool)
    requires LeftIsQueued(s, left) && Enabled(s, Advance(t, ok))
    ensures LeftIsQueued(Step(s, Advance(t, ok)), LeftBy(s.threads[t], left))
  {
    hide Advanced, LeftBy, HasSwapped;
    AdvancedLeft(s.shared, t, s.threads[t], ok, left);
    var s' := Step(s, Advance(t, ok));
    if s'.shared.queue != [] && !LeftBy(s.threads[t], left) {
      if s'.threads[t] == DrainSwap {
        assert AtSwap(s', t);
      } else {
        var u :| AtSwap(s, u);
        assert AtSwap(s', u);
      }
    }
  }

  lemma StartLeft(s: State, t: nat, entry: Pc, left: bool)
    requires LeftIsQueued(s, left) && Enabled(s, Start(t, entry))
    ensures LeftIsQueued(Step(s, Start(t, entry)), left)
  {
    var s' := Step(s, Start(t, entry));
    if s.shared.queue != [] && !left {
      var u :| AtSwap(s, u);
      assert AtSwap(s', u);
    }
  }

  lemma InitialLeft(n: nat)
    ensures LeftIsQueued(Initial(n), false)
  {
  }

  lemma {:induction false} LeftInvariant(n: nat, run: seq<Action>)
    requires Legal(Initial(n), run)
    ensures LeftIsQueued(After(Initial(n), run), Left(Initial(n), run))
  {
    hide Step, Enabled, LeftIsQueued, LeftBy;
    if run == [] {
      InitialLeft(n);
    } else {
      var k := |run| - 1;
      LeftInvariant(n, run[..k]);
      match run[k]
      case Start(t, entry) => StartLeft(After(Initial(n), run[..k]), t, entry, Left(Initial(n), run[..k]));
      case Advance(t, ok) => StepLeft(After(Initial(n), run[..k]), t, ok, Left(Initial(n), run[..k]));
    }
  }

  // In every interleaving: when all threads are done, the queue is empty if and only if no
  // code was left behind since the last swap.
  lemma EmptyUnlessLeft(n: nat, run: seq<Action>)
    requires Legal(Initial(n), run)
    requires var s := After(Initial(n), run);
             forall t :: 0 <= t < |s.threads| ==> s.threads[t] == Idle
    ensures After(Initial(n), run).shared.queue == [] <==> !Left(Initial(n), run)
  {
    hide Legal, After, Left;
    LeftInvariant(n, run);
  }

  // The callback of a connection takes the single queued code.
  lemma ConnectDoneTakes(g: Shared, t: nat, code: int)
    requires g.queue == [code] && g.codes == {code}
    ensures RunsSolo(g, t, ConnectDoneProxy(true), 5)
    ensures Solo(g, t, ConnectDoneProxy(true), 5)
         == (g.(proxy := true, conn := CONNECTED, queue := [], codes := {}), DrainNext([code]))
  {
    hide Add, EnqueueAll, Enqueue, Elements, Solo, RunsSolo;
    var entry := ConnectDoneProxy(true);
    NoSteps(g, t, entry);
    var up := g.(proxy := true, conn := CONNECTED);
    var taken := up.(queue := [], codes := {});
    SoloStep(g, t, entry, 0, g, entry);
    SoloStep(g, t, entry, 1, g.(proxy := true), ConnectDoneState);
    SoloStep(g, t, entry, 2, up, DrainSwap);
    SoloStep(g, t, entry, 3, taken, DrainState([code]));
    SoloStep(g, t, entry, 4, taken, DrainProxy([code]));
  }

  // And sends it.
  lemma ConnectDoneDrains(g: Shared, t: nat, code: int)
    requires g.queue == [code] && g.codes == {code}
    ensures RunsSolo(g, t, ConnectDoneProxy(true), 10)
    ensures Solo(g, t, ConnectDoneProxy(true), 10)
         == (g.(proxy := true, conn := CONNECTED, queue := [], codes := {}, sent := g.sent + [code]), Idle)
  {
    hide Add, EnqueueAll, Enqueue, Elements, Solo, RunsSolo;
    var entry := ConnectDoneProxy(true);
    ConnectDoneTakes(g, t, code);
    var taken := g.(proxy := true, conn := CONNECTED, queue := [], codes := {});
    var rest: seq<int> := [];
    assert [code][1..] == rest;
    SoloStep(g, t, entry, 5, taken, DrainNext([code]));
    SoloStep(g, t, entry, 6, taken, SendProxy(code, rest));
    SoloStep(g, t, entry, 7, taken, SendState(code, rest, true));
    SoloStep(g, t, entry, 8, taken, SendCall(code, rest));
    SoloStep(g, t, entry, 9, taken.(sent := g.sent + [code]), DrainNext(rest));
  }

  lemma FirstStep(g: Shared, t: nat, code: int)
    ensures RunsSolo(g, t, NotifyRead(code), 1)
    ensures Solo(g, t, NotifyRead(code), 1) == (g, NotifyAdd(code, g.conn))
  {
    assert Solo(g, t, NotifyRead(code), 0) == (g, NotifyRead(code));
  }

  // A code can stay queued while connected: thread 0 reads CONNECTING, the callback of the
  // connection drains the queue, and only then thread 0 enqueues.
  lemma StrandedMessage(first: int, second: int)
    ensures var run := Operation(1, NotifyRead(first), 6) + Operation(0, NotifyRead(second), 1)
                       + Operation(1, ConnectDoneProxy(true), 10) + [Advance(0, true)];
            && Legal(Initial(2), run)
            && var s := After(Initial(2), run);
               s.threads == [Idle, Idle] && s.shared.conn == CONNECTED && s.shared.proxy && s.shared.queue == [second]
  {
    hide Legal, After, Solo, RunsSolo, Operation;
    var s0 := Initial(2);
    var r1 := Operation(1, NotifyRead(first), 6);
    NotifyConnects(s0.shared, 1, first);
    OperationRuns(s0, 1, NotifyRead(first), 6);
    var s1 := After(s0, r1);
    assert s1.threads == [Idle, Idle];
    FirstStep(s1.shared, 0, second);
    OperationRuns(s1, 0, NotifyRead(second), 1);
    var r2 := r1 + Operation(0, NotifyRead(second), 1);
    Concat(s0, r1, Operation(0, NotifyRead(second), 1));
    var s2 := After(s0, r2);
    ConnectDoneDrains(s2.shared, 1, first);
    OperationRuns(s2, 1, ConnectDoneProxy(true), 10);
    var r3 := r2 + Operation(1, ConnectDoneProxy(true), 10);
    Concat(s0, r2, Operation(1, ConnectDoneProxy(true), 10));
    Extend(s0, r3, Advance(0, true));
  }

  // ----- a drain that no other thread interrupts -----

  lemma AdvanceOne(s: State, run: seq<Action>, g: Shared, t: nat, pc: Pc, ok: bool)
    requires t < |s.threads| && Legal(s, run) && After(s, run) == State(g, s.threads[t := pc])
    requires pc != Idle && !pc.NotifyLock? && !pc.ServiceLock?
    ensures Legal(s, run + [Advance(t, ok)])
    ensures var (g', pc') := Advanced(g, t, pc, ok);
            After(s, run + [Advance(t, ok)]) == State(g', s.threads[t := pc'])
  {
    hide Advanced, Legal, After;
    Extend(s, run, Advance(t, ok));
  }

  lemma NothingYet(s: State, t: nat)
    requires t < |s.threads|
    ensures Legal(s, []) && After(s, []) == State(s.shared, s.threads[t := s.threads[t]])
  {
    assert s.threads == s.threads[t := s.threads[t]];
  }

  // One turn of the draining loop, whose send fails or not.
  function SendOne(t: nat, fails: bool): seq<Action> {
    seq(3, _ => Advance(t, true)) + [Advance(t, !fails)] + if fails then [Advance(t, true)] else []
  }

  lemma SendsOne(s: State, t: nat, code: int, temp: seq<int>, fails: bool)
    requires t < |s.threads| && s.threads[t] == DrainNext([code] + temp)
    requires s.shared.conn == CONNECTED && s.shared.proxy
    ensures Legal(s, SendOne(t, fails))
    ensures After(s, SendOne(t, fails))
         == State(if fails then Add(s.shared, code) else s.shared.(sent := s.shared.sent + [code]),
                  s.threads[t := DrainNext(temp)])
  {
    hide Legal, After, Add;
    var g := s.shared;
    var a := Advance(t, true);
    assert ([code] + temp)[1..] == temp;
    NothingYet(s, t);
    AdvanceOne(s, [], g, t, DrainNext([code] + temp), true);
    AdvanceOne(s, [] + [a], g, t, SendProxy(code, temp), true);
    AdvanceOne(s, [] + [a] + [a], g, t, SendState(code, temp, true), true);
    AdvanceOne(s, [] + [a] + [a] + [a], g, t, SendCall(code, temp), !fails);
    assert [] + [a] + [a] + [a] + [Advance(t, !fails)] == seq(3, _ => Advance(t, true)) + [Advance(t, !fails)];
    if fails {
      AdvanceOne(s, seq(3, _ => Advance(t, true)) + [Advance(t, false)], g, t, SendPutBack(code, temp), true);
    } else {
      assert SendOne(t, false) == seq(3, _ => Advance(t, true)) + [Advance(t, true)];
    }
  }

  // The draining loop over a swapped queue.
  function SendRun(t: nat, temp: seq<int>, failing: set<int>): seq<Action> {
    if temp == [] then [Advance(t, true)] else SendOne(t, temp[0] in failing) + SendRun(t, temp[1..], failing)
  }

  // The shared state when the codes done of a queue have been drained from g.
  function Drained(g: Shared, done: seq<int>, failing: set<int>): Shared {
    var kept := Select(done, Fails(failing));
    g.(queue := kept, codes := Elements(kept), sent := g.sent + Select(done, Succeeds(failing)))
  }

  lemma {:induction false} KeptUnique(all: seq<int>, done: seq<int>, rest: seq<int>, failing: set<int>)
    requires NoDuplicates(all) && all == done + rest
    ensures NoDuplicates(Select(done, Fails(failing)))
    decreases |done|
  {
    if done != [] {
      var k := |done| - 1;
      assert all == done[..k] + ([done[k]] + rest);
      KeptUnique(all, done[..k], [done[k]] + rest, failing);
      SelectMember(done[..k], Fails(failing), done[k]);
      if done[k] in done[..k] {
        var i :| 0 <= i < k && done[..k][i] == done[k];
        assert all[i] == all[k];
      }
    }
  }

  lemma DrainedOneMore(g: Shared, all: seq<int>, done: seq<int>, code: int, rest: seq<int>, failing: set<int>)
    requires NoDuplicates(all) && all == done + [code] + rest
    ensures Drained(g, done + [code], failing)
         == if code in failing then Add(Drained(g, done, failing), code)
            else Drained(g, done, failing).(sent := Drained(g, done, failing).sent + [code])
  {
    hide NoDuplicates, Select, Elements, Enqueue;
    var kept, sent := Select(done, Fails(failing)), Select(done, Succeeds(failing));
    DrainStep(all, done, code, rest, failing);
    assert g.sent + (sent + [code]) == g.sent + sent + [code];
    assert kept + [] == kept && sent + [] == sent;
    if code in failing {
      assert all == done + ([code] + rest);
      KeptUnique(all, done, [code] + rest, failing);
      EnqueueConsistent(kept, code);
    }
  }

  lemma LoopEnds(g: Shared, t: nat)
    ensures Advanced(g, t, DrainNext([]), true) == (g, Idle)
  {
  }

  lemma DrainedKeeps(g: Shared, done: seq<int>, failing: set<int>)
    ensures Drained(g, done, failing).conn == g.conn && Drained(g, done, failing).proxy == g.proxy
  {
  }

  lemma {:induction false} SendsAll(s: State, t: nat, g: Shared, all: seq<int>, done: seq<int>, temp: seq<int>,
                                    failing: set<int>)
    requires t < |s.threads| && s.threads[t] == DrainNext(temp) && s.shared == Drained(g, done, failing)
    requires g.conn == CONNECTED && g.proxy && NoDuplicates(all) && all == done + temp
    ensures Legal(s, SendRun(t, temp, failing))
    ensures After(s, SendRun(t, temp, failing)) == State(Drained(g, all, failing), s.threads[t := Idle])
    decreases |temp|
  {
    hide Legal, After, NoDuplicates, Drained, Add, Advanced;
    if temp == [] {
      assert done == all;
      NothingYet(s, t);
      AdvanceOne(s, [], s.shared, t, DrainNext([]), true);
      assert [] + [Advance(t, true)] == SendRun(t, temp, failing);
      LoopEnds(s.shared, t);
    } else {
      var code, rest := temp[0], temp[1..];
      assert temp == [code] + rest && all == done + [code] + rest;
      DrainedKeeps(g, done, failing);
      SendsOne(s, t, code, rest, code in failing);
      DrainedOneMore(g, all, done, code, rest, failing);
      var first := SendOne(t, code in failing);
      var s1 := After(s, first);
      SendsAll(s1, t, g, all, done + [code], rest, failing);
      Concat(s, first, SendRun(t, rest, failing));
      assert s.threads[t := DrainNext(rest)][t := Idle] == s.threads[t := Idle];
    }
  }

  predicate Usable(g: Shared) {
    g.conn == CONNECTED && g.proxy
  }

  // The steps of a ProcessMessageQueue: swap, look at state and token, then send or put back.
  function DrainRun(t: nat, g: Shared, failing: set<int>): seq<Action> {
    var a := Advance(t, true);
    if g.queue == [] then [a]
    else if Usable(g) then [a, a, a] + SendRun(t, g.queue, failing)
    else if g.conn == CONNECTED then [a, a, a, a]
    else [a, a, a]
  }

  // What the object's ProcessMessageQueue leaves.
  function AfterDrain(g: Shared, failing: set<int>): Shared {
    if Usable(g) then Drained(g, g.queue, failing) else g
  }

  lemma Swaps(s: State, t: nat)
    requires t < |s.threads| && s.threads[t] == DrainSwap && s.shared.queue != []
    ensures var run := [Advance(t, true)];
            && Legal(s, run)
            && After(s, run) == State(s.shared.(queue := [], codes := {}), s.threads[t := DrainState(s.shared.queue)])
  {
    hide Legal, After, EnqueueAll, Elements, Enqueue;
    NothingYet(s, t);
    AdvanceOne(s, [], s.shared, t, DrainSwap, true);
    assert [] + [Advance(t, true)] == [Advance(t, true)];
  }

  lemma PutsBack(g: Shared)
    requires QueueConsistent(g)
    ensures EnqueueAll([], g.queue) == g.queue && {} + Elements(g.queue) == g.codes
  {
    EnqueueAllFresh([], g.queue);
    assert [] + g.queue == g.queue;
  }

  lemma DrainedNothing(g: Shared, failing: set<int>)
    ensures Drained(g, [], failing) == g.(queue := [], codes := {})
  {
    NothingToDrain(failing);
    assert g.sent + [] == g.sent;
  }

  lemma DrainsUsable(s: State, t: nat, failing: set<int>)
    requires t < |s.threads| && s.threads[t] == DrainSwap && QueueConsistent(s.shared)
    requires s.shared.queue != [] && Usable(s.shared)
    ensures Legal(s, DrainRun(t, s.shared, failing))
    ensures After(s, DrainRun(t, s.shared, failing))
         == State(Drained(s.shared, s.shared.queue, failing), s.threads[t := Idle])
  {
    hide Legal, After, EnqueueAll, Elements, Enqueue, Drained, Add;
    var a, all := Advance(t, true), s.shared.queue;
    var g := s.shared.(queue := [], codes := {});
    Swaps(s, t);
    AdvanceOne(s, [a], g, t, DrainState(all), true);
    AdvanceOne(s, [a] + [a], g, t, DrainProxy(all), true);
    var s1 := After(s, [a] + [a] + [a]);
    assert [a] + [a] + [a] == [a, a, a];
    DrainedNothing(s.shared, failing);
    assert [] + all == all;
    SendsAll(s1, t, s.shared, all, [], all, failing);
    Concat(s, [a, a, a], SendRun(t, all, failing));
    assert s.threads[t := DrainNext(all)][t := Idle] == s.threads[t := Idle];
  }

  lemma DrainsUnusable(s: State, t: nat, failing: set<int>)
    requires t < |s.threads| && s.threads[t] == DrainSwap && QueueConsistent(s.shared)
    requires s.shared.queue != [] && !Usable(s.shared)
    ensures Legal(s, DrainRun(t, s.shared, failing))
    ensures After(s, DrainRun(t, s.shared, failing)) == State(s.shared, s.threads[t := Idle])
  {
    hide Legal, After, EnqueueAll, Elements, Enqueue, Add, SendRun;
    var a, all := Advance(t, true), s.shared.queue;
    var g := s.shared.(queue := [], codes := {});
    Swaps(s, t);
    PutsBack(s.shared);
    AdvanceOne(s, [a], g, t, DrainState(all), true);
    if s.shared.conn == CONNECTED {
      AdvanceOne(s, [a] + [a], g, t, DrainProxy(all), true);
      AdvanceOne(s, [a] + [a] + [a], g, t, DrainPutBack(all), true);
      assert [a] + [a] + [a] + [a] == [a, a, a, a];
    } else {
      AdvanceOne(s, [a] + [a], g, t, DrainPutBack(all), true);
      assert [a] + [a] + [a] == [a, a, a];
    }
  }

  // A thread that drains alone does what the object's ProcessMessageQueue does, when the
  // sends of the codes in failing fail.
  lemma DrainAlone(s: State, t: nat, failing: set<int>)
    requires t < |s.threads| && s.threads[t] == DrainSwap && QueueConsistent(s.shared)
    ensures Legal(s, DrainRun(t, s.shared, failing))
    ensures After(s, DrainRun(t, s.shared, failing)) == State(AfterDrain(s.shared, failing), s.threads[t := Idle])
  {
    hide Legal, After, EnqueueAll, Elements, Enqueue, Drained, Add, SendRun;
    if s.shared.queue == [] {
      NothingYet(s, t);
      AdvanceOne(s, [], s.shared, t, DrainSwap, true);
      assert [] + [Advance(t, true)] == [Advance(t, true)];
      DrainedNothing(s.shared, failing);
      NothingToDrain(failing);
    } else if Usable(s.shared) {
      DrainsUsable(s, t, failing);
    } else {
      DrainsUnusable(s, t, failing);
    }
  }

  // So whatever was left behind, the next notifyKit on a usable connection sends it: all
  // queued codes and its own go out in order, and only failing ones stay.
  lemma NextNotifyDrains(s: State, t: nat, code: int, failing: set<int>)
    requires t < |s.threads| && s.threads[t] == Idle && QueueConsistent(s.shared) && Usable(s.shared)
    ensures var queue := Enqueue(s.shared.queue, code);
            var run := Operation(t, NotifyRead(code), 2)
                       + DrainRun(t, Add(s.shared, code).(given := s.shared.given + [code]), failing);
            && Legal(s, run)
            && After(s, run).threads == s.threads
            && After(s, run).shared.sent == s.shared.sent + Select(queue, Succeeds(failing))
            && After(s, run).shared.queue == Select(queue, Fails(failing))
  {
    hide Legal, After, Solo, RunsSolo, Operation, DrainRun, Select, Elements, Enqueue, NoDuplicates, EnqueueAll;
    var entry := NotifyRead(code);
    var g := Add(s.shared, code).(given := s.shared.given + [code]);
    NoSteps(s.shared, t, entry);
    SoloStep(s.shared, t, entry, 0, s.shared, entry);
    SoloStep(s.shared, t, entry, 1, s.shared, NotifyAdd(code, CONNECTED));
    OperationRuns(s, t, entry, 2);
    var s1 := After(s, Operation(t, entry, 2));
    EnqueueConsistent(s.shared.queue, code);
    DrainAlone(s1, t, failing);
    Concat(s, Operation(t, entry, 2), DrainRun(t, g, failing));
    assert s.threads[t := DrainSwap][t := Idle] == s.threads;
  }

  // The callback of a connection: token, state, then a drain.
  lemma ConnectDoneAlone(s: State, t: nat, remote: bool, failing: set<int>)
    requires t < |s.threads| && s.threads[t] == Idle && QueueConsistent(s.shared)
    ensures var up := s.shared.(proxy := remote, conn := CONNECTED);
            var run := Operation(t, ConnectDoneProxy(remote), 2) + DrainRun(t, up, failing);
            Legal(s, run) && After(s, run) == State(AfterDrain(up, failing), s.threads)
  {
    hide Legal, After, Solo, RunsSolo, Operation, DrainRun, Elements, Enqueue, NoDuplicates, EnqueueAll;
    var entry, up := ConnectDoneProxy(remote), s.shared.(proxy := remote, conn := CONNECTED);
    NoSteps(s.shared, t, entry);
    SoloStep(s.shared, t, entry, 0, s.shared, entry);
    SoloStep(s.shared, t, entry, 1, s.shared.(proxy := remote), ConnectDoneState);
    OperationRuns(s, t, entry, 2);
    DrainAlone(After(s, Operation(t, entry, 2)), t, failing);
    Concat(s, Operation(t, entry, 2), DrainRun(t, up, failing));
    assert s.threads[t := DrainSwap][t := Idle] == s.threads;
  }

  // ----- nothing is sent without a connection -----

  ghost predicate StaysDown(s: State, run: seq<Action>)
    requires Legal(s, run)
  {
    After(s, run).shared.conn != CONNECTED && (run == [] || StaysDown(s, run[..|run| - 1]))
  }

  ghost predicate NoSendDecided(s: State) {
    forall t :: 0 <= t < |s.threads| ==> !s.threads[t].SendCall?
  }

  lemma StepSendsNothing(s: State, a: Action)
    requires Enabled(s, a) && NoSendDecided(s) && s.shared.conn != CONNECTED
    ensures NoSendDecided(Step(s, a)) && Step(s, a).shared.sent == s.shared.sent
  {
    hide EnqueueAll, Enqueue, Elements;
  }

  // In every interleaving: while the state is not CONNECTED and no send has been decided,
  // nothing is sent.
  lemma {:induction false} NoSendWhileDown(s: State, run: seq<Action>)
    requires Legal(s, run) && StaysDown(s, run) && NoSendDecided(s)
    ensures NoSendDecided(After(s, run)) && After(s, run).shared.sent == s.shared.sent
  {
    hide Enabled, Step, NoSendDecided;
    if run != [] {
      var k := |run| - 1;
      NoSendWhileDown(s, run[..k]);
      StepSendsNothing(After(s, run[..k]), run[k]);
    }
  }

  ghost predicate StaysWithoutToken(s: State, run: seq<Action>)
    requires Legal(s, run)
  {
    !After(s, run).shared.proxy && (run == [] || StaysWithoutToken(s, run[..|run| - 1]))
  }

  ghost predicate NoTokenTaken(s: State) {
    forall t :: 0 <= t < |s.threads| ==>
      !s.threads[t].SendCall? && (s.threads[t].SendState? ==> !s.threads[t].hasProxy)
  }

  lemma StepWithoutToken(s: State, a: Action)
    requires Enabled(s, a) && NoTokenTaken(s) && !s.shared.proxy
    ensures NoTokenTaken(Step(s, a)) && Step(s, a).shared.sent == s.shared.sent
  {
    hide EnqueueAll, Enqueue, Elements;
  }

  // And while there is no token and none has been taken before.
  lemma {:induction false} NoSendWithoutToken(s: State, run: seq<Action>)
    requires Legal(s, run) && StaysWithoutToken(s, run) && NoTokenTaken(s)
    ensures NoTokenTaken(After(s, run)) && After(s, run).shared.sent == s.shared.sent
  {
    hide Enabled, Step, NoTokenTaken;
    if run != [] {
      var k := |run| - 1;
      NoSendWithoutToken(s, run[..k]);
      StepWithoutToken(After(s, run[..k]), run[k]);
    }
  }
}
