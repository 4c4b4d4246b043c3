// How many connect calls of the provider connection can be outstanding.

module ConnectAdsConnects {
  import opened Options
  import opened ConnectAds
  import opened ConnectAdsProtocol

  // Since the last callback of a connection that is up: the connect calls that were
  // accepted, and the steps of callbacks and idle checks that dropped the connection.
  datatype Tally = Tally(outstanding: nat, late: nat)

  function TallyBy(pc: Pc, ok: bool, c: Tally): Tally {
    match pc
    case NotifyConnect => if ok then c.(outstanding := c.outstanding + 1) else c
    case DisconnectDoneState => c.(late := c.late + 1)
    case IdleSet => c.(late := c.late + 1)
    case ConnectDoneState => Tally(0, 0)
    case _ => c
  }

  function Counted(s: State, run: seq<Action>): Tally
    requires Legal(s, run)
  {
    if run == [] then Tally(0, 0)
    else
      var k := |run| - 1;
      match run[k]
      case Start(_, _) => Counted(s, run[..k])
      case Advance(t, ok) => TallyBy(After(s, run[..k]).threads[t], ok, Counted(s, run[..k]))
  }

  // The connect calls that are outstanding or decided, and one more that the state still
  // allows, less the late drops.
  function OpenPotential(s: State, c: Tally): int {
    c.outstanding - c.late
    + (if HolderPc(s).NotifyConnect? then 1 else 0)
    + (if HolderPc(s).NotifySet? || HolderPc(s).NotifyFail? || s.shared.conn == DISCONNECTED then 1 else 0)
  }

  lemma StepOpenPotential(s: State, a: Action, c: Tally)
    requires Exclusive(s) && Enabled(s, a) && OpenPotential(s, c) <= 1
    ensures OpenPotential(Step(s, a), if a.Start? then c else TallyBy(s.threads[a.t], a.ok, c)) <= 1
  {
    hide EnqueueAll, Enqueue, Elements;
  }

  lemma InitialOpen(n: nat)
    ensures Exclusive(Initial(n)) && OpenPotential(Initial(n), Tally(0, 0)) == 1
  {
  }

  lemma {:induction false} OpenInvariant(n: nat, run: seq<Action>)
    requires Legal(Initial(n), run)
    ensures Exclusive(After(Initial(n), run))
    ensures OpenPotential(After(Initial(n), run), Counted(Initial(n), run)) <= 1
  {
    hide Enabled, Step, Exclusive, OpenPotential, TallyBy;
    if run == [] {
      InitialOpen(n);
    } else {
      var k := |run| - 1;
      var s := After(Initial(n), run[..k]);
      OpenInvariant(n, run[..k]);
      StepExclusive(s, run[k]);
      StepOpenPotential(s, run[k], Counted(Initial(n), run[..k]));
    }
  }

  // In every interleaving at most one connect call is outstanding more than there were
  // late drops since the last connection came up.
  lemma OutstandingBounded(n: nat, run: seq<Action>)
    requires Legal(Initial(n), run)
    ensures var c := Counted(Initial(n), run); c.outstanding <= 1 + c.late
  {
    hide Legal, After, Counted, Exclusive;
    OpenInvariant(n, run);
  }

  // CONNECTING is never left behind: an accepted connect call is outstanding, or the thread
  // inside the connect region is still at its call or about to reset the state.
  ghost predicate ConnectingIsOpen(s: State, c: Tally) {
    s.shared.conn == CONNECTING ==>
      c.outstanding > 0 || HolderPc(s).NotifyConnect? || HolderPc(s).NotifyFail?
  }

  lemma StepConnecting(s: State, a: Action, c: Tally)
    requires Exclusive(s) && Enabled(s, a) && ConnectingIsOpen(s, c)
    ensures ConnectingIsOpen(Step(s, a), if a.Start? then c else TallyBy(s.threads[a.t], a.ok, c))
  {
    hide EnqueueAll, Enqueue, Elements;
  }

  lemma OpenWhenFree(s: State, c: Tally)
    ensures ConnectingIsOpen(s, c) && s.shared.conn == CONNECTING && s.shared.holder.None? ==> c.outstanding > 0
  {
  }

  // In every interleaving; so when no thread is inside the connect region, CONNECTING means
  // that an accepted connect call is outstanding.
  lemma {:induction false} ConnectingMeansOutstanding(n: nat, run: seq<Action>)
    requires Legal(Initial(n), run)
    ensures Exclusive(After(Initial(n), run))
    ensures ConnectingIsOpen(After(Initial(n), run), Counted(Initial(n), run))
    ensures var g := After(Initial(n), run).shared;
            g.conn == CONNECTING && g.holder.None? ==> Counted(Initial(n), run).outstanding > 0
  {
    hide Enabled, Step, Exclusive, TallyBy;
    if run == [] {
      InitialOpen(n);
    } else {
      var k := |run| - 1;
      ConnectingMeansOutstanding(n, run[..k]);
      StepExclusive(After(Initial(n), run[..k]), run[k]);
      hide ConnectingIsOpen;
      StepConnecting(After(Initial(n), run[..k]), run[k], Counted(Initial(n), run[..k]));
    }
    OpenWhenFree(After(Initial(n), run), Counted(Initial(n), run));
  }

  // A notifyKit whose connect call fails.
  function FailedNotify(t: nat, code: int): seq<Action> {
    Operation(t, NotifyRead(code), 5) + [Advance(t, false)] + [Advance(t, true)]
  }

  // It leaves the code queued, the state DISCONNECTED and the lock free.
  lemma FailedNotifyRuns(s: State, t: nat, code: int)
    requires t < |s.threads| && s.threads[t] == Idle && s.shared.conn == DISCONNECTED && s.shared.holder.None?
    ensures Legal(s, FailedNotify(t, code))
    ensures var g := s.shared;
            var g' := g.(queue := Enqueue(g.queue, code), codes := g.codes + {code}, given := g.given + [code],
                         connects := g.connects + 1, drops := g.drops + 1);
            After(s, FailedNotify(t, code)) == State(g', s.threads)
  {
    hide Legal, After, Solo, RunsSolo, Operation, Enqueue;
    var g := s.shared;
    var entry := NotifyRead(code);
    NotifyDecides(g, t, code);
    OperationRuns(s, t, entry, 5);
    var decided := Add(g, code).(given := g.given + [code], conn := CONNECTING, holder := Some(t));
    var r := Operation(t, entry, 5);
    Extend(s, r, Advance(t, false));
    assert s.threads[t := NotifyConnect][t := NotifyFail] == s.threads[t := NotifyFail];
    assert After(s, r + [Advance(t, false)])
        == State(decided.(connects := g.connects + 1), s.threads[t := NotifyFail]);
    Extend(s, r + [Advance(t, false)], Advance(t, true));
    assert s.threads[t := NotifyFail][t := Idle] == s.threads;
  }

  // So the next notifyKit connects again.
  lemma ConnectsAfterFailure(s: State, t: nat, code: int, next: int)
    requires t < |s.threads| && s.threads[t] == Idle && s.shared.conn == DISCONNECTED && s.shared.holder.None?
    ensures var run := FailedNotify(t, code) + Operation(t, NotifyRead(next), 6);
            && Legal(s, run)
            && After(s, run).threads == s.threads
            && After(s, run).shared.conn == CONNECTING && After(s, run).shared.holder.None?
            && After(s, run).shared.connects == s.shared.connects + 2
            && After(s, run).shared.queue == Enqueue(Enqueue(s.shared.queue, code), next)
  {
    hide Legal, After, Solo, RunsSolo, Operation, FailedNotify, Enqueue;
    FailedNotifyRuns(s, t, code);
    var s1 := After(s, FailedNotify(t, code));
    NotifyConnects(s1.shared, t, next);
    OperationRuns(s1, t, NotifyRead(next), 6);
    Concat(s, FailedNotify(t, code), Operation(t, NotifyRead(next), 6));
    assert s.threads[t := Idle] == s.threads;
  }

  // A notifyKit that finds a connection in progress only queues its code.
  lemma NotifyWaits(s: State, t: nat, code: int)
    requires t < |s.threads| && s.threads[t] == Idle && s.shared.conn == CONNECTING
    ensures Legal(s, Operation(t, NotifyRead(code), 2))
    ensures var g := s.shared;
            var g' := g.(queue := Enqueue(g.queue, code), codes := g.codes + {code}, given := g.given + [code]);
            After(s, Operation(t, NotifyRead(code), 2)) == State(g', s.threads)
  {
    hide Legal, After, Solo, RunsSolo, Operation, Enqueue;
    var entry := NotifyRead(code);
    NoSteps(s.shared, t, entry);
    SoloStep(s.shared, t, entry, 0, s.shared, entry);
    SoloStep(s.shared, t, entry, 1, s.shared, NotifyAdd(code, CONNECTING));
    OperationRuns(s, t, entry, 2);
    assert s.threads[t := Idle] == s.threads;
  }

  // ----- disconnecting -----

  // The number of steps of an uninterrupted DisconnectService.
  function ServiceSteps(g: Shared): nat {
    if !g.proxy then 2 else if g.conn != CONNECTED then 3 else 4
  }

  // It drops a usable connection and changes nothing else, like the object's DisconnectIfIdle.
  lemma DisconnectAlone(s: State, t: nat)
    requires t < |s.threads| && s.threads[t] == Idle && s.shared.holder.None?
    ensures Legal(s, Operation(t, ServiceLock, ServiceSteps(s.shared)))
    ensures var g := s.shared;
            var g' := if g.proxy && g.conn == CONNECTED then g.(conn := DISCONNECTED, drops := g.drops + 1) else g;
            After(s, Operation(t, ServiceLock, ServiceSteps(g))) == State(g', s.threads)
  {
    hide Legal, After, Solo, RunsSolo, Operation, Enqueue, EnqueueAll, Elements;
    var g := s.shared;
    NoSteps(g, t, ServiceLock);
    SoloStep(g, t, ServiceLock, 0, g, ServiceLock);
    SoloStep(g, t, ServiceLock, 1, g.(holder := Some(t)), IdleProxy);
    if g.proxy {
      SoloStep(g, t, ServiceLock, 2, g.(holder := Some(t)), IdleState);
      if g.conn == CONNECTED {
        SoloStep(g, t, ServiceLock, 3, g.(holder := Some(t)), IdleSet);
      }
    }
    OperationRuns(s, t, ServiceLock, ServiceSteps(g));
    assert s.threads[t := Idle] == s.threads;
  }

  // ----- both bounds are reached -----

  lemma DisconnectDrops(g: Shared, t: nat)
    ensures RunsSolo(g, t, DisconnectDoneProxy, 2)
    ensures Solo(g, t, DisconnectDoneProxy, 2) == (Drop(g.(proxy := false)), Idle)
  {
    assert Solo(g, t, DisconnectDoneProxy, 1) == (g.(proxy := false), DisconnectDoneState);
  }

  // A notifyKit that connects, and d times a late disconnect callback followed by a
  // notifyKit that connects again.
  function Reconnects(d: nat): seq<Action> {
    if d == 0 then Operation(0, NotifyRead(0), 6)
    else Reconnects(d - 1) + Operation(0, DisconnectDoneProxy, 2) + Operation(0, NotifyRead(0), 6)
  }

  lemma {:induction false} ReconnectsRun(n: nat, d: nat)
    requires n > 0
    ensures Legal(Initial(n), Reconnects(d))
    ensures var s := After(Initial(n), Reconnects(d));
            && s.threads == Initial(n).threads && s.shared.holder.None?
            && s.shared.connects == d + 1 && s.shared.drops == d
  {
    hide Legal, After, Solo, RunsSolo, Operation, Add;
    var s0 := Initial(n);
    if d == 0 {
      NotifyConnects(s0.shared, 0, 0);
      OperationRuns(s0, 0, NotifyRead(0), 6);
      AddKeeps(s0.shared, 0);
    } else {
      ReconnectsRun(n, d - 1);
      var r := Reconnects(d - 1);
      var s := After(s0, r);
      DisconnectDrops(s.shared, 0);
      OperationRuns(s, 0, DisconnectDoneProxy, 2);
      Concat(s0, r, Operation(0, DisconnectDoneProxy, 2));
      var r' := r + Operation(0, DisconnectDoneProxy, 2);
      var s' := After(s0, r');
      NotifyConnects(s'.shared, 0, 0);
      AddKeeps(s'.shared, 0);
      OperationRuns(s', 0, NotifyRead(0), 6);
      Concat(s0, r', Operation(0, NotifyRead(0), 6));
    }
  }

  // No connection comes up in a run, and no connect call fails.
  predicate Quiet(a: Action) {
    match a
    case Start(_, entry) => !entry.ConnectDoneProxy?
    case Advance(_, ok) => ok
  }

  predicate QuietPc(pc: Pc) {
    !pc.ConnectDoneProxy? && !pc.ConnectDoneState? && !pc.NotifyFail?
  }

  lemma StepQuiet(s: State, a: Action, c: Tally)
    requires Enabled(s, a) && Quiet(a) && c == Tally(s.shared.connects, s.shared.drops)
    requires forall t :: 0 <= t < |s.threads| ==> QuietPc(s.threads[t])
    ensures var s' := Step(s, a);
            && (if a.Start? then c else TallyBy(s.threads[a.t], a.ok, c)) == Tally(s'.shared.connects, s'.shared.drops)
            && forall t :: 0 <= t < |s'.threads| ==> QuietPc(s'.threads[t])
  {
    hide EnqueueAll, Enqueue, Elements;
  }

  // In such runs all connect calls are outstanding and all drops are late.
  lemma {:induction false} QuietCounts(n: nat, run: seq<Action>)
    requires Legal(Initial(n), run) && forall a :: a in run ==> Quiet(a)
    ensures var s := After(Initial(n), run);
            && Counted(Initial(n), run) == Tally(s.shared.connects, s.shared.drops)
            && forall t :: 0 <= t < |s.threads| ==> QuietPc(s.threads[t])
  {
    hide Enabled, Step, TallyBy, Quiet;
    if run != [] {
      var k := |run| - 1;
      assert run == run[..k] + [run[k]];
      QuietCounts(n, run[..k]);
      StepQuiet(After(Initial(n), run[..k]), run[k], Counted(Initial(n), run[..k]));
    }
  }

  lemma {:induction false} ReconnectsQuiet(d: nat)
    ensures forall a :: a in Reconnects(d) ==> Quiet(a)
  {
    if d > 0 {
      ReconnectsQuiet(d - 1);
    }
  }

  // d drops allow d + 1 connect calls and no more.
  lemma ConnectsExactly(n: nat, d: nat, k: int)
    requires n > 0
    ensures (forall run :: Legal(Initial(n), run) && After(Initial(n), run).shared.drops <= d ==>
               After(Initial(n), run).shared.connects <= k)
       <==> d < k
  {
    hide Legal, After, Reconnects;
    if d < k {
      forall run | Legal(Initial(n), run) && After(Initial(n), run).shared.drops <= d
        ensures After(Initial(n), run).shared.connects <= k
      {
        ConnectsBounded(n, run);
      }
    } else {
      ReconnectsRun(n, d);
    }
  }

  // d late drops allow d + 1 outstanding connect calls and no more: with k = 1, at most
  // one is outstanding if and only if no drop was late.
  lemma OutstandingExactly(n: nat, d: nat, k: int)
    requires n > 0
    ensures (forall run :: Legal(Initial(n), run) && Counted(Initial(n), run).late <= d ==>
               Counted(Initial(n), run).outstanding <= k)
       <==> d < k
  {
    hide Legal, After, Reconnects, Counted, Quiet;
    if d < k {
      forall run | Legal(Initial(n), run) && Counted(Initial(n), run).late <= d
        ensures Counted(Initial(n), run).outstanding <= k
      {
        OutstandingBounded(n, run);
      }
    } else {
      ReconnectsRun(n, d);
      ReconnectsQuiet(d);
      QuietCounts(n, Reconnects(d));
    }
  }

  // With one late drop two connect calls are outstanding, and no connection has come up.
  lemma TwoConnectsOutstanding()
    ensures Legal(Initial(1), Reconnects(1)) && Counted(Initial(1), Reconnects(1)) == Tally(2, 1)
    ensures forall a: Action :: a in Reconnects(1) && a.Start? ==> !a.entry.ConnectDoneProxy?
  {
    hide Legal, After, Reconnects, Counted;
    ReconnectsRun(1, 1);
    ReconnectsQuiet(1);
    QuietCounts(1, Reconnects(1));
  }
}
