// GetOAID and ResetOAID interleaved over any number of threads, one step per lock region
// or store access. updateMutex_ is held from a Gain's Lock to its end; a Reset's store
// write happens outside it.

module OaidProtocol {
  import opened Options
  import opened Text
  import opened Uuid
  import opened OaidService

  datatype Pc =
    | Idle
    | GainLocked            // holds updateMutex_, about to read the store
    | GainSeen(seen: Str)   // has read, about to decide
    | GainWrite             // about to write the memory to the store
    | ResetReady(id: Str)   // has generated, about to assign
    | ResetWrite(id: Str)   // has assigned, about to write to the store
    | ResetTell(id: Str)    // has written, about to tell the observer manager

  datatype Event = Returned(id: Str) | Assigned(id: Str) | Restarted

  // told is what a Reset of this process life has last handed to the observer manager.
  datatype State = State(memory: Str, store: Option<Str>, holder: Option<nat>, threads: seq<Pc>, log: seq<Event>,
                         told: Option<Str>)

  datatype Action =
    | Deny(t: nat)                  // GetOAID stopped by the gate
    | Lock(t: nat)
    | Read(t: nat, ok: bool)
    | Decide(t: nat, minted: Str)
    | Write(t: nat, ok: bool)
    | Mint(t: nat, minted: Str)     // ResetOAID generates
    | Assign(t: nat)
    | WriteReset(t: nat, ok: bool)
    | Tell(t: nat)
    | Restart                       // the process ends and starts again

  function Initial(n: nat, store: Option<Str>): State {
    State([], store, None, seq(n, _ => Idle), [], None)
  }

  predicate At(s: State, t: nat, pc: Pc) {
    t < |s.threads| && s.threads[t] == pc
  }

  predicate Enabled(s: State, a: Action) {
    match a
    case Deny(t) => At(s, t, Idle)
    case Lock(t) => At(s, t, Idle) && s.holder.None?
    case Read(t, _) => At(s, t, GainLocked)
    case Decide(t, minted) => t < |s.threads| && s.threads[t].GainSeen? && IsMinted(minted)
    case Write(t, _) => At(s, t, GainWrite)
    case Mint(t, minted) => At(s, t, Idle) && IsV4Text(minted)
    case Assign(t) => t < |s.threads| && s.threads[t].ResetReady? && s.holder.None?
    case WriteReset(t, _) => t < |s.threads| && s.threads[t].ResetWrite?
    case Tell(t) => t < |s.threads| && s.threads[t].ResetTell?
    case Restart => true
  }

  function Goto(s: State, t: nat, pc: Pc): State
    requires t < |s.threads|
  {
    s.(threads := s.threads[t := pc])
  }

  // The thread leaves GainOAID, releasing updateMutex_.
  function Return(s: State, t: nat, id: Str): State
    requires t < |s.threads|
  {
    s.(threads := s.threads[t := Idle], holder := None, log := s.log + [Returned(id)])
  }

  function Step(s: State, a: Action): State
    requires Enabled(s, a)
  {
    match a
    case Deny(t) => s.(log := s.log + [Returned(OAID_ALLZERO_STR)])
    case Lock(t) => Goto(s, t, GainLocked).(holder := Some(t))
    case Read(t, ok) => Goto(s, t, GainSeen(Seen(s.store, ok)))
    case Decide(t, minted) =>
      var seen := s.threads[t].seen;
      var s' := s.(memory := Gained(s.memory, seen, minted));
      if Usable(seen) then Return(s', t, s'.memory)
      else if s'.memory == [] then Return(s', t, OAID_ALLZERO_STR)
      else Goto(s', t, GainWrite)
    case Write(t, ok) =>
      Return(if ok then s.(store := Some(s.memory)) else s, t, s.memory)
    case Mint(t, minted) => Goto(s, t, ResetReady(minted))
    case Assign(t) =>
      var id := s.threads[t].id;
      Goto(s, t, ResetWrite(id)).(memory := id, log := s.log + [Assigned(id)])
    case WriteReset(t, ok) =>
      var id := s.threads[t].id;
      Goto(if ok then s.(store := Some(id)) else s, t, ResetTell(id))
    case Tell(t) => Goto(s, t, Idle).(told := Some(s.threads[t].id))
    case Restart =>
      State([], s.store, None, seq(|s.threads|, _ => Idle), s.log + [Restarted], None)
  }

  // ----- runs -----

  predicate Legal(s: State, run: seq<Action>)
    decreases |run|, 0
  {
    run == [] || (Legal(s, run[..|run| - 1]) && Enabled(After(s, run[..|run| - 1]), run[|run| - 1]))
  }

  function After(s: State, run: seq<Action>): State
    requires Legal(s, run)
    decreases |run|, 1
  {
    if run == [] then s else Step(After(s, run[..|run| - 1]), run[|run| - 1])
  }

  lemma EmptyRun(s: State)
    ensures Legal(s, []) && After(s, []) == s
  {
  }

  lemma Extend(s: State, run: seq<Action>, a: Action)
    requires Legal(s, run) && Enabled(After(s, run), a)
    ensures Legal(s, run + [a]) && After(s, run + [a]) == Step(After(s, run), a)
  {
    assert (run + [a])[..|run|] == run;
  }

  lemma {:induction false} Concat(s: State, run: seq<Action>, later: seq<Action>)
    requires Legal(s, run) && Legal(After(s, run), later)
    ensures Legal(s, run + later) && After(s, run + later) == After(After(s, run), later)
  {
    hide Enabled, Step;
    if later == [] {
      assert run + later == run;
    } else {
      var k := |later| - 1;
      Concat(s, run, later[..k]);
      assert (run + later)[..|run| + k] == run + later[..k];
    }
  }

  predicate OneLife(run: seq<Action>) {
    forall a :: a in run ==> !a.Restart?
  }

  // ----- what the log says -----

  // A non-zero identifier was returned, or a Reset assigned one.
  predicate Bears(e: Event) {
    e.Assigned? || (e.Returned? && e.id != OAID_ALLZERO_STR)
  }

  predicate NoAssignBetween(log: seq<Event>, i: int, j: int) {
    forall k :: 0 <= k < |log| && i < k < j ==> !log[k].Assigned?
  }

  // Every non-zero identifier returned equals every earlier one not separated from it
  // by a Reset's assignment, and equals the identifier of the last assignment.
  ghost predicate Stable(log: seq<Event>) {
    forall i, j ::
      0 <= i < j < |log| && Bears(log[i]) && Bears(log[j]) && log[j].Returned? && NoAssignBetween(log, i, j) ==>
        log[i].id == log[j].id
  }

  // Returned, or assigned, and not replaced by an assignment since.
  ghost predicate Live(log: seq<Event>, id: Str) {
    exists i :: 0 <= i < |log| && Bears(log[i]) && log[i].id == id && NoAssignBetween(log, i, |log|)
  }

  lemma LiveAppend(log: seq<Event>, e: Event, id: Str)
    requires Live(log + [e], id)
    ensures (Bears(e) && e.id == id) || (!e.Assigned? && Live(log, id))
  {
    var log' := log + [e];
    var i :| 0 <= i < |log'| && Bears(log'[i]) && log'[i].id == id && NoAssignBetween(log', i, |log'|);
    if i < |log| {
      assert !log'[|log|].Assigned?;
      forall k | 0 <= k < |log| && i < k ensures !log[k].Assigned? {
        assert log'[k] == log[k];
      }
      assert NoAssignBetween(log, i, |log|) && Bears(log[i]);
    }
  }

  lemma ReturnedIsLive(log: seq<Event>, id: Str)
    requires id != OAID_ALLZERO_STR
    ensures Live(log + [Returned(id)], id)
  {
    assert (log + [Returned(id)])[|log|] == Returned(id);
  }

  lemma StableAppend(log: seq<Event>, e: Event)
    requires Stable(log)
    requires e.Returned? && Bears(e) ==> forall id :: Live(log, id) ==> id == e.id
    ensures Stable(log + [e])
  {
    var log' := log + [e];
    forall i, j | 0 <= i < j < |log'| && Bears(log'[i]) && Bears(log'[j]) && log'[j].Returned?
                  && NoAssignBetween(log', i, j)
      ensures log'[i].id == log'[j].id
    {
      forall k | 0 <= k < |log| && i < k < j ensures !log[k].Assigned? {
        assert log'[k] == log[k];
      }
      assert NoAssignBetween(log, i, j);
      if j == |log| {
        assert Live(log, log[i].id);
      }
    }
  }

  // ----- mutual exclusion -----

  predicate InGain(pc: Pc) {
    pc.GainLocked? || pc.GainSeen? || pc.GainWrite?
  }

  predicate IsReset(pc: Pc) {
    pc.ResetReady? || pc.ResetWrite?
  }

  predicate NoResetWriting(s: State) {
    forall t :: 0 <= t < |s.threads| ==> !s.threads[t].ResetWrite?
  }

  predicate NoGainWriting(s: State) {
    forall t :: 0 <= t < |s.threads| ==> !s.threads[t].GainWrite?
  }

  ghost predicate Exclusive(s: State) {
    forall t :: 0 <= t < |s.threads| ==> (InGain(s.threads[t]) <==> s.holder == Some(t))
  }

  ghost predicate WellFormed(s: State) {
    && Exclusive(s)
    && (s.memory == [] || Usable(s.memory))
    && (forall t :: 0 <= t < |s.threads| && IsReset(s.threads[t]) ==> Usable(s.threads[t].id))
    && (s.memory == [] ==> NoResetWriting(s) && NoGainWriting(s))
  }

  lemma StepExclusive(s: State, a: Action)
    requires Exclusive(s) && Enabled(s, a)
    ensures Exclusive(Step(s, a))
  {
    hide IsV4Text;
  }

  lemma StepWellFormed(s: State, a: Action)
    requires WellFormed(s) && Enabled(s, a)
    ensures WellFormed(Step(s, a))
  {
    StepExclusive(s, a);
    hide IsV4Text, Exclusive;
    if a.Decide? && a.minted != [] {
      GeneratedIsNonzero(a.minted);
    }
    if a.Mint? {
      GeneratedIsNonzero(a.minted);
    }
  }

  // ----- stability within one process life, whatever store accesses fail -----

  ghost predicate MemoryHoldsLive(s: State) {
    && Stable(s.log)
    && forall id :: Live(s.log, id) ==> id == s.memory && id != []
  }

  lemma StepStable(s: State, a: Action)
    requires WellFormed(s) && MemoryHoldsLive(s) && Enabled(s, a) && !a.Restart?
    ensures MemoryHoldsLive(Step(s, a))
  {
    hide Stable, Live, IsV4Text;
    if a.Decide? && a.minted != [] {
      GeneratedIsNonzero(a.minted);
    }
    var s' := Step(s, a);
    if s'.log != s.log {
      var e := s'.log[|s.log|];
      assert s'.log == s.log + [e];
      StableAppend(s.log, e);
      forall id | Live(s'.log, id) ensures id == s'.memory && id != [] {
        LiveAppend(s.log, e, id);
      }
    }
  }

  lemma StableOfMemory(s: State)
    ensures MemoryHoldsLive(s) ==> Stable(s.log)
  {
  }

  lemma InitialGood(n: nat, store: Option<Str>)
    ensures WellFormed(Initial(n, store)) && MemoryHoldsLive(Initial(n, store))
  {
  }

  // In every run of one process life, all non-zero identifiers returned between two
  // assignments of Resets, or before the first, are equal.
  lemma {:induction false} IdentifierStability(n: nat, store: Option<Str>, run: seq<Action>)
    requires Legal(Initial(n, store), run)
    requires OneLife(run)
    ensures WellFormed(After(Initial(n, store), run)) && MemoryHoldsLive(After(Initial(n, store), run))
    ensures Stable(After(Initial(n, store), run).log)
  {
    hide WellFormed, MemoryHoldsLive, Enabled, Step;
    var s := Initial(n, store);
    if run == [] {
      InitialGood(n, store);
    } else {
      var k := |run| - 1;
      assert run == run[..k] + [run[k]];
      IdentifierStability(n, store, run[..k]);
      StepWellFormed(After(s, run[..k]), run[k]);
      StepStable(After(s, run[..k]), run[k]);
    }
    assert MemoryHoldsLive(After(s, run)) ==> Stable(After(s, run).log) by { StableOfMemory(After(s, run)); }
  }

  // ----- whether the store holds the memory -----

  ghost predicate InStep(s: State) {
    s.memory == [] || s.store == Some(s.memory)
  }

  // What a step makes of a divergence of memory and store: a Reset's assignment and the
  // generation of an identifier open one, unless the store holds that identifier already;
  // a store write closes it, unless it is the late write of a Reset that has been
  // overtaken; a write that fails leaves it as it was.
  predicate DivergedBy(s: State, a: Action, diverged: bool)
    requires Enabled(s, a)
  {
    match a
    case Decide(t, minted) =>
      if s.memory == [] && !Usable(s.threads[t].seen) && minted != [] then s.store != Some(minted) else diverged
    case Assign(t) => s.store != Some(s.threads[t].id)
    case Write(_, ok) => diverged && !ok
    case WriteReset(t, ok) => if ok then s.threads[t].id != s.memory else diverged
    case Restart => false
    case _ => diverged
  }

  predicate Diverged(s: State, run: seq<Action>)
    requires Legal(s, run)
  {
    run != [] && DivergedBy(After(s, run[..|run| - 1]), run[|run| - 1], Diverged(s, run[..|run| - 1]))
  }

  // While the memory is empty, what a Gain has read and can use is what the store holds.
  ghost predicate SeenFromStore(s: State) {
    s.memory == [] ==>
      forall t :: 0 <= t < |s.threads| && s.threads[t].GainSeen? && Usable(s.threads[t].seen) ==>
        s.store == Some(s.threads[t].seen)
  }

  lemma StepInStep(s: State, a: Action, diverged: bool)
    requires WellFormed(s) && SeenFromStore(s) && Enabled(s, a)
    requires InStep(s) <==> !diverged
    ensures SeenFromStore(Step(s, a))
    ensures InStep(Step(s, a)) <==> !DivergedBy(s, a, diverged)
  {
    hide IsV4Text;
  }

  lemma InitialInStep(n: nat, store: Option<Str>)
    ensures WellFormed(Initial(n, store)) && SeenFromStore(Initial(n, store)) && InStep(Initial(n, store))
  {
  }

  lemma StepThreads(s: State, a: Action, diverged: bool)
    requires Enabled(s, a)
    ensures |Step(s, a).threads| == |s.threads|
    ensures DivergedBy(s, a, diverged) && !diverged ==> |s.threads| > 0
  {
    hide IsV4Text;
  }

  // In every run, whatever accesses fail, Resets overlap and restarts fall in between,
  // memory and store disagree exactly when the run has diverged.
  lemma {:induction false} Agreement(n: nat, store: Option<Str>, run: seq<Action>)
    requires Legal(Initial(n, store), run)
    ensures var s := After(Initial(n, store), run);
            && WellFormed(s) && SeenFromStore(s) && |s.threads| == n
            && (InStep(s) <==> !Diverged(Initial(n, store), run))
            && (Diverged(Initial(n, store), run) ==> n > 0)
  {
    hide WellFormed, SeenFromStore, InStep, Enabled, Step, DivergedBy;
    var s0 := Initial(n, store);
    if run == [] {
      InitialInStep(n, store);
    } else {
      var k := |run| - 1;
      var s := After(s0, run[..k]);
      Agreement(n, store, run[..k]);
      StepWellFormed(s, run[k]);
      StepInStep(s, run[k], Diverged(s0, run[..k]));
      StepThreads(s, run[k], Diverged(s0, run[..k]));
    }
  }

  // ----- overlapping Resets -----

  predicate Works(a: Action) {
    match a
    case Read(_, ok) => ok
    case Write(_, ok) => ok
    case WriteReset(_, ok) => ok
    case _ => true
  }

  predicate StoreWorks(run: seq<Action>) {
    forall a :: a in run ==> Works(a)
  }

  predicate StaleBy(s: State, a: Action, stale: bool)
    requires Enabled(s, a)
  {
    match a
    case WriteReset(t, _) => s.threads[t].id != s.memory
    case Write(_, _) => false
    case Restart => false
    case _ => stale
  }

  // The last store write of this process life was that of a Reset that another Reset had
  // overtaken.
  predicate Stale(s: State, run: seq<Action>)
    requires Legal(s, run)
  {
    run != [] && StaleBy(After(s, run[..|run| - 1]), run[|run| - 1], Stale(s, run[..|run| - 1]))
  }

  // Between writes a divergence is a stale write, and nothing else.
  ghost predicate OnlyStale(s: State, diverged: bool, stale: bool) {
    && (s.memory == [] ==> !stale && !diverged)
    && (NoResetWriting(s) && NoGainWriting(s) ==> (diverged <==> stale))
  }

  lemma NotWritingBefore(s: State, s': State, t: nat)
    requires t < |s.threads| == |s'.threads| && s'.threads == s.threads[t := s'.threads[t]]
    requires !s.threads[t].ResetWrite? && !s.threads[t].GainWrite?
    ensures NoResetWriting(s') ==> NoResetWriting(s)
    ensures NoGainWriting(s') ==> NoGainWriting(s)
  {
    forall u | 0 <= u < |s.threads| && u != t ensures s'.threads[u] == s.threads[u] {
    }
  }

  lemma StepOnlyStale(s: State, a: Action, diverged: bool, stale: bool)
    requires WellFormed(s) && OnlyStale(s, diverged, stale) && Enabled(s, a) && Works(a)
    ensures OnlyStale(Step(s, a), DivergedBy(s, a, diverged), StaleBy(s, a, stale))
  {
    hide IsV4Text;
    var s' := Step(s, a);
    match a {
      case Restart =>
      case Decide(t, minted) =>
        assert s'.threads[t] == Idle || s'.threads[t] == GainWrite;
        NotWritingBefore(s, s', t);
      case Assign(t) =>
        assert s'.threads[t].ResetWrite?;
      case WriteReset(t, _) =>
      case Tell(t) => NotWritingBefore(s, s', t);
      case Write(t, _) =>
      case Deny(t) =>
      case Lock(t) => NotWritingBefore(s, s', t);
      case Read(t, _) => NotWritingBefore(s, s', t);
      case Mint(t, _) => NotWritingBefore(s, s', t);
    }
  }

  lemma InitialOnlyStale(n: nat, store: Option<Str>)
    ensures OnlyStale(Initial(n, store), false, false)
  {
  }

  lemma {:induction false} DivergedIsStale(n: nat, store: Option<Str>, run: seq<Action>)
    requires Legal(Initial(n, store), run) && StoreWorks(run)
    ensures OnlyStale(After(Initial(n, store), run), Diverged(Initial(n, store), run), Stale(Initial(n, store), run))
  {
    hide WellFormed, SeenFromStore, InStep, OnlyStale, Enabled, Step, DivergedBy, StaleBy;
    var s0 := Initial(n, store);
    if run == [] {
      InitialOnlyStale(n, store);
    } else {
      var k := |run| - 1;
      assert run == run[..k] + [run[k]];
      DivergedIsStale(n, store, run[..k]);
      Agreement(n, store, run[..k]);
      StepOnlyStale(After(s0, run[..k]), run[k], Diverged(s0, run[..k]), Stale(s0, run[..k]));
    }
  }

  // With succeeding store accesses, Resets that overlap in any way and restarts anywhere:
  // whenever no write is outstanding, memory and store agree if and only if the last write
  // was not a stale one.
  lemma AgreementUnlessStale(n: nat, store: Option<Str>, run: seq<Action>)
    requires Legal(Initial(n, store), run) && StoreWorks(run)
    ensures var s := After(Initial(n, store), run);
            NoResetWriting(s) && NoGainWriting(s) ==>
              (s.memory == [] || s.store == Some(s.memory) <==> !Stale(Initial(n, store), run))
  {
    hide Legal, After, Diverged, Stale, StoreWorks, WellFormed, SeenFromStore;
    Agreement(n, store, run);
    DivergedIsStale(n, store, run);
  }

  // Resets that do not overlap: none assigns between another's assignment and write.
  predicate NoOverlap(s: State, run: seq<Action>)
    requires Legal(s, run)
  {
    run == [] ||
    var k := |run| - 1;
    NoOverlap(s, run[..k]) && (run[k].Assign? ==> NoResetWriting(After(s, run[..k])))
  }

  ghost predicate PendingIsMemory(s: State) {
    forall t :: 0 <= t < |s.threads| && s.threads[t].ResetWrite? ==> s.threads[t].id == s.memory
  }

  lemma StepPendingIsMemory(s: State, a: Action)
    requires WellFormed(s) && PendingIsMemory(s) && Enabled(s, a) && (a.Assign? ==> NoResetWriting(s))
    ensures PendingIsMemory(Step(s, a))
  {
    hide IsV4Text;
  }

  lemma {:induction false} NoOverlapNotStale(n: nat, store: Option<Str>, run: seq<Action>)
    requires Legal(Initial(n, store), run) && NoOverlap(Initial(n, store), run)
    ensures PendingIsMemory(After(Initial(n, store), run)) && !Stale(Initial(n, store), run)
  {
    hide WellFormed, SeenFromStore, InStep, Step, DivergedBy, NoResetWriting;
    if run != [] {
      var k := |run| - 1;
      NoOverlapNotStale(n, store, run[..k]);
      Agreement(n, store, run[..k]);
      StepPendingIsMemory(After(Initial(n, store), run[..k]), run[k]);
    }
  }

  // So without overlapping Resets memory and store agree whenever no write is outstanding,
  // wherever restarts fall.
  lemma AgreementWithoutOverlap(n: nat, store: Option<Str>, run: seq<Action>)
    requires Legal(Initial(n, store), run) && StoreWorks(run) && NoOverlap(Initial(n, store), run)
    ensures var s := After(Initial(n, store), run);
            NoResetWriting(s) && NoGainWriting(s) ==> s.memory == [] || s.store == Some(s.memory)
  {
    hide Legal, After, Stale, StoreWorks, NoOverlap, PendingIsMemory;
    AgreementUnlessStale(n, store, run);
    NoOverlapNotStale(n, store, run);
  }

  lemma TwoAssigns(a: Str, b: Str)
    requires IsV4Text(a) && IsV4Text(b)
    ensures var run := [Mint(0, a), Mint(1, b), Assign(0), Assign(1)];
            && Legal(Initial(2, None), run)
            && After(Initial(2, None), run)
            == State(b, None, None, [ResetWrite(a), ResetWrite(b)], [Assigned(a), Assigned(b)], None)
  {
    hide IsV4Text, Legal, After;
    var s0 := Initial(2, None);
    EmptyRun(s0);
    Extend(s0, [], Mint(0, a));
    Extend(s0, [] + [Mint(0, a)], Mint(1, b));
    Extend(s0, [] + [Mint(0, a)] + [Mint(1, b)], Assign(0));
    Extend(s0, [] + [Mint(0, a)] + [Mint(1, b)] + [Assign(0)], Assign(1));
    assert [] + [Mint(0, a)] + [Mint(1, b)] + [Assign(0)] + [Assign(1)]
        == [Mint(0, a), Mint(1, b), Assign(0), Assign(1)];
  }

  lemma FinishReset(s: State, t: nat)
    requires t < |s.threads| && s.threads[t].ResetWrite?
    ensures var run := [WriteReset(t, true), Tell(t)];
            var id := Some(s.threads[t].id);
            Legal(s, run) && After(s, run) == Goto(s, t, Idle).(store := id, told := id)
  {
    hide Legal, After;
    EmptyRun(s);
    Extend(s, [], WriteReset(t, true));
    Extend(s, [] + [WriteReset(t, true)], Tell(t));
    assert [] + [WriteReset(t, true)] + [Tell(t)] == [WriteReset(t, true), Tell(t)];
  }

  // Overlapping Resets break the agreement: the second assigns last, but writes and tells
  // first.
  lemma OverlappingResetsDisagree(a: Str, b: Str)
    requires IsV4Text(a) && IsV4Text(b) && a != b
    ensures var run := [Mint(0, a), Mint(1, b), Assign(0), Assign(1)]
                       + [WriteReset(1, true), Tell(1)] + [WriteReset(0, true), Tell(0)];
            var s0 := Initial(2, None);
            && Legal(s0, run)
            && After(s0, run).threads == [Idle, Idle]
            && After(s0, run).memory == b && After(s0, run).store == Some(a) == After(s0, run).told
  {
    hide IsV4Text, Legal, After;
    var s0 := Initial(2, None);
    var run := [Mint(0, a), Mint(1, b), Assign(0), Assign(1)];
    TwoAssigns(a, b);
    FinishReset(After(s0, run), 1);
    Concat(s0, run, [WriteReset(1, true), Tell(1)]);
    run := run + [WriteReset(1, true), Tell(1)];
    FinishReset(After(s0, run), 0);
    Concat(s0, run, [WriteReset(0, true), Tell(0)]);
  }

  // A Gain that no other step interrupts does what the object's GainOAID does.
  lemma GainAlone(s: State, t: nat, readOk: bool, minted: Str, writeOk: bool)
    requires At(s, t, Idle) && s.holder.None? && IsMinted(minted)
    ensures var seen := Seen(s.store, readOk);
            var memory' := Gained(s.memory, seen, minted);
            var run := [Lock(t), Read(t, readOk), Decide(t, minted)]
                       + if !Usable(seen) && memory' != [] then [Write(t, writeOk)] else [];
            && Legal(s, run)
            && After(s, run) == State(memory', GainedStore(s.memory, s.store, readOk, minted, writeOk), None, s.threads,
                                      s.log + [Returned(if memory' == [] then OAID_ALLZERO_STR else memory')], s.told)
  {
    hide IsMinted, Legal, After;
    var seen := Seen(s.store, readOk);
    var memory' := Gained(s.memory, seen, minted);
    var r1 := [] + [Lock(t)];
    var r2 := r1 + [Read(t, readOk)];
    var r3 := r2 + [Decide(t, minted)];
    EmptyRun(s);
    Extend(s, [], Lock(t));
    assert After(s, r1) == State(s.memory, s.store, Some(t), s.threads[t := GainLocked], s.log, s.told);
    Extend(s, r1, Read(t, readOk));
    assert s.threads[t := GainLocked][t := GainSeen(seen)] == s.threads[t := GainSeen(seen)];
    assert After(s, r2) == State(s.memory, s.store, Some(t), s.threads[t := GainSeen(seen)], s.log, s.told);
    Extend(s, r2, Decide(t, minted));
    assert s.threads[t := GainSeen(seen)][t := Idle] == s.threads;
    if !Usable(seen) && memory' != [] {
      Extend(s, r3, Write(t, writeOk));
      assert s.threads[t := GainSeen(seen)][t := GainWrite][t := Idle] == s.threads;
      assert r3 + [Write(t, writeOk)] == [Lock(t), Read(t, readOk), Decide(t, minted)] + [Write(t, writeOk)];
    } else {
      assert r3 == [Lock(t), Read(t, readOk), Decide(t, minted)] + [];
    }
  }

  // A Gain that the gate stops answers all zeros and touches nothing.
  lemma DenyAlone(s: State, t: nat)
    requires At(s, t, Idle)
    ensures Legal(s, [Deny(t)])
    ensures After(s, [Deny(t)])
         == State(s.memory, s.store, s.holder, s.threads, s.log + [Returned(OAID_ALLZERO_STR)], s.told)
  {
    hide Legal, After;
    EmptyRun(s);
    Extend(s, [], Deny(t));
    assert [] + [Deny(t)] == [Deny(t)];
  }

  // A Reset that no other step interrupts does what the object's ResetOAID does.
  lemma ResetAlone(s: State, t: nat, minted: Str, writeOk: bool)
    requires At(s, t, Idle) && s.holder.None? && IsV4Text(minted)
    ensures var run := [Mint(t, minted), Assign(t), WriteReset(t, writeOk), Tell(t)];
            && Legal(s, run)
            && After(s, run) == State(minted, if writeOk then Some(minted) else s.store, None, s.threads,
                                      s.log + [Assigned(minted)], Some(minted))
  {
    hide IsV4Text, Legal, After;
    var r1 := [] + [Mint(t, minted)];
    var r2 := r1 + [Assign(t)];
    var r3 := r2 + [WriteReset(t, writeOk)];
    EmptyRun(s);
    Extend(s, [], Mint(t, minted));
    Extend(s, r1, Assign(t));
    assert s.threads[t := ResetReady(minted)][t := ResetWrite(minted)] == s.threads[t := ResetWrite(minted)];
    Extend(s, r2, WriteReset(t, writeOk));
    assert s.threads[t := ResetWrite(minted)][t := ResetTell(minted)] == s.threads[t := ResetTell(minted)];
    Extend(s, r3, Tell(t));
    assert s.threads[t := ResetTell(minted)][t := Idle] == s.threads;
    assert r3 + [Tell(t)] == [Mint(t, minted), Assign(t), WriteReset(t, writeOk), Tell(t)];
  }

  // ----- survival of restarts -----

  ghost predicate HasLive(log: seq<Event>) {
    exists id :: Live(log, id)
  }

  // The steps that lose a live identifier: a restart while memory and store have diverged,
  // and a failing read while the memory is empty.
  ghost predicate Loses(s: State, run: seq<Action>, a: Action)
    requires Legal(s, run)
  {
    match a
    case Read(_, ok) => !ok && After(s, run).memory == [] && HasLive(After(s, run).log)
    case Restart => Diverged(s, run) && HasLive(After(s, run).log)
    case _ => false
  }

  ghost predicate Preserving(s: State, run: seq<Action>)
    requires Legal(s, run)
  {
    run == [] || (Preserving(s, run[..|run| - 1]) && !Loses(s, run[..|run| - 1], run[|run| - 1]))
  }

  // A live identifier is in memory, or will be read from the store.
  ghost predicate LiveIsKept(s: State) {
    && Stable(s.log)
    && (forall id :: Live(s.log, id) ==>
          Usable(id) && (s.memory == id || (s.memory == [] && s.store == Some(id))))
  }

  ghost predicate ReadsStore(s: State) {
    s.memory == [] && HasLive(s.log) ==>
      forall t :: 0 <= t < |s.threads| && s.threads[t].GainSeen? ==> s.threads[t].seen == Seen(s.store, true)
  }

  // What a step leaves of an identifier that was live before it.
  lemma StepKeeps(s: State, a: Action, id: Str)
    requires WellFormed(s) && ReadsStore(s) && Enabled(s, a) && !a.Assign?
    requires Live(s.log, id) && Usable(id) && (s.memory == id || (s.memory == [] && s.store == Some(id)))
    requires a.Restart? ==> InStep(s)
    ensures var s' := Step(s, a);
            && (s'.memory == id || (s'.memory == [] && s'.store == Some(id)))
            && (forall e :: s'.log == s.log + [e] && Bears(e) ==> e.id == id)
  {
    hide IsV4Text, Live;
    var s' := Step(s, a);
    if s'.log != s.log {
      assert s'.log == s.log + [s'.log[|s.log|]];
    }
    forall e | s'.log == s.log + [e] && Bears(e) ensures e.id == id {
      assert e == s'.log[|s.log|];
    }
  }

  // What a step returns or assigns is in memory after it.
  lemma StepBears(s: State, a: Action, e: Event)
    requires WellFormed(s) && Enabled(s, a)
    requires Step(s, a).log == s.log + [e] && Bears(e)
    ensures Step(s, a).memory == e.id && Usable(e.id)
    ensures e.Assigned? <==> a.Assign?
  {
    hide IsV4Text;
    assert e == Step(s, a).log[|s.log|];
    if a.Decide? && a.minted != [] {
      GeneratedIsNonzero(a.minted);
    }
  }

  lemma StepLogs(s: State, a: Action)
    requires Enabled(s, a)
    ensures Step(s, a).log == s.log || exists e :: Step(s, a).log == s.log + [e]
    ensures a.Assign? ==> exists e: Event :: e.Assigned? && Step(s, a).log == s.log + [e]
  {
    hide IsV4Text;
    var s' := Step(s, a);
    if s'.log != s.log {
      assert s'.log == s.log + [s'.log[|s.log|]];
    }
  }

  // An identifier that becomes live is in memory.
  lemma StepHasLive(s: State, a: Action)
    requires WellFormed(s) && Enabled(s, a) && HasLive(Step(s, a).log) && Step(s, a).memory == []
    ensures HasLive(s.log)
  {
    hide WellFormed, Step, Enabled, Live;
    var s' := Step(s, a);
    StepLogs(s, a);
    if s'.log != s.log {
      var e :| s'.log == s.log + [e];
      var id :| Live(s'.log, id);
      LiveAppend(s.log, e, id);
      if Bears(e) && e.id == id {
        StepBears(s, a, e);
      }
    }
  }

  lemma StepReadsStore(s: State, a: Action)
    requires WellFormed(s) && ReadsStore(s) && Enabled(s, a)
    requires a.Read? ==> a.ok || s.memory != [] || !HasLive(s.log)
    ensures ReadsStore(Step(s, a))
  {
    hide IsV4Text, HasLive;
    if HasLive(Step(s, a).log) && Step(s, a).memory == [] {
      StepHasLive(s, a);
    }
  }

  lemma StepLiveIsKept(s: State, a: Action)
    requires WellFormed(s) && ReadsStore(s) && LiveIsKept(s) && Enabled(s, a)
    requires a.Restart? ==> InStep(s) || !HasLive(s.log)
    ensures LiveIsKept(Step(s, a))
  {
    hide WellFormed, Stable, Live, ReadsStore, InStep, Step, Enabled, Usable;
    var s' := Step(s, a);
    StepLogs(s, a);
    forall id | Live(s.log, id) && !a.Assign?
      ensures s'.memory == id || (s'.memory == [] && s'.store == Some(id))
      ensures forall e :: s'.log == s.log + [e] && Bears(e) ==> e.id == id
    {
      StepKeeps(s, a, id);
    }
    if s'.log != s.log {
      var e :| s'.log == s.log + [e];
      assert e == s'.log[|s.log|];
      if Bears(e) {
        StepBears(s, a, e);
      }
      StableAppend(s.log, e);
      forall id | Live(s'.log, id)
        ensures Usable(id) && (s'.memory == id || (s'.memory == [] && s'.store == Some(id)))
      {
        LiveAppend(s.log, e, id);
      }
    }
  }

  lemma InitialKept(n: nat, store: Option<Str>)
    ensures LiveIsKept(Initial(n, store)) && ReadsStore(Initial(n, store))
  {
  }

  lemma {:induction false} PreservingInvariant(n: nat, store: Option<Str>, run: seq<Action>)
    requires Legal(Initial(n, store), run) && Preserving(Initial(n, store), run)
    ensures LiveIsKept(After(Initial(n, store), run)) && ReadsStore(After(Initial(n, store), run))
  {
    hide WellFormed, SeenFromStore, InStep, LiveIsKept, ReadsStore, HasLive, Enabled, Step, DivergedBy;
    var s0 := Initial(n, store);
    if run == [] {
      InitialKept(n, store);
    } else {
      var k := |run| - 1;
      PreservingInvariant(n, store, run[..k]);
      Agreement(n, store, run[..k]);
      StepReadsStore(After(s0, run[..k]), run[k]);
      StepLiveIsKept(After(s0, run[..k]), run[k]);
    }
  }

  // As long as no step loses a live identifier, an identifier once returned is returned
  // again after any number of restarts until a Reset assigns another; and a live one is
  // stored exactly when the run has not diverged.
  lemma Persistence(n: nat, store: Option<Str>, run: seq<Action>)
    requires Legal(Initial(n, store), run) && Preserving(Initial(n, store), run)
    ensures var s := After(Initial(n, store), run);
            && Stable(s.log)
            && (forall id :: Live(s.log, id) ==> (s.store == Some(id) <==> !Diverged(Initial(n, store), run)))
  {
    hide Legal, After, Preserving, Diverged, WellFormed, SeenFromStore, ReadsStore, Stable, Live;
    PreservingInvariant(n, store, run);
    Agreement(n, store, run);
  }

  predicate ReadsWork(run: seq<Action>) {
    forall a :: a in run ==> a.Read? ==> a.ok
  }

  // Whatever follows the step, up to the next restart and with succeeding reads, returns
  // the identifiers that were live before it.
  ghost predicate StepIsSafe(s: State, run: seq<Action>, a: Action) {
    forall later ::
      Legal(s, run + [a] + later) && OneLife(later) && ReadsWork(later) ==> Stable(After(s, run + [a] + later).log)
  }

  lemma {:induction false} PreservingContinues(s: State, run: seq<Action>, later: seq<Action>)
    requires Legal(s, run) && Preserving(s, run) && Legal(s, run + later)
    requires OneLife(later) && ReadsWork(later)
    ensures Preserving(s, run + later)
  {
    hide Enabled, Step, Diverged, HasLive;
    if later == [] {
      assert run + later == run;
    } else {
      var k := |later| - 1;
      assert later == later[..k] + [later[k]];
      assert (run + later)[..|run| + k] == run + later[..k];
      PreservingContinues(s, run, later[..k]);
    }
  }

  lemma PreservingExtend(s: State, run: seq<Action>, a: Action)
    requires Legal(s, run) && Preserving(s, run) && Legal(s, run + [a]) && !Loses(s, run, a)
    ensures Preserving(s, run + [a])
  {
    hide Loses;
    assert (run + [a])[..|run|] == run;
  }

  lemma LostIsUnstable(log: seq<Event>, id: Str, between: seq<Event>, r: Str)
    requires Live(log, id) && r != id && Usable(r)
    requires forall e :: e in between ==> !e.Assigned?
    ensures !Stable(log + between + [Returned(r)])
  {
    var log' := log + between + [Returned(r)];
    var i :| 0 <= i < |log| && Bears(log[i]) && log[i].id == id && NoAssignBetween(log, i, |log|);
    var j := |log| + |between|;
    assert log'[j] == Returned(r) && log'[i] == log[i];
    forall k | 0 <= k < |log'| && i < k < j ensures !log'[k].Assigned? {
      if k < |log| {
        assert log'[k] == log[k];
      } else {
        assert log'[k] == between[k - |log|];
      }
    }
    assert NoAssignBetween(log', i, j) && Bears(log'[i]) && Bears(log'[j]);
  }

  // After a restart in a divergence, the next Gain returns another identifier.
  lemma LossAfterRestart(n: nat, store: Option<Str>, run: seq<Action>) returns (later: seq<Action>)
    requires Legal(Initial(n, store), run) && Preserving(Initial(n, store), run)
    requires Diverged(Initial(n, store), run) && HasLive(After(Initial(n, store), run).log)
    ensures Legal(Initial(n, store), run + [Restart] + later) && OneLife(later) && ReadsWork(later)
    ensures !Stable(After(Initial(n, store), run + [Restart] + later).log)
  {
    hide Stable, Live, Legal, After, Preserving, Diverged, WellFormed, SeenFromStore, ReadsStore, IsV4Text;
    var s0 := Initial(n, store);
    var s := After(s0, run);
    Agreement(n, store, run);
    PreservingInvariant(n, store, run);
    var id :| Live(s.log, id);
    assert s.memory == id && s.store != Some(id);
    var minted := AnotherV4(id);
    Extend(s0, run, Restart);
    var s1 := After(s0, run + [Restart]);
    GainAlone(s1, 0, true, minted, true);
    var seen := Seen(s.store, true);
    later := [Lock(0), Read(0, true), Decide(0, minted)]
             + if !Usable(seen) && Gained([], seen, minted) != [] then [Write(0, true)] else [];
    GeneratedIsNonzero(minted);
    Concat(s0, run + [Restart], later);
    var r := if Usable(seen) then seen else minted;
    LostIsUnstable(s.log, id, [Restarted], r);
  }

  // After a failing read while the memory is empty, the Gain generates another identifier,
  // returns it and overwrites the store.
  lemma LossAfterRead(n: nat, store: Option<Str>, run: seq<Action>, t: nat) returns (later: seq<Action>)
    requires Legal(Initial(n, store), run) && Preserving(Initial(n, store), run)
    requires var s := After(Initial(n, store), run);
             Enabled(s, Read(t, false)) && s.memory == [] && HasLive(s.log)
    ensures Legal(Initial(n, store), run + [Read(t, false)] + later) && OneLife(later) && ReadsWork(later)
    ensures !Stable(After(Initial(n, store), run + [Read(t, false)] + later).log)
  {
    hide Stable, Live, Legal, After, Preserving, Diverged, ReadsStore, IsV4Text;
    var s0 := Initial(n, store);
    var s := After(s0, run);
    PreservingInvariant(n, store, run);
    var id :| Live(s.log, id);
    var minted := AnotherV4(id);
    GeneratedIsNonzero(minted);
    var r1 := run + [Read(t, false)];
    var r2 := r1 + [Decide(t, minted)];
    Extend(s0, run, Read(t, false));
    Extend(s0, r1, Decide(t, minted));
    Extend(s0, r2, Write(t, true));
    later := [Decide(t, minted), Write(t, true)];
    assert r1 + later == r2 + [Write(t, true)];
    LostIsUnstable(s.log, id, [], minted);
    assert s.log + [] + [Returned(minted)] == s.log + [Returned(minted)];
  }

  // The losing steps are exactly the unsafe ones.
  lemma StepSafeExactly(n: nat, store: Option<Str>, run: seq<Action>, a: Action)
    requires Legal(Initial(n, store), run) && Preserving(Initial(n, store), run)
    requires Enabled(After(Initial(n, store), run), a)
    ensures StepIsSafe(Initial(n, store), run, a) <==> !Loses(Initial(n, store), run, a)
  {
    hide Stable, Live, HasLive, Preserving, Diverged, Enabled, Step;
    var s0 := Initial(n, store);
    Extend(s0, run, a);
    if Loses(s0, run, a) {
      var later;
      if a.Restart? {
        later := LossAfterRestart(n, store, run);
      } else {
        later := LossAfterRead(n, store, run, a.t);
      }
      assert !StepIsSafe(s0, run, a);
    } else {
      forall later | Legal(s0, run + [a] + later) && OneLife(later) && ReadsWork(later)
        ensures Stable(After(s0, run + [a] + later).log)
      {
        PreservingExtend(s0, run, a);
        PreservingContinues(s0, run + [a], later);
        Persistence(n, store, run + [a] + later);
      }
    }
  }

  // A run in which no access fails, and a restart loses the identifier that a Reset has
  // assigned and a Gain has returned.
  lemma RestartLosesIdentifier(a: Str, b: Str)
    requires IsV4Text(a) && IsV4Text(b) && a != b
    ensures var gain := [Lock(0), Read(0, true), Decide(0, [])];
            var run := [Mint(1, b), Assign(1)] + gain + [Restart] + gain;
            && Legal(Initial(2, Some(a)), run)
            && After(Initial(2, Some(a)), run).log == [Assigned(b), Returned(b), Restarted, Returned(a)]
            && !Stable(After(Initial(2, Some(a)), run).log)
  {
    hide IsV4Text, Stable, Live, Legal, After;
    GeneratedIsNonzero(a);
    GeneratedIsNonzero(b);
    var s0 := Initial(2, Some(a));
    var gain := [Lock(0), Read(0, true), Decide(0, [])];
    EmptyRun(s0);
    Extend(s0, [], Mint(1, b));
    Extend(s0, [] + [Mint(1, b)], Assign(1));
    var run := [Mint(1, b), Assign(1)];
    assert [] + [Mint(1, b)] + [Assign(1)] == run;
    GainAlone(After(s0, run), 0, true, [], true);
    assert gain + [] == gain;
    Concat(s0, run, gain);
    Extend(s0, run + gain, Restart);
    GainAlone(After(s0, run + gain + [Restart]), 0, true, [], true);
    Concat(s0, run + gain + [Restart], gain);
    var log := [Assigned(b), Returned(b)];
    ReturnedIsLive([Assigned(b)], b);
    assert [Assigned(b)] + [Returned(b)] == log;
    LostIsUnstable(log, b, [Restarted], a);
    assert log + [Restarted] + [Returned(a)] == [Assigned(b), Returned(b), Restarted, Returned(a)];
  }

  // ----- which restarts lose an identifier when Resets do not overlap -----

  ghost predicate Pending(s: State, id: Str) {
    exists t :: 0 <= t < |s.threads| && s.threads[t] == ResetWrite(id)
  }

  // A divergence is a Reset's outstanding write, or a generated identifier that has been
  // neither written nor returned.
  ghost predicate Explained(s: State, diverged: bool) {
    diverged ==> Pending(s, s.memory) || (!NoGainWriting(s) && !HasLive(s.log))
  }

  lemma StepNoLive(s: State, a: Action)
    requires WellFormed(s) && Enabled(s, a) && !NoGainWriting(s) && !a.Write? && !HasLive(s.log)
    ensures !HasLive(Step(s, a).log)
    ensures !NoGainWriting(Step(s, a)) || a.Restart?
  {
    hide IsV4Text, Live;
    var s' := Step(s, a);
    var u :| 0 <= u < |s.threads| && s.threads[u].GainWrite?;
    assert !a.Restart? ==> s'.threads[u].GainWrite?;
    if s'.log != s.log {
      var e := s'.log[|s.log|];
      assert s'.log == s.log + [e];
      forall id ensures !Live(s'.log, id) {
        if Live(s'.log, id) {
          LiveAppend(s.log, e, id);
        }
      }
    }
  }

  lemma StepPending(s: State, a: Action)
    requires WellFormed(s) && Enabled(s, a) && Pending(s, s.memory)
    requires !a.Assign? && !a.Restart? && !(a.WriteReset? && s.threads[a.t].id == s.memory)
    ensures Pending(Step(s, a), Step(s, a).memory)
  {
    hide IsV4Text;
    var u :| 0 <= u < |s.threads| && s.threads[u] == ResetWrite(s.memory);
    assert Step(s, a).threads[u] == s.threads[u];
  }

  lemma StepExplained(s: State, a: Action, diverged: bool)
    requires WellFormed(s) && PendingIsMemory(s) && LiveIsKept(s) && ReadsStore(s) && (InStep(s) <==> !diverged)
    requires Explained(s, diverged) && Enabled(s, a) && Works(a)
    ensures Explained(Step(s, a), DivergedBy(s, a, diverged))
  {
    hide IsV4Text, Live, Stable;
    var s' := Step(s, a);
    if a.Assign? {
      assert s'.threads[a.t] == ResetWrite(s'.memory);
    } else if diverged && DivergedBy(s, a, diverged) {
      if Pending(s, s.memory) {
        StepPending(s, a);
      } else {
        StepNoLive(s, a);
      }
    } else if a.Decide? && DivergedBy(s, a, diverged) {
      assert s'.threads[a.t].GainWrite?;
    }
  }

  lemma InitialExplained(s: State)
    ensures Explained(s, false)
  {
  }

  lemma {:induction false} DivergenceExplained(n: nat, store: Option<Str>, run: seq<Action>)
    requires Legal(Initial(n, store), run) && StoreWorks(run) && NoOverlap(Initial(n, store), run)
    requires Preserving(Initial(n, store), run)
    ensures Explained(After(Initial(n, store), run), Diverged(Initial(n, store), run))
  {
    hide WellFormed, SeenFromStore, PendingIsMemory, LiveIsKept, ReadsStore, InStep, Works,
      Explained, HasLive, Enabled, Step, DivergedBy;
    var s0 := Initial(n, store);
    if run == [] {
      InitialExplained(s0);
    } else {
      var k := |run| - 1;
      assert run == run[..k] + [run[k]];
      DivergenceExplained(n, store, run[..k]);
      Agreement(n, store, run[..k]);
      NoOverlapNotStale(n, store, run[..k]);
      PreservingInvariant(n, store, run[..k]);
      StepExplained(After(s0, run[..k]), run[k], Diverged(s0, run[..k]));
    }
  }

  // With succeeding store accesses and no overlapping Resets, a restart that loses a live
  // identifier falls between the assignment and the write of the Reset that assigned it.
  lemma LossNeedsPendingReset(n: nat, store: Option<Str>, run: seq<Action>, id: Str)
    requires Legal(Initial(n, store), run) && StoreWorks(run) && NoOverlap(Initial(n, store), run)
    requires Preserving(Initial(n, store), run)
    requires var s := After(Initial(n, store), run); Live(s.log, id) && s.store != Some(id)
    ensures Pending(After(Initial(n, store), run), id)
  {
    hide Legal, After, Preserving, Diverged, StoreWorks, NoOverlap, WellFormed, SeenFromStore, ReadsStore, Stable, Live;
    PreservingInvariant(n, store, run);
    Persistence(n, store, run);
    DivergenceExplained(n, store, run);
  }

  // ----- an identifier whose first write failed -----

  // In every run of one process life, whatever accesses fail, each write of a Gain that
  // succeeds stores every live identifier.
  lemma WriteStoresLive(n: nat, store: Option<Str>, run: seq<Action>, t: nat, id: Str)
    requires Legal(Initial(n, store), run) && OneLife(run)
    requires Enabled(After(Initial(n, store), run), Write(t, true)) && Live(After(Initial(n, store), run).log, id)
    ensures Step(After(Initial(n, store), run), Write(t, true)).store == Some(id)
  {
    hide Legal, After, Live, Stable, WellFormed;
    IdentifierStability(n, store, run);
  }

  // So when nothing usable is stored, the next Gain that is not interrupted stores and
  // returns the identifier that is live, however many writes have failed before.
  lemma LateStore(n: nat, store: Option<Str>, run: seq<Action>, t: nat, readOk: bool, minted: Str, id: Str)
    requires Legal(Initial(n, store), run) && OneLife(run)
    requires var s := After(Initial(n, store), run);
             At(s, t, Idle) && s.holder.None? && Live(s.log, id) && !Usable(Seen(s.store, readOk))
    requires IsMinted(minted)
    ensures var full := run + [Lock(t), Read(t, readOk), Decide(t, minted), Write(t, true)];
            && Legal(Initial(n, store), full)
            && After(Initial(n, store), full).store == Some(id)
            && After(Initial(n, store), full).log == After(Initial(n, store), run).log + [Returned(id)]
  {
    hide Legal, After, Live, Stable, WellFormed, IsMinted;
    var s0 := Initial(n, store);
    IdentifierStability(n, store, run);
    GainAlone(After(s0, run), t, readOk, minted, true);
    var gain := [Lock(t), Read(t, readOk), Decide(t, minted)] + [Write(t, true)];
    Concat(s0, run, gain);
    assert gain == [Lock(t), Read(t, readOk), Decide(t, minted), Write(t, true)];
  }

  // ----- what the observer was last told -----

  predicate OvertakenBy(s: State, a: Action, overtaken: bool)
    requires Enabled(s, a)
  {
    match a
    case Tell(t) => s.threads[t].id != s.memory
    case Restart => false
    case _ => overtaken
  }

  // The last delivery of this process life was that of a Reset that another Reset had
  // overtaken.
  predicate Overtaken(s: State, run: seq<Action>)
    requires Legal(s, run)
  {
    run != [] && OvertakenBy(After(s, run[..|run| - 1]), run[|run| - 1], Overtaken(s, run[..|run| - 1]))
  }

  predicate NoResetInFlight(s: State) {
    forall t :: 0 <= t < |s.threads| ==> !s.threads[t].ResetWrite? && !s.threads[t].ResetTell?
  }

  ghost predicate ToldKnown(s: State, overtaken: bool) {
    && (s.memory == [] ==> s.told.None? && NoResetInFlight(s))
    && (NoResetInFlight(s) && s.told.Some? ==> (s.told == Some(s.memory) <==> !overtaken))
  }

  lemma StepToldKnown(s: State, a: Action, overtaken: bool)
    requires ToldKnown(s, overtaken) && WellFormed(s) && Enabled(s, a)
    ensures ToldKnown(Step(s, a), OvertakenBy(s, a, overtaken))
  {
    hide IsV4Text;
    var s' := Step(s, a);
    if a.Assign? {
      assert s'.threads[a.t].ResetWrite?;
    } else if a.WriteReset? {
      assert s'.threads[a.t].ResetTell?;
    } else if !a.Tell? && !a.Restart? && NoResetInFlight(s') {
      forall u | 0 <= u < |s.threads| ensures !s.threads[u].ResetWrite? && !s.threads[u].ResetTell? {
        assert s'.threads[u] == s.threads[u] || u == a.t;
      }
    }
  }

  lemma InitialToldKnown(n: nat, store: Option<Str>)
    ensures ToldKnown(Initial(n, store), false)
  {
  }

  // In every run, whatever fails and overlaps: whenever no Reset is between its assignment
  // and its delivery, what the observer was last told by a Reset is the identifier in
  // memory if and only if that Reset had not been overtaken.
  lemma {:induction false} ObserverAgreement(n: nat, store: Option<Str>, run: seq<Action>)
    requires Legal(Initial(n, store), run)
    ensures ToldKnown(After(Initial(n, store), run), Overtaken(Initial(n, store), run))
    ensures var s := After(Initial(n, store), run);
            NoResetInFlight(s) && s.told.Some? ==>
              (s.told == Some(s.memory) <==> !Overtaken(Initial(n, store), run))
  {
    hide WellFormed, SeenFromStore, InStep, NoResetInFlight, Enabled, Step, OvertakenBy;
    var s0 := Initial(n, store);
    if run == [] {
      InitialToldKnown(n, store);
    } else {
      var k := |run| - 1;
      ObserverAgreement(n, store, run[..k]);
      Agreement(n, store, run[..k]);
      StepToldKnown(After(s0, run[..k]), run[k], Overtaken(s0, run[..k]));
    }
  }
}
