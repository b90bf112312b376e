/** The two locks of RelayTunnelProvider.java as a protocol of interleaved steps.
    `callLock` is getCurrentTunnelLock and `thisLock` the monitor of the provider, which
    `wait` gives up. Bodies that hold the monitor throughout are one step. Tunnels are
    numbered in the order they are opened; the clock never goes back. */
module Tunnels {
  import opened Bytes

  const DELAY_BETWEEN_ATTEMPTS_MS: int := 5000

  type Thread = nat

  /** Where a thread is inside `getCurrentTunnel`. `Returning` is its last line, which
      reads the field with neither lock held. */
  datatype Pc =
    | Outside
    | HoldsCall
    | Checking
    | Sleeping
    | Rechecking
    | Opening
    | Opened
    | Connecting(target: nat)
    | ConnectFailed
    | Returning(connected: nat)
    | Crashed

  /** An `open`, with the recorded failure time it saw. */
  datatype Open = Open(at: int, lastFailure: int)

  datatype State = State(
    tunnel: Option<nat>,
    first: bool,
    lastFailure: int,
    clock: int,
    callLock: Option<Thread>,
    thisLock: Option<Thread>,
    pcs: map<Thread, Pc>,
    closed: set<nat>,
    opens: seq<Open>,
    connected: set<nat>,
    failed: set<nat>,
    returned: map<Thread, Option<nat>>)
  {
    function PcOf(t: Thread): Pc {
      if t in pcs then pcs[t] else Outside
    }

    function Goto(t: Thread, pc: Pc): State {
      this.(pcs := pcs[t := pc])
    }

    predicate DelayPassed() {
      first || clock >= lastFailure + DELAY_BETWEEN_ATTEMPTS_MS
    }

    /** Giving back the call lock. */
    function Leave(t: Thread, pc: Pc): State {
      Goto(t, pc).(callLock := None)
    }
  }

  datatype Action =
    | Tick(elapsed: nat)
    | TakeCallLock(t: Thread)
    | TakeThisLock(t: Thread)
    | Check(t: Thread)
    | Wake(t: Thread)
    | Recheck(t: Thread)
    | Interrupt(t: Thread)
    | DoOpen(t: Thread)
    | BeginConnect(t: Thread)
    | EndConnect(t: Thread, ok: bool)
    | RecordFailure(t: Thread)
    | Return(t: Thread)
    | Invalidate(target: Option<nat>, closes: bool)

  /** One step; an action whose moment has not come changes nothing. */
  function Step(s: State, a: Action): State {
    match a
    case Tick(elapsed) => s.(clock := s.clock + elapsed)
    case TakeCallLock(t) =>
      if s.PcOf(t).Outside? && s.callLock.None? then s.Goto(t, HoldsCall).(callLock := Some(t)) else s
    case TakeThisLock(t) =>
      if s.PcOf(t).HoldsCall? && s.thisLock.None? then s.Goto(t, Checking).(thisLock := Some(t)) else s
    case Check(t) =>
      if !s.PcOf(t).Checking? then s
      else if s.tunnel.Some? then s.Leave(t, Outside).(thisLock := None, returned := s.returned[t := s.tunnel])
      else if s.DelayPassed() then s.Goto(t, Opening)
      else s.Goto(t, Sleeping).(thisLock := None)
    case Wake(t) =>
      if s.PcOf(t).Sleeping? && s.thisLock.None? then s.Goto(t, Rechecking).(thisLock := Some(t)) else s
    case Recheck(t) =>
      if !s.PcOf(t).Rechecking? then s
      else if s.DelayPassed() then s.Goto(t, Opening)
      else s.Goto(t, Sleeping).(thisLock := None)
    case Interrupt(t) =>
      if s.PcOf(t).Sleeping? && s.thisLock.None? then s.Leave(t, Outside) else s
    case DoOpen(t) =>
      if !s.PcOf(t).Opening? then s
      else s.Goto(t, Opened).(
             tunnel := Some(|s.opens|), opens := s.opens + [Open(s.clock, s.lastFailure)], thisLock := None)
    case BeginConnect(t) =>
      if !s.PcOf(t).Opened? then s
      else if s.tunnel.Some? then s.Goto(t, Connecting(s.tunnel.value)).(first := false)
      // the field was cleared meanwhile: a null pointer exception
      else s.Leave(t, Crashed).(first := false)
    case EndConnect(t, ok) =>
      if !s.PcOf(t).Connecting? then s
      else if ok then s.Leave(t, Returning(s.PcOf(t).target)).(connected := s.connected + {s.PcOf(t).target})
      else s.Goto(t, ConnectFailed).(failed := s.failed + {s.PcOf(t).target})
    case RecordFailure(t) =>
      if s.PcOf(t).ConnectFailed? && s.thisLock.None? then s.Leave(t, Outside).(lastFailure := s.clock) else s
    case Return(t) =>
      if !s.PcOf(t).Returning? then s
      else s.Goto(t, Outside).(returned := s.returned[t := s.tunnel])
    case Invalidate(target, closes) =>
      if s.thisLock.Some? || s.tunnel.None? || (target.Some? && target != s.tunnel) then s
      else if closes then
        s.(lastFailure := s.clock, closed := s.closed + {s.tunnel.value}, tunnel := None)
      // closing threw: the failure is recorded, the tunnel stays
      else s.(lastFailure := s.clock)
  }

  function Run(s: State, actions: seq<Action>): State
    decreases |actions|
  {
    if actions == [] then s else Run(Step(s, actions[0]), actions[1..])
  }

  function Start(clock: int): State {
    State(None, true, 0, clock, None, None, map[], {}, [], {}, {}, map[])
  }

  predicate InsideCall(pc: Pc) {
    !pc.Outside? && !pc.Crashed? && !pc.Returning?
  }

  predicate HoldsThis(pc: Pc) {
    pc.Checking? || pc.Rechecking? || pc.Opening?
  }

  ghost predicate Placed(s: State, t: Thread) {
    && (InsideCall(s.PcOf(t)) <==> s.callLock == Some(t))
    && (HoldsThis(s.PcOf(t)) <==> s.thisLock == Some(t))
  }

  /** Both locks are held by exactly the threads whose position says so. */
  ghost predicate Locks(s: State) {
    forall t: Thread :: Placed(s, t)
  }

  /** No tunnel is forgotten, and none changes under a thread about to open one. */
  ghost predicate NoneForgotten(s: State) {
    Accounted(s) && forall t: Thread :: Waits(s.PcOf(t)) ==> s.tunnel.None?
  }

  ghost predicate Accounted(s: State) {
    && (forall n: nat :: n < |s.opens| ==> n in s.closed || s.tunnel == Some(n))
    && (s.tunnel.Some? ==> s.tunnel.value + 1 == |s.opens| && s.tunnel.value !in s.closed)
    && (forall n: nat :: n in s.closed ==> n < |s.opens|)
  }

  predicate Waits(pc: Pc) {
    pc.Sleeping? || pc.Rechecking? || pc.Opening?
  }

  /** Every open but the first came five seconds after the failure recorded last. */
  ghost predicate Delayed(s: State) {
    && (forall i :: 1 <= i < |s.opens| ==> Spaced(s.opens[i]))
    && (s.first && s.opens != [] ==> exists t: Thread :: s.PcOf(t).Opened?)
    && (!s.first ==> s.opens != [])
    && (forall t: Thread :: s.PcOf(t).Opened? ==> s.opens != [])
    && (forall t: Thread :: s.PcOf(t).Opening? ==> s.DelayPassed())
  }

  ghost predicate Spaced(o: Open) {
    o.at >= o.lastFailure + DELAY_BETWEEN_ATTEMPTS_MS
  }

  /** What a thread connects to, has connected to or failed to connect to was opened. */
  ghost predicate Targets(s: State) {
    forall t: Thread :: Aimed(s.PcOf(t), |s.opens|)
  }

  predicate Aimed(pc: Pc, n: nat) {
    (pc.Connecting? ==> pc.target < n) && (pc.Returning? ==> pc.connected < n) && (pc.ConnectFailed? ==> 0 < n)
  }

  /** No tunnel is connected twice: one that a thread is about to connect was not tried. */
  ghost predicate Untried(s: State, t: Thread) {
    && (s.PcOf(t).Opened? ==> |s.opens| - 1 !in s.connected && |s.opens| - 1 !in s.failed)
    && (s.PcOf(t).Connecting? ==> s.PcOf(t).target !in s.connected && s.PcOf(t).target !in s.failed)
  }

  /** The current tunnel was tried, or the thread in the call is about to. */
  predicate Tried(s: State) {
    s.tunnel.Some? && s.tunnel.value !in s.connected && s.tunnel.value !in s.failed ==>
      && s.callLock.Some?
      && (s.PcOf(s.callLock.value).Opened? || s.PcOf(s.callLock.value) == Connecting(s.tunnel.value))
  }

  ghost predicate Outcomes(s: State) {
    s.connected !! s.failed && forall n: nat :: n in s.connected || n in s.failed ==> n < |s.opens|
  }

  ghost predicate Settled(s: State) {
    Outcomes(s) && Tried(s) && forall t: Thread :: Untried(s, t)
  }

  ghost predicate Inv(s: State) {
    Locks(s) && NoneForgotten(s) && Delayed(s) && Targets(s) && Settled(s)
  }

  /** The thread that acts; for the others any thread will do. */
  function Actor(a: Action): Thread {
    match a
    case Tick(_) => 0
    case Invalidate(_, _) => 0
    case _ => a.t
  }

  lemma OthersStay(s: State, a: Action, t: Thread)
    requires t != Actor(a)
    ensures Step(s, a).PcOf(t) == s.PcOf(t)
  {
  }

  lemma PlacedKept(s: State, a: Action, t: Thread)
    requires Placed(s, t) && Placed(s, Actor(a))
    ensures Placed(Step(s, a), t)
  {
    hide Step;
    if t == Actor(a) {
      ActorPlaced(s, a);
    } else {
      OthersStay(s, a, t);
      OthersKeepLocks(s, a, t);
    }
  }

  lemma ActorPlaced(s: State, a: Action)
    requires Placed(s, Actor(a))
    ensures Placed(Step(s, a), Actor(a))
  {
  }

  lemma OthersKeepLocks(s: State, a: Action, t: Thread)
    requires Placed(s, Actor(a)) && t != Actor(a)
    ensures Step(s, a).callLock == Some(t) <==> s.callLock == Some(t)
    ensures Step(s, a).thisLock == Some(t) <==> s.thisLock == Some(t)
  {
  }

  lemma LocksKept(s: State, a: Action)
    requires Locks(s)
    ensures Locks(Step(s, a))
  {
    hide Step;
    hide Placed;
    forall t: Thread
      ensures Placed(Step(s, a), t)
    {
      assert Placed(s, t) && Placed(s, Actor(a));
      PlacedKept(s, a, t);
    }
  }

  lemma NoneForgottenKept(s: State, a: Action)
    requires Locks(s) && NoneForgotten(s)
    ensures NoneForgotten(Step(s, a))
  {
    hide Step;
    hide Accounted;
    hide Waits;
    hide Placed;
    AccountedKept(s, a);
    forall t: Thread | Waits(Step(s, a).PcOf(t))
      ensures Step(s, a).tunnel.None?
    {
      assert Placed(s, t) && Placed(s, Actor(a));
      WaiterKept(s, a, t);
    }
  }

  lemma AccountedKept(s: State, a: Action)
    requires Accounted(s) && (Waits(s.PcOf(Actor(a))) ==> s.tunnel.None?)
    ensures Accounted(Step(s, a))
  {
  }

  lemma WaiterKept(s: State, a: Action, t: Thread)
    requires Placed(s, t) && Placed(s, Actor(a)) && (Waits(s.PcOf(t)) ==> s.tunnel.None?)
    ensures Waits(Step(s, a).PcOf(t)) ==> Step(s, a).tunnel.None?
  {
  }

  lemma DelayedKept(s: State, a: Action)
    requires Locks(s) && NoneForgotten(s) && Delayed(s)
    ensures Delayed(Step(s, a))
  {
    hide Step;
    hide Locks;
    hide NoneForgotten;
    var r := Step(s, a);
    FirstIsCleared(s, a);
    if r.first && r.opens != [] {
      OpenerRemains(s, a);
    }
    forall t: Thread | r.PcOf(t).Opening?
      ensures r.DelayPassed()
    {
      OpeningMeansPassed(s, a, t);
    }
    forall i | 1 <= i < |r.opens|
      ensures Spaced(r.opens[i])
    {
      OpensStaySpaced(s, a, i);
    }
  }

  lemma OpensStaySpaced(s: State, a: Action, i: nat)
    requires Locks(s) && Delayed(s) && 1 <= i < |Step(s, a).opens|
    ensures Spaced(Step(s, a).opens[i])
  {
    hide Locks;
    if i < |s.opens| {
      assert Spaced(s.opens[i]);
    } else {
      SecondOpenIsDelayed(s, a.t);
    }
  }

  lemma FirstIsCleared(s: State, a: Action)
    requires Delayed(s)
    ensures !Step(s, a).first ==> Step(s, a).opens != []
    ensures forall t: Thread :: Step(s, a).PcOf(t).Opened? ==> Step(s, a).opens != []
  {
    forall t: Thread | Step(s, a).PcOf(t).Opened?
      ensures Step(s, a).opens != []
    {
      if s.PcOf(t).Opened? {
        assert s.opens != [];
      }
    }
  }

  /** Until `first` is cleared the first opener stays where it is. */
  lemma OpenerRemains(s: State, a: Action)
    requires Locks(s) && Delayed(s) && Step(s, a).first && Step(s, a).opens != []
    ensures exists t: Thread :: Step(s, a).PcOf(t).Opened?
  {
    var r := Step(s, a);
    if s.opens != [] {
      var t: Thread :| s.PcOf(t).Opened?;
      assert Placed(s, t);
      if a.DoOpen? && s.PcOf(a.t).Opening? {
        assert r.PcOf(a.t).Opened?;
      } else {
        assert r.PcOf(t).Opened?;
      }
    } else {
      assert r.PcOf(a.t).Opened?;
    }
  }

  lemma OpeningMeansPassed(s: State, a: Action, t: Thread)
    requires Locks(s) && Delayed(s) && Step(s, a).PcOf(t).Opening?
    ensures Step(s, a).DelayPassed()
  {
    hide Step;
    hide Placed;
    assert Placed(s, t) && Placed(s, Actor(a));
    if s.PcOf(t).Opening? {
      OtherThreadsAreOut(s, a, t);
    } else {
      DelayIsChecked(s, a, t);
    }
  }

  /** While a thread holds both locks nobody else can touch what it waits for. */
  lemma OtherThreadsAreOut(s: State, a: Action, t: Thread)
    requires Placed(s, t) && Placed(s, Actor(a)) && s.PcOf(t).Opening? && s.DelayPassed()
    ensures Step(s, a).DelayPassed()
  {
  }

  lemma DelayIsChecked(s: State, a: Action, t: Thread)
    requires !s.PcOf(t).Opening? && Step(s, a).PcOf(t).Opening?
    ensures Step(s, a).DelayPassed()
  {
  }

  lemma SecondOpenIsDelayed(s: State, t: Thread)
    requires Locks(s) && Delayed(s) && s.PcOf(t).Opening? && s.opens != []
    ensures Spaced(Open(s.clock, s.lastFailure))
  {
    forall u: Thread
      ensures !s.PcOf(u).Opened?
    {
      assert Placed(s, t) && Placed(s, u);
    }
  }

  lemma TargetsKept(s: State, a: Action)
    requires Accounted(s) && Targets(s)
    ensures Targets(Step(s, a))
  {
    hide Step;
    hide Aimed;
    forall t: Thread
      ensures Aimed(Step(s, a).PcOf(t), |Step(s, a).opens|)
    {
      assert Aimed(s.PcOf(t), |s.opens|);
      AimKept(s, a, t);
    }
  }

  lemma AimKept(s: State, a: Action, t: Thread)
    requires Accounted(s) && Aimed(s.PcOf(t), |s.opens|)
    ensures Aimed(Step(s, a).PcOf(t), |Step(s, a).opens|)
  {
    hide Step;
    OpensGrow(s, a);
    if t == Actor(a) {
      ActorsAimKept(s, a);
    } else {
      OthersStay(s, a, t);
    }
  }

  lemma ActorsAimKept(s: State, a: Action)
    requires Accounted(s) && Aimed(s.PcOf(Actor(a)), |s.opens|)
    ensures Aimed(Step(s, a).PcOf(Actor(a)), |Step(s, a).opens|)
  {
  }

  lemma OpensGrow(s: State, a: Action)
    ensures |s.opens| <= |Step(s, a).opens|
  {
  }

  lemma SettledKept(s: State, a: Action)
    requires Locks(s) && Accounted(s) && Targets(s) && Settled(s)
    ensures Settled(Step(s, a))
  {
    hide Step;
    hide Placed;
    hide Untried;
    hide Outcomes;
    hide Tried;
    hide Accounted;
    hide Aimed;
    assert Placed(s, Actor(a)) && Untried(s, Actor(a)) && Aimed(s.PcOf(Actor(a)), |s.opens|);
    OutcomesKept(s, a);
    if s.callLock.Some? {
      assert Placed(s, s.callLock.value);
    }
    TriedKept(s, a);
    forall t: Thread
      ensures Untried(Step(s, a), t)
    {
      assert Placed(s, t) && Untried(s, t);
      UntriedKept(s, a, t);
    }
  }

  lemma OutcomesKept(s: State, a: Action)
    requires Outcomes(s) && Untried(s, Actor(a)) && Aimed(s.PcOf(Actor(a)), |s.opens|)
    ensures Outcomes(Step(s, a))
  {
    OpensGrow(s, a);
  }

  lemma TriedKept(s: State, a: Action)
    requires Tried(s) && Placed(s, Actor(a)) && (s.callLock.Some? ==> Placed(s, s.callLock.value))
    ensures Tried(Step(s, a))
  {
    hide Step;
    if s.callLock.Some? && s.callLock.value != Actor(a) {
      OthersStay(s, a, s.callLock.value);
      OthersKeepLocks(s, a, s.callLock.value);
      OutsidersTryNothing(s, a);
    } else {
      ActorTries(s, a);
    }
  }

  /** Without the call lock a thread can at most invalidate. */
  lemma OutsidersTryNothing(s: State, a: Action)
    requires Placed(s, Actor(a)) && s.callLock.Some? && s.callLock.value != Actor(a)
    ensures Step(s, a).connected == s.connected && Step(s, a).failed == s.failed && Step(s, a).opens == s.opens
    ensures Step(s, a).tunnel == s.tunnel || Step(s, a).tunnel == None
  {
  }

  lemma ActorTries(s: State, a: Action)
    requires Tried(s) && Placed(s, Actor(a)) && (s.callLock.None? || s.callLock.value == Actor(a))
    ensures Tried(Step(s, a))
  {
  }

  lemma UntriedKept(s: State, a: Action, t: Thread)
    requires Placed(s, t) && Placed(s, Actor(a)) && Untried(s, t) && Outcomes(s) && Accounted(s)
    ensures Untried(Step(s, a), t)
  {
    hide Step;
    if t == Actor(a) {
      ActorUntried(s, a);
    } else {
      OthersStay(s, a, t);
      if InsideCall(s.PcOf(t)) {
        OutsidersTryNothing(s, a);
      }
    }
  }

  lemma ActorUntried(s: State, a: Action)
    requires Untried(s, Actor(a)) && Outcomes(s) && Accounted(s)
    ensures Untried(Step(s, a), Actor(a))
  {
  }

  lemma StartInv(clock: int)
    ensures Inv(Start(clock))
  {
  }

  lemma InvAccounted(s: State)
    requires Inv(s)
    ensures Accounted(s)
  {
    hide Locks;
    hide Delayed;
    hide Targets;
  }

  lemma {:induction false} RunKeeps(s: State, actions: seq<Action>)
    requires Inv(s)
    ensures Inv(Run(s, actions))
    decreases |actions|
  {
    hide Locks;
    hide NoneForgotten;
    hide Delayed;
    hide Targets;
    hide Settled;
    hide Step;
    if actions != [] {
      LocksKept(s, actions[0]);
      NoneForgottenKept(s, actions[0]);
      DelayedKept(s, actions[0]);
      InvAccounted(s);
      TargetsKept(s, actions[0]);
      SettledKept(s, actions[0]);
      RunKeeps(Step(s, actions[0]), actions[1..]);
    }
  }

  /** Under every interleaving: every tunnel ever opened is closed or is the current one,
      and every open after the first came at least 5000 ms after the failure recorded
      last. */
  lemma TunnelsAreClosedAndSpaced(clock: int, actions: seq<Action>)
    ensures
      var s := Run(Start(clock), actions);
      && (forall n: nat :: n < |s.opens| ==> n in s.closed || s.tunnel == Some(n))
      && (forall i :: 1 <= i < |s.opens| ==> s.opens[i].at >= s.opens[i].lastFailure + DELAY_BETWEEN_ATTEMPTS_MS)
  {
    hide Run;
    StartInv(clock);
    RunKeeps(Start(clock), actions);
    var s := Run(Start(clock), actions);
    forall i | 1 <= i < |s.opens|
      ensures s.opens[i].at >= s.opens[i].lastFailure + DELAY_BETWEEN_ATTEMPTS_MS
    {
      assert Spaced(s.opens[i]);
    }
  }

  /** At most one thread is inside the call, from the choice of the tunnel to the end of
      its connection. */
  lemma OneThreadOpensAtATime(clock: int, actions: seq<Action>, t: Thread, u: Thread)
    requires InsideCall(Run(Start(clock), actions).PcOf(t)) && InsideCall(Run(Start(clock), actions).PcOf(u))
    ensures t == u
  {
    hide Run;
    hide NoneForgotten;
    hide Delayed;
    StartInv(clock);
    RunKeeps(Start(clock), actions);
    var s := Run(Start(clock), actions);
    assert Placed(s, t);
    assert Placed(s, u);
  }

  /** Invalidating a tunnel that is no longer current changes nothing, in particular it
      never closes the tunnel that replaced it. */
  lemma StaleInvalidationIsHarmless(clock: int, actions: seq<Action>, n: nat, closes: bool)
    requires n in Run(Start(clock), actions).closed
    ensures Step(Run(Start(clock), actions), Invalidate(Some(n), closes)) == Run(Start(clock), actions)
  {
    hide Run;
    hide Locks;
    hide Delayed;
    StartInv(clock);
    RunKeeps(Start(clock), actions);
  }

  // ── failures and delays ──

  /** A failure that happens: an invalidation that finds its tunnel, whether closing it throws or
      not, or a failed connection that is reported. */
  predicate Fails(s: State, a: Action) {
    match a
    case Invalidate(target, _) => s.thisLock.None? && s.tunnel.Some? && (target.None? || target == s.tunnel)
    case RecordFailure(t) => s.PcOf(t).ConnectFailed? && s.thisLock.None?
    case _ => false
  }

  /** The time of the last failure of a run, 0 before the first. */
  function LastFailure(s: State, actions: seq<Action>, last: int): int
    decreases |actions|
  {
    if actions == [] then last
    else LastFailure(Step(s, actions[0]), actions[1..], if Fails(s, actions[0]) then s.clock else last)
  }

  lemma FailureIsRecorded(s: State, a: Action)
    ensures Step(s, a).lastFailure == if Fails(s, a) then s.clock else s.lastFailure
    ensures s.clock <= Step(s, a).clock && s.opens <= Step(s, a).opens
    ensures (a.DoOpen? && s.PcOf(a.t).Opening?) || Step(s, a).opens == s.opens
  {
  }

  lemma {:induction false} LastFailureIsRecorded(s: State, actions: seq<Action>)
    ensures Run(s, actions).lastFailure == LastFailure(s, actions, s.lastFailure)
    decreases |actions|
  {
    hide Step;
    hide Fails;
    if actions != [] {
      FailureIsRecorded(s, actions[0]);
      LastFailureIsRecorded(Step(s, actions[0]), actions[1..]);
    }
  }

  /** From a failure at or after `at` on, no open comes before the delay is over. */
  lemma {:induction false} OpensWait(s: State, actions: seq<Action>, at: int)
    requires Inv(s) && s.opens != [] && s.lastFailure >= at && s.clock >= at
    ensures
      var r := Run(s, actions);
      && s.opens <= r.opens
      && forall i :: |s.opens| <= i < |r.opens| ==> r.opens[i].at >= at + 5000
    decreases |actions|
  {
    hide Locks;
    hide NoneForgotten;
    hide Delayed;
    hide Targets;
    hide Settled;
    hide Step;
    hide Fails;
    if actions != [] {
      var a := actions[0];
      FailureIsRecorded(s, a);
      RunKeeps(s, actions[..1]);
      assert Run(s, actions[..1]) == Step(s, a) by {
        assert actions[..1][1..] == [];
      }
      OpensWait(Step(s, a), actions[1..], at);
      if a.DoOpen? && s.PcOf(a.t).Opening? {
        SecondOpenIsDelayed(s, a.t);
        OpenIsNoted(s, a.t);
      }
    }
  }

  lemma OpenIsNoted(s: State, t: Thread)
    requires s.PcOf(t).Opening?
    ensures Step(s, DoOpen(t)).opens == s.opens + [Open(s.clock, s.lastFailure)]
  {
  }

  /** Under every interleaving: after an invalidation that finds its tunnel, or a failed
      connection that is reported, every open comes at least 5000 ms later. */
  lemma OpensAreSpacedFromFailures(clock: int, before: seq<Action>, failure: Action, after: seq<Action>)
    requires Fails(Run(Start(clock), before), failure)
    ensures
      var s := Run(Start(clock), before);
      var r := Run(Step(s, failure), after);
      && s.opens <= r.opens
      && forall i :: |s.opens| <= i < |r.opens| ==> r.opens[i].at >= s.clock + 5000
  {
    hide Run;
    StartInv(clock);
    RunKeeps(Start(clock), before);
    var s := Run(Start(clock), before);
    FailureNeedsOpen(s, failure);
    FailureIsRecorded(s, failure);
    OneStep(s, failure);
    RunKeeps(s, [failure]);
    OpensWait(Step(s, failure), after, s.clock);
  }

  lemma OneStep(s: State, a: Action)
    ensures Run(s, [a]) == Step(s, a)
  {
    hide Step;
    assert [a][1..] == [];
  }

  lemma FailureNeedsOpen(s: State, a: Action)
    requires Inv(s) && Fails(s, a)
    ensures s.opens != []
  {
    hide Locks;
    hide Delayed;
    hide Settled;
    if a.RecordFailure? {
      assert Aimed(s.PcOf(a.t), |s.opens|);
    }
  }

  /** Only a caller that waits for the delay sleeps. */
  ghost predicate SleepersWait(s: State) {
    forall t: Thread :: s.PcOf(t).Sleeping? || s.PcOf(t).Rechecking? ==> !s.first
  }

  lemma {:induction false} SleepersWaitInRuns(s: State, actions: seq<Action>)
    requires SleepersWait(s)
    ensures SleepersWait(Run(s, actions))
    decreases |actions|
  {
    hide Step;
    hide SleepersWait;
    if actions != [] {
      SleepersWaitKept(s, actions[0]);
      SleepersWaitInRuns(Step(s, actions[0]), actions[1..]);
    }
  }

  lemma SleepersWaitKept(s: State, a: Action)
    requires SleepersWait(s)
    ensures SleepersWait(Step(s, a))
  {
    hide Step;
    hide SleepersWait;
    forall t: Thread | Step(s, a).PcOf(t).Sleeping? || Step(s, a).PcOf(t).Rechecking?
      ensures !Step(s, a).first
    {
      SleeperWaitKept(s, a, t);
    }
    SleepersAll(Step(s, a));
  }

  lemma SleepersAll(s: State)
    requires forall t: Thread :: s.PcOf(t).Sleeping? || s.PcOf(t).Rechecking? ==> !s.first
    ensures SleepersWait(s)
  {
  }

  lemma SleeperWaitKept(s: State, a: Action, t: Thread)
    requires SleepersWait(s)
    ensures Step(s, a).PcOf(t).Sleeping? || Step(s, a).PcOf(t).Rechecking? ==> !Step(s, a).first
  {
    hide Step;
    FirstIsNeverSet(s, a);
    if t == Actor(a) {
      ActorSleeps(s, a);
    } else {
      OthersStay(s, a, t);
    }
  }

  lemma FirstIsNeverSet(s: State, a: Action)
    ensures Step(s, a).first ==> s.first
  {
  }

  lemma ActorSleeps(s: State, a: Action)
    requires s.PcOf(Actor(a)).Sleeping? || s.PcOf(Actor(a)).Rechecking? ==> !s.first
    ensures Step(s, a).PcOf(Actor(a)).Sleeping? || Step(s, a).PcOf(Actor(a)).Rechecking? ==> !Step(s, a).first
  {
  }

  /** In any run, a sleeper that wakes while the monitor is free opens a tunnel if and only if
      5000 ms have passed since the last failure; otherwise it goes back to sleep. */
  lemma SleeperOpensIff(clock: int, actions: seq<Action>, t: Thread)
    requires Run(Start(clock), actions).PcOf(t).Sleeping? && Run(Start(clock), actions).thisLock.None?
    ensures
      var s := Run(Start(clock), actions);
      var r := Step(Step(Step(s, Wake(t)), Recheck(t)), DoOpen(t));
      if s.clock >= LastFailure(Start(clock), actions, 0) + 5000 then
        |r.opens| == |s.opens| + 1 && r.tunnel == Some(|s.opens|) && r.PcOf(t).Opened?
      else r.opens == s.opens && r.PcOf(t).Sleeping? && r.thisLock.None?
  {
    hide Run;
    hide LastFailure;
    SleepersWaitInRuns(Start(clock), actions);
    LastFailureIsRecorded(Start(clock), actions);
    var s := Run(Start(clock), actions);
    var s1 := Step(s, Wake(t));
    assert s1.PcOf(t).Rechecking? && s1.first == s.first && s1.clock == s.clock && s1.lastFailure == s.lastFailure;
    var s2 := Step(s1, Recheck(t));
    assert s2.opens == s.opens;
  }

  /** In any run with both locks free, a caller is given the current tunnel; without one it
      opens one if and only if none was ever opened or 5000 ms have passed since the last
      failure. */
  lemma CallerOpensIff(clock: int, actions: seq<Action>, t: Thread)
    requires Run(Start(clock), actions).PcOf(t).Outside?
    requires Run(Start(clock), actions).callLock.None? && Run(Start(clock), actions).thisLock.None?
    ensures
      var s := Run(Start(clock), actions);
      var r := Step(Step(Step(Step(s, TakeCallLock(t)), TakeThisLock(t)), Check(t)), DoOpen(t));
      if s.tunnel.Some? then r.opens == s.opens && t in r.returned && r.returned[t] == s.tunnel && r.PcOf(t).Outside?
      else if s.opens == [] || s.clock >= LastFailure(Start(clock), actions, 0) + 5000 then
        |r.opens| == |s.opens| + 1 && r.tunnel == Some(|s.opens|) && r.PcOf(t).Opened?
      else r.opens == s.opens && r.PcOf(t).Sleeping?
  {
    hide Run;
    hide LastFailure;
    LastFailureIsRecorded(Start(clock), actions);
    StartInv(clock);
    RunKeeps(Start(clock), actions);
    var s := Run(Start(clock), actions);
    FirstIffNoneOpened(s);
    var s1 := Step(s, TakeCallLock(t));
    assert s1.PcOf(t).HoldsCall?;
    var s2 := Step(s1, TakeThisLock(t));
    assert s2.PcOf(t).Checking? && s2 == s.(pcs := s2.pcs, callLock := s2.callLock, thisLock := s2.thisLock);
    hide Inv;
    var s3 := Step(s2, Check(t));
    assert s3.opens == s.opens;
  }

  lemma FirstIffNoneOpened(s: State)
    requires Inv(s) && s.callLock.None?
    ensures s.first <==> s.opens == []
  {
    hide NoneForgotten;
    hide Targets;
    hide Settled;
    forall t: Thread
      ensures !s.PcOf(t).Opened?
    {
      assert Placed(s, t);
    }
  }

  /** How far a call still is from its end. */
  function Distance(pc: Pc): nat {
    match pc
    case HoldsCall => 6
    case Checking => 5
    case Rechecking => 5
    case Opening => 4
    case Opened => 3
    case Connecting(_) => 2
    case Sleeping => 1
    case ConnectFailed => 1
    case _ => 0
  }

  /** What the thread in the call may do next. */
  function NextOf(s: State, t: Thread): Action {
    match s.PcOf(t)
    case HoldsCall => TakeThisLock(t)
    case Checking => Check(t)
    case Rechecking => Recheck(t)
    case Opening => DoOpen(t)
    case Opened => BeginConnect(t)
    case Connecting(_) => EndConnect(t, true)
    case Sleeping => Interrupt(t)
    case _ => RecordFailure(t)
  }

  lemma NextComesCloser(s: State, t: Thread)
    requires Placed(s, t) && s.callLock == Some(t) && (s.thisLock.None? || s.thisLock == Some(t))
    ensures
      var r := Step(s, NextOf(s, t));
      r.callLock.None? || (r.callLock == Some(t) && Distance(r.PcOf(t)) < Distance(s.PcOf(t)))
  {
  }

  /** No interleaving locks itself up: whoever is in the call, wherever it is, can leave it
      whatever the others do not do. */
  lemma {:induction false} CallCanEnd(s: State, t: Thread) returns (actions: seq<Action>)
    requires Inv(s) && s.callLock == Some(t)
    ensures Run(s, actions).callLock.None? && forall i :: 0 <= i < |actions| ==> Actor(actions[i]) == t
    decreases Distance(s.PcOf(t))
  {
    hide NoneForgotten;
    hide Delayed;
    hide Targets;
    hide Settled;
    hide Step;
    OnlyTheCallerHolds(s, t);
    NextComesCloser(s, t);
    var a := NextOf(s, t);
    OneStep(s, a);
    RunKeeps(s, [a]);
    var r := Step(s, a);
    if r.callLock.None? {
      return [a];
    }
    var later := CallCanEnd(r, t);
    actions := [a] + later;
    assert actions[1..] == later;
  }

  lemma OnlyTheCallerHolds(s: State, t: Thread)
    requires Locks(s) && s.callLock == Some(t)
    ensures Placed(s, t) && (s.thisLock.None? || s.thisLock == Some(t))
  {
    assert Placed(s, t);
    if s.thisLock.Some? {
      assert Placed(s, s.thisLock.value);
    }
  }

  // ── what callers get ──

  /** The current tunnel, which is what callers are handed, is connected if and only if its
      connection did not fail and nobody is still at it. A failed tunnel stays current until
      someone invalidates it. */
  lemma CurrentIsConnectedIff(clock: int, actions: seq<Action>, n: nat)
    requires Run(Start(clock), actions).tunnel == Some(n)
    ensures
      var s := Run(Start(clock), actions);
      n in s.connected <==>
        n !in s.failed && forall t: Thread :: !s.PcOf(t).Opened? && s.PcOf(t) != Connecting(n)
  {
    hide Run;
    hide Delayed;
    hide Targets;
    hide Placed;
    StartInv(clock);
    RunKeeps(Start(clock), actions);
    var s := Run(Start(clock), actions);
    if n in s.connected {
      forall t: Thread
        ensures !s.PcOf(t).Opened? && s.PcOf(t) != Connecting(n)
      {
        assert Untried(s, t);
      }
    }
  }

  /** A thread that finds a tunnel is handed a connected one if and only if the connection
      of that tunnel did not fail. */
  lemma FoundTunnelIsConnectedIff(clock: int, actions: seq<Action>, t: Thread, n: nat)
    requires Run(Start(clock), actions).tunnel == Some(n) && Run(Start(clock), actions).PcOf(t).Checking?
    ensures
      var s := Run(Start(clock), actions);
      var r := Step(s, Check(t));
      t in r.returned && r.returned[t] == Some(n) && (n in s.connected <==> n !in s.failed)
  {
    hide Run;
    hide NoneForgotten;
    hide Delayed;
    hide Targets;
    hide Settled;
    StartInv(clock);
    RunKeeps(Start(clock), actions);
    CurrentIsConnectedIff(clock, actions, n);
    var s := Run(Start(clock), actions);
    forall u: Thread
      ensures !s.PcOf(u).Opened? && s.PcOf(u) != Connecting(n)
    {
      assert Placed(s, t) && Placed(s, u);
    }
  }

  lemma {:induction false} ClosedGrows(s: State, actions: seq<Action>)
    ensures s.closed <= Run(s, actions).closed
    decreases |actions|
  {
    if actions != [] {
      ClosedGrows(Step(s, actions[0]), actions[1..]);
    }
  }

  lemma StepReturns(s: State, a: Action, n: nat)
    requires NoneForgotten(s) && s.tunnel == Some(n) && n !in Step(s, a).closed
    ensures var r := Step(s, a);
      && r.tunnel == Some(n) && r.opens == s.opens
      && forall t: Thread :: t in r.returned ==>
           r.returned[t] == Some(n) || (t in s.returned && r.returned[t] == s.returned[t])
  {
  }

  lemma {:induction false} RunReturns(s: State, actions: seq<Action>, n: nat)
    requires Inv(s) && s.tunnel == Some(n) && n !in Run(s, actions).closed
    ensures var r := Run(s, actions);
      && r.tunnel == Some(n) && r.opens == s.opens
      && forall t: Thread :: t in r.returned ==>
           r.returned[t] == Some(n) || (t in s.returned && r.returned[t] == s.returned[t])
    decreases |actions|
  {
    hide Locks;
    hide NoneForgotten;
    hide Delayed;
    hide Targets;
    hide Step;
    if actions != [] {
      RunKeeps(s, actions[..1]);
      assert Run(s, actions[..1]) == Step(s, actions[0]) by {
        assert actions[..1][1..] == [];
      }
      ClosedGrows(Step(s, actions[0]), actions[1..]);
      StepReturns(s, actions[0], n);
      RunReturns(Step(s, actions[0]), actions[1..], n);
    }
  }

  /** Sender and receiver use the same tunnel: until the current tunnel is closed no other
      is opened, and whatever any thread is given meanwhile is that tunnel. */
  lemma EveryoneGetsTheSameTunnel(clock: int, before: seq<Action>, after: seq<Action>, n: nat)
    requires Run(Start(clock), before).tunnel == Some(n)
    requires n !in Run(Run(Start(clock), before), after).closed
    ensures
      var s := Run(Start(clock), before);
      var r := Run(s, after);
      && r.tunnel == Some(n) && r.opens == s.opens
      && forall t: Thread :: t in r.returned ==>
           r.returned[t] == Some(n) || (t in s.returned && r.returned[t] == s.returned[t])
  {
    hide Run;
    StartInv(clock);
    RunKeeps(Start(clock), before);
    RunReturns(Run(Start(clock), before), after, n);
  }

  /** A thread that opened and connected a tunnel is given that tunnel if and only if
      nobody invalidated it since: the last line reads the field again, unlocked. */
  lemma ReturnsItsTunnelIff(clock: int, actions: seq<Action>, t: Thread)
    requires Run(Start(clock), actions).PcOf(t).Returning?
    ensures
      var s := Run(Start(clock), actions);
      var r := Step(s, Return(t));
      t in r.returned && (r.returned[t] == Some(s.PcOf(t).connected) <==> s.PcOf(t).connected !in s.closed)
  {
    hide Run;
    hide Locks;
    hide Delayed;
    StartInv(clock);
    RunKeeps(Start(clock), actions);
  }

  // ── what the unlocked reads allow ──

  const FIRST_OPEN: seq<Action> := [TakeCallLock(0)] + [TakeThisLock(0)] + [Check(0)] + [DoOpen(0)]

  /** A thread that opened a tunnel dereferences null if and only if that tunnel has been
      closed meanwhile; otherwise it connects the tunnel it opened. */
  lemma OpenerCrashesIff(clock: int, actions: seq<Action>, t: Thread)
    requires Run(Start(clock), actions).PcOf(t).Opened?
    ensures
      var s := Run(Start(clock), actions);
      && s.opens != []
      && Step(s, BeginConnect(t)).PcOf(t) == if |s.opens| - 1 in s.closed then Crashed else Connecting(|s.opens| - 1)
  {
    hide Run;
    hide Locks;
    hide Targets;
    hide Settled;
    StartInv(clock);
    RunKeeps(Start(clock), actions);
  }

  /** A tunnel invalidated between its opening and its connection makes the opener
      dereference null. */
  lemma InvalidationDuringOpenCrashes(clock: int)
    ensures Run(Start(clock), FIRST_OPEN + [Invalidate(None, true)] + [BeginConnect(0)]).PcOf(0) == Crashed
  {
    hide Run;
    RunOnward(Start(clock), FIRST_OPEN, Invalidate(None, true));
    RunOnward(Start(clock), FIRST_OPEN + [Invalidate(None, true)], BeginConnect(0));
    FirstOpen(clock);
  }

  const CONNECTED: seq<Action> := FIRST_OPEN + [BeginConnect(0)] + [EndConnect(0, true)]

  /** A tunnel invalidated between its connection and the last line makes the call return
      null. */
  lemma LateInvalidationReturnsNull(clock: int)
    ensures
      var r := Run(Start(clock), CONNECTED + [Invalidate(None, true)] + [Return(0)]);
      0 in r.returned && r.returned[0] == None
  {
    hide Run;
    RunOnward(Start(clock), CONNECTED, Invalidate(None, true));
    RunOnward(Start(clock), CONNECTED + [Invalidate(None, true)], Return(0));
    FirstConnection(clock);
  }

  const FAILED: seq<Action> := FIRST_OPEN + [BeginConnect(0)] + [EndConnect(0, false)] + [RecordFailure(0)]
  const SECOND_CALL: seq<Action> := FAILED + [TakeCallLock(1)] + [TakeThisLock(1)] + [Check(1)]

  /** After a failed connection the next caller is handed the failed tunnel. */
  lemma FailedTunnelIsHandedOut(clock: int)
    ensures
      var r := Run(Start(clock), SECOND_CALL);
      1 in r.returned && r.returned[1] == Some(0) && 0 in r.failed
  {
    hide Run;
    RunOnward(Start(clock), FAILED, TakeCallLock(1));
    RunOnward(Start(clock), FAILED + [TakeCallLock(1)], TakeThisLock(1));
    RunOnward(Start(clock), FAILED + [TakeCallLock(1)] + [TakeThisLock(1)], Check(1));
    FirstFailure(clock);
  }

  lemma FirstFailure(clock: int)
    ensures var s := Run(Start(clock), FAILED);
      && s.tunnel == Some(0) && 0 in s.failed && s.PcOf(1) == Outside
      && s.callLock.None? && s.thisLock.None?
  {
    hide Run;
    RunOnward(Start(clock), FIRST_OPEN, BeginConnect(0));
    RunOnward(Start(clock), FIRST_OPEN + [BeginConnect(0)], EndConnect(0, false));
    RunOnward(Start(clock), FIRST_OPEN + [BeginConnect(0)] + [EndConnect(0, false)], RecordFailure(0));
    FirstOpen(clock);
  }

  lemma FirstConnection(clock: int)
    ensures var s := Run(Start(clock), CONNECTED);
      s.PcOf(0) == Returning(0) && s.tunnel == Some(0) && s.thisLock.None?
  {
    hide Run;
    RunOnward(Start(clock), FIRST_OPEN, BeginConnect(0));
    RunOnward(Start(clock), FIRST_OPEN + [BeginConnect(0)], EndConnect(0, true));
    FirstOpen(clock);
  }

  lemma FirstOpen(clock: int)
    ensures var s := Run(Start(clock), FIRST_OPEN);
      s.PcOf(0) == Opened && s.PcOf(1) == Outside && s.tunnel == Some(0) && s.thisLock.None?
  {
    hide Run;
    hide Step;
    var s0 := Start(clock);
    assert Run(s0, []) == s0 by { RunNothing(s0); }
    assert [] + [TakeCallLock(0)] == [TakeCallLock(0)];
    RunOnward(s0, [], TakeCallLock(0));
    RunOnward(s0, [TakeCallLock(0)], TakeThisLock(0));
    RunOnward(s0, [TakeCallLock(0)] + [TakeThisLock(0)], Check(0));
    RunOnward(s0, [TakeCallLock(0)] + [TakeThisLock(0)] + [Check(0)], DoOpen(0));
    FirstSteps(clock);
  }

  lemma FirstSteps(clock: int)
    ensures var s := Step(Step(Step(Step(Start(clock), TakeCallLock(0)), TakeThisLock(0)), Check(0)), DoOpen(0));
      s.PcOf(0) == Opened && s.PcOf(1) == Outside && s.tunnel == Some(0) && s.thisLock.None?
  {
    var s1 := Step(Start(clock), TakeCallLock(0));
    assert s1.PcOf(0) == HoldsCall && s1.thisLock.None?;
    var s2 := Step(s1, TakeThisLock(0));
    assert s2.PcOf(0) == Checking && s2.tunnel.None? && s2.first;
  }

  lemma RunNothing(s: State)
    ensures Run(s, []) == s
  {
  }

  lemma {:induction false} RunOnward(s: State, actions: seq<Action>, a: Action)
    ensures Run(s, actions + [a]) == Step(Run(s, actions), a)
    decreases |actions|
  {
    hide Step;
    if actions == [] {
      assert [] + [a] == [a] && [a][1..] == [];
    } else {
      assert (actions + [a])[1..] == actions[1..] + [a];
      RunOnward(Step(s, actions[0]), actions[1..], a);
    }
  }
}
