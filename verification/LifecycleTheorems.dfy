/** What every run of a service keeps (packages/bootstrap/src/service.ts). */
module LifecycleTheorems {
  import opened Options
  import opened StopAll
  import opened Lifecycle

  lemma RegisteredKeeps(s: State, resource: Resource)
    requires Inv(s)
    ensures Inv(Registered(s, resource))
  {
  }

  lemma BeginStartKeeps(s: State)
    requires Inv(s)
    ensures Inv(BeginStart(s))
  {
    if s.mode.Idle? {
      EnterFollows(s.trail, Idle, Starting);
      if s.resources == [] {
        EnterFollows(s.trail + [Starting], Starting, Running);
      }
    }
  }

  lemma StartedKeeps(s: State)
    requires Inv(s) && s.start.StartingAt?
    ensures Inv(StartNext(s, s.start.at + 1))
  {
  }

  lemma RollbackKeeps(config: Config, s: State)
    requires Inv(s) && s.start.StartingAt?
    ensures Inv(BeginRollback(config, s, s.start.at))
  {
    var late := config.shutdownTimeoutMs <= 0;
    var order := StopOrder(s.resources, s.start.at);
    BeginFollows(s.(start := RollingBack(order, GoOn(order, 0, [], late))), s.start.at, order, late);
  }

  lemma BeginStopAllKeeps(config: Config, s: State, reason: string, elapsed: nat)
    requires Inv(s) && s.shutdown.Draining?
    ensures Inv(BeginStopAll(config, s, reason, elapsed))
  {
    var late := config.shutdownTimeoutMs - elapsed <= 0;
    var p := GoOn(Order(s), 0, [], late);
    BeginFollows(s.(shutdown := StoppingAll(reason, p)), |s.resources|, Order(s), late);
  }

  lemma ContinueKeeps(config: Config, s: State, reason: string, elapsed: nat)
    requires Inv(s) && s.mode != Starting && (s.shutdown.NotShut? || s.shutdown.AwaitingStart?)
    ensures Inv(ContinueShutdown(config, s, reason, elapsed))
  {
    if s.mode == Idle {
      EnterFollows(s.trail, Idle, Stopped);
    } else if s.mode == Running {
      EnterFollows(s.trail, Running, Stopping);
      var draining := Enter(s.(shutdown := Draining(reason)), Stopping);
      if !Drains(config) {
        BeginStopAllKeeps(config, draining, reason, elapsed);
        assert BeginStopAll(config, Enter(s, Stopping), reason, elapsed)
            == BeginStopAll(config, draining, reason, elapsed);
      }
    }
  }

  lemma BeginShutdownKeeps(config: Config, s: State, reason: string, elapsed: nat)
    requires Inv(s)
    ensures Inv(BeginShutdown(config, s, reason, elapsed))
  {
    if s.shutdown.NotShut? && s.mode != Starting {
      ContinueKeeps(config, s, reason, elapsed);
    }
  }

  lemma ShutdownLeavesExits(config: Config, s: State, reason: string, elapsed: nat)
    ensures var t := BeginShutdown(config, s, reason, elapsed); t.exits == s.exits && t.handlers == s.handlers
  {
  }

  lemma HandlerKeeps(s: State, t: State)
    requires Inv(s) && !s.shutdown.NotShut? && s.exits == [] && s.handlers == 0 && t == s.(handlers := 1)
    ensures Inv(t)
  {
    assert InvStart(t) && InvShutdown(t);
  }

  lemma SignalKeeps(config: Config, s: State, signal: string, elapsed: nat)
    requires Inv(s)
    ensures Inv(OnSignal(config, s, signal, elapsed))
  {
    if s.shutdown.NotShut? {
      BeginShutdownKeeps(config, s, signal, elapsed);
      ShutdownLeavesExits(config, s, signal, elapsed);
      HandlerKeeps(BeginShutdown(config, s, signal, elapsed), OnSignal(config, s, signal, elapsed));
    }
  }

  lemma RollbackStopKeeps(s: State, turn: Turn)
    requires Inv(s) && s.start.RollingBack? && s.start.progress.InFlight?
    ensures Inv(AfterStop(s, turn))
  {
    AdvanceFollows(s, |s.start.order|, s.start.order, s.start.progress, turn);
  }

  lemma ShutdownStopKeeps(s: State, turn: Turn)
    requires Inv(s) && s.shutdown.StoppingAll? && s.shutdown.progress.InFlight?
    ensures Inv(AfterStop(s, turn))
  {
    AdvanceFollows(s, |s.resources|, Order(s), s.shutdown.progress, turn);
  }

  lemma RollbackEndKeeps(s: State)
    requires Inv(s) && s.start.RollingBack? && s.start.progress.Finished?
    ensures Inv(AfterStopAll(s))
  {
  }

  lemma ResultFollows(s: State, t: State, p: Progress)
    requires p.Finished? && StopsAlong(s, |s.resources|, Order(s), p)
    requires t.resources == s.resources && t.stops == s.stops && t.shutdown.ShutDown?
    requires var r := t.shutdown.result;
             r.failed == p.failed && r.pending == p.pending
             && r.timedOut == (|p.pending| > 0) && r.ok == (|p.failed| == 0 && !r.timedOut)
    ensures ResultIsRight(t, t.shutdown.result)
  {
  }

  /** The state after the last stop, with its result. */
  lemma ShutdownEndInv(s: State, t: State, result: Result)
    requires Inv(s) && s.shutdown.StoppingAll? && s.shutdown.progress.Finished? && s.start.Started?
    requires t == s.(mode := Stopped, trail := s.trail + [Stopped], listening := false, shutdown := ShutDown(result))
    requires ResultIsRight(t, result)
    ensures Inv(t)
  {
    EnterFollows(s.trail, Stopping, Stopped);
  }

  lemma ShutdownEndKeeps(s: State)
    requires Inv(s) && s.shutdown.StoppingAll? && s.shutdown.progress.Finished?
    ensures Inv(AfterStopAll(s))
  {
    assert s.start.Started?;
    var t := AfterStopAll(s);
    ResultFollows(s, t, s.shutdown.progress);
    ShutdownEndInv(s, t, t.shutdown.result);
  }

  lemma StepKeeps(config: Config, s: State, e: Event)
    requires Inv(s) && Enabled(s, e)
    ensures Inv(Next(config, s, e))
  {
    match e
    case AddResource(resource) => RegisteredKeeps(s, resource);
    case CallStart => BeginStartKeeps(s);
    case StartSettled(ok) =>
      if ok {
        StartedKeeps(s);
      } else {
        RollbackKeeps(config, s);
      }
    case CallShutdown(reason, elapsed) => BeginShutdownKeeps(config, s, reason, elapsed);
    case Signal(signal, elapsed) => SignalKeeps(config, s, signal, elapsed);
    case StartAwaited(elapsed) => ContinueKeeps(config, s, s.shutdown.reason, elapsed);
    case DrainOver(elapsed) => BeginStopAllKeeps(config, s, s.shutdown.reason, elapsed);
    case StopSettled(turn) =>
      if s.start.RollingBack? && s.start.progress.InFlight? {
        RollbackStopKeeps(s, turn);
      } else {
        ShutdownStopKeeps(s, turn);
      }
    case StopAllReturned =>
      if s.start.RollingBack? && s.start.progress.Finished? {
        RollbackEndKeeps(s);
      } else {
        ShutdownEndKeeps(s);
      }
    case ExitCalled =>
  }

  lemma {:induction false} RunKeeps(config: Config, trace: seq<Event>)
    requires Feasible(config, trace)
    ensures Inv(Run(config, trace))
  {
    if trace != [] {
      RunKeeps(config, trace[..|trace| - 1]);
      StepKeeps(config, Run(config, trace[..|trace| - 1]), trace[|trace| - 1]);
    }
  }

  // ----- The theorems -----

  /** Whatever interleaves, the mode moves only along the declared edges. */
  lemma ModesFollowEdges(config: Config, trace: seq<Event>)
    requires Feasible(config, trace)
    ensures FollowsEdges(Run(config, trace).trail, Run(config, trace).mode)
  {
    RunKeeps(config, trace);
  }

  /** How many resources have started in a trace. */
  function CountStarted(trace: seq<Event>): nat {
    if trace == [] then 0
    else CountStarted(trace[..|trace| - 1]) + if trace[|trace| - 1] == StartSettled(true) then 1 else 0
  }

  /** The startup has come as far as resources have started. */
  ghost predicate ReachedBy(s: State, started: nat) {
    match s.start
    case NotStarted => started == 0
    case StartingAt(at) => started == at
    case RollingBack(order, _) => started == |order|
    case Started => started == |s.resources|
    case StartFailed(n) => started == n
  }

  /** Only the startup moves the startup. */
  lemma ShutdownLeavesStart(config: Config, s: State, e: Event)
    requires e.CallShutdown? || e.Signal? || e.StartAwaited? || e.DrainOver? || e.ExitCalled?
    ensures var t := Next(config, s, e); t.start == s.start && t.resources == s.resources
  {
  }

  lemma StartupStep(config: Config, s: State, e: Event, started: nat)
    requires Inv(s) && Enabled(s, e) && ReachedBy(s, started)
    ensures ReachedBy(Next(config, s, e), if e == StartSettled(true) then started + 1 else started)
  {
    if e.CallShutdown? || e.Signal? || e.StartAwaited? || e.DrainOver? || e.ExitCalled? {
      ShutdownLeavesStart(config, s, e);
    }
  }

  lemma {:induction false} StartupIsCounted(config: Config, trace: seq<Event>)
    requires Feasible(config, trace)
    ensures ReachedBy(Run(config, trace), CountStarted(trace))
  {
    if trace != [] {
      var before, last := trace[..|trace| - 1], trace[|trace| - 1];
      StartupIsCounted(config, before);
      RunKeeps(config, before);
      StartupStep(config, Run(config, before), last, CountStarted(before));
    }
  }

  lemma PrefixOfOrder(resources: seq<Resource>, n: nat, stops: seq<nat>)
    requires n <= |resources| && stops <= StopOrder(resources, n)
    ensures NoDuplicates(stops) && forall i :: i in stops ==> i < n
  {
    var order := StopOrder(resources, n);
    StopOrderIsRight(resources, n);
    OrderHasNoDuplicates(resources, n);
    assert forall p :: 0 <= p < |stops| ==> stops[p] == order[p] && order[p] in order;
  }

  /**
   In a service's whole life each resource is stopped at most once, rollback and shutdown taken together; the stops
   come in stop order; and only what had started is stopped.
   */
  lemma StoppedAtMostOnce(config: Config, trace: seq<Event>)
    requires Feasible(config, trace)
    ensures var s, started := Run(config, trace), CountStarted(trace);
            && NoDuplicates(s.stops)
            && (forall i :: i in s.stops ==> i < started)
            && started <= |s.resources| && s.stops <= StopOrder(s.resources, started)
            && (s.start.RollingBack? || s.start.StartFailed? ==> started < |s.resources|)
  {
    RunKeeps(config, trace);
    StartupIsCounted(config, trace);
    PrefixOfOrder(Run(config, trace).resources, CountStarted(trace), Run(config, trace).stops);
  }

  /**
   The promise every caller of `shutdown` shares tells the truth: once a started service is shut down, its stop order
   is what settled followed by `pending`, `failed` is picked from what settled, and `ok` and `timedOut` say so.
   */
  lemma ResultAccountsForAll(config: Config, trace: seq<Event>)
    requires Feasible(config, trace)
    requires Run(config, trace).start.Started? && Run(config, trace).shutdown.ShutDown?
    ensures var s := Run(config, trace);
            var r := s.shutdown.result;
            && s.mode.Stopped? && |r.pending| <= |s.resources|
            && Order(s) == Order(s)[..|s.resources| - |r.pending|] + r.pending
            && Subsequence(r.failed, Order(s)[..|s.resources| - |r.pending|])
            && (r.timedOut <==> r.pending != []) && (r.ok <==> r.failed == [] && r.pending == [])
            && (r.ok ==> s.stops == Order(s))
  {
    RunKeeps(config, trace);
    var s := Run(config, trace);
    if s.shutdown.result.ok {
      assert Order(s)[..|s.stops|] == Order(s);
    }
  }

  /** Once there is a result it is there for good: later calls and signals share it, whatever they are. */
  lemma ResultIsFinal(config: Config, s: State, e: Event)
    requires Inv(s) && Enabled(s, e) && s.shutdown.ShutDown?
    ensures var t := Next(config, s, e);
            && t.shutdown == s.shutdown && t.mode == s.mode && t.stops == s.stops
            && t.trail == s.trail && t.resources == s.resources
  {
  }

  /** Why a shutdown was begun, from then on. */
  function ReasonOf(s: ShutdownPhase): string {
    match s
    case NotShut => ""
    case AwaitingStart(reason) => reason
    case Draining(reason) => reason
    case StoppingAll(reason, _) => reason
    case ShutDown(result) => result.reason
  }

  /** The reason an event gives for a shutdown: what the caller says, or the name of the signal. */
  function Gives(e: Event): Option<string> {
    match e
    case CallShutdown(reason, _) => Some(reason)
    case Signal(signal, _) => Some(signal)
    case _ => None
  }

  lemma ReasonStep(config: Config, s: State, e: Event)
    requires Enabled(s, e)
    ensures var t := Next(config, s, e);
            if s.shutdown.NotShut? then t.shutdown.NotShut? || Gives(e) == Some(ReasonOf(t.shutdown))
            else !t.shutdown.NotShut? && ReasonOf(t.shutdown) == ReasonOf(s.shutdown)
  {
    if e.StopSettled? || e.StopAllReturned? {
      StopsKeepReason(s, e);
    }
  }

  lemma StopsKeepReason(s: State, e: Event)
    requires Enabled(s, e) && (e.StopSettled? || e.StopAllReturned?)
    ensures var t := if e.StopSettled? then AfterStop(s, e.turn) else AfterStopAll(s);
            ReasonOf(t.shutdown) == ReasonOf(s.shutdown) && (t.shutdown.NotShut? <==> s.shutdown.NotShut?)
  {
  }

  /** The reason in the result is that of the first call or signal, however many came later. */
  lemma {:induction false} ReasonIsTheFirst(config: Config, trace: seq<Event>) returns (i: nat)
    requires Feasible(config, trace) && !Run(config, trace).shutdown.NotShut?
    ensures i < |trace| && Run(config, trace[..i]).shutdown.NotShut? && !Run(config, trace[..i + 1]).shutdown.NotShut?
    ensures Gives(trace[i]) == Some(ReasonOf(Run(config, trace).shutdown))
  {
    var before, last := trace[..|trace| - 1], trace[|trace| - 1];
    ReasonStep(config, Run(config, before), last);
    if Run(config, before).shutdown.NotShut? {
      i := |trace| - 1;
      assert trace[..i + 1] == trace;
    } else {
      i := ReasonIsTheFirst(config, before);
      assert before[..i] == trace[..i] && before[..i + 1] == trace[..i + 1];
    }
  }

  /** A signal came while no shutdown had begun. */
  ghost predicate BegunBySignal(config: Config, trace: seq<Event>) {
    exists i :: 0 <= i < |trace| && trace[i].Signal? && Run(config, trace[..i]).shutdown.NotShut?
  }

  lemma ExitStep(config: Config, s: State, e: Event)
    requires Enabled(s, e)
    ensures var t := Next(config, s, e);
            |t.exits| + t.handlers
            == |s.exits| + s.handlers + if e.Signal? && s.shutdown.NotShut? then 1 else 0
  {
    if e.Signal? {
      ShutdownLeavesExits(config, s, e.signal, e.elapsed);
    } else if e.CallShutdown? {
      ShutdownLeavesExits(config, s, e.reason, e.elapsed);
    }
  }

  lemma BegunLater(config: Config, trace: seq<Event>)
    requires trace != []
    ensures var before, last := trace[..|trace| - 1], trace[|trace| - 1];
            BegunBySignal(config, trace) <==>
            BegunBySignal(config, before) || (last.Signal? && Run(config, before).shutdown.NotShut?)
  {
    var before := trace[..|trace| - 1];
    assert forall i :: 0 <= i < |before| ==> before[..i] == trace[..i] && before[i] == trace[i];
  }

  /**
   Every signal that begins a shutdown leaves its own call of `exit` to come. Called or still to come there is one if a
   signal began the shutdown and none otherwise, and it is called with the code of the result.
   */
  lemma {:induction false} ExitsOnce(config: Config, trace: seq<Event>)
    requires Feasible(config, trace)
    ensures var s := Run(config, trace);
            && |s.exits| + s.handlers == (if BegunBySignal(config, trace) then 1 else 0)
            && (s.exits != [] ==> s.shutdown.ShutDown? && s.exits == if s.shutdown.result.ok then [0] else [1])
  {
    RunKeeps(config, trace);
    if trace != [] {
      var before, last := trace[..|trace| - 1], trace[|trace| - 1];
      ExitsOnce(config, before);
      RunKeeps(config, before);
      ExitStep(config, Run(config, before), last);
      BegunLater(config, trace);
    }
  }

  /** The result, and the calls that led to it, are the same at any later point of a run. */
  lemma {:induction false} ResultIsShared(config: Config, trace: seq<Event>, more: seq<Event>)
    requires Feasible(config, trace + more) && Run(config, trace).shutdown.ShutDown?
    ensures Run(config, trace + more).shutdown == Run(config, trace).shutdown
    ensures Run(config, trace + more).stops == Run(config, trace).stops
    decreases |more|
  {
    if more == [] {
      assert trace + more == trace;
    } else {
      var fewer := more[..|more| - 1];
      assert (trace + more)[..|trace + more| - 1] == trace + fewer;
      ResultIsShared(config, trace, fewer);
      RunKeeps(config, trace + fewer);
      ResultIsFinal(config, Run(config, trace + fewer), more[|more| - 1]);
    }
  }
}
